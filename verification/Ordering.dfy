/** The total orders behind every `sorted(...)` of the domain layer.

    Strings compare by code point, tuples of strings compare lexicographically. `SortBy` is a
    stable sort; when the keys of the elements are distinct its result depends on the multiset
    of elements alone. */
module Ordering {

  predicate StrLe(a: string, b: string) {
    a == [] || (b != [] && (a[0] < b[0] || (a[0] == b[0] && StrLe(a[1..], b[1..]))))
  }

  lemma StrReflexive(a: string)
    ensures StrLe(a, a)
  {
  }

  lemma {:induction false} StrTotal(a: string, b: string)
    ensures StrLe(a, b) || StrLe(b, a)
  {
    if a != [] && b != [] && a[0] == b[0] {
      StrTotal(a[1..], b[1..]);
    }
  }

  lemma {:induction false} StrAntisymmetric(a: string, b: string)
    requires StrLe(a, b) && StrLe(b, a)
    ensures a == b
  {
    if a != [] && b != [] {
      StrAntisymmetric(a[1..], b[1..]);
      assert a == [a[0]] + a[1..] == [b[0]] + b[1..] == b;
    }
  }

  lemma {:induction false} StrTransitive(a: string, b: string, c: string)
    requires StrLe(a, b) && StrLe(b, c)
    ensures StrLe(a, c)
  {
    if a != [] && a[0] == b[0] && b[0] == c[0] {
      StrTransitive(a[1..], b[1..], c[1..]);
    }
  }

  /** A tuple of strings. */
  type Key = seq<string>

  predicate KeyLe(a: Key, b: Key) {
    a == [] || (b != [] && (if a[0] == b[0] then KeyLe(a[1..], b[1..]) else StrLe(a[0], b[0])))
  }

  predicate KeyLt(a: Key, b: Key) {
    KeyLe(a, b) && a != b
  }

  lemma {:induction false} KeyTotal(a: Key, b: Key)
    ensures KeyLe(a, b) || KeyLe(b, a)
  {
    if a != [] && b != [] {
      if a[0] == b[0] {
        KeyTotal(a[1..], b[1..]);
      } else {
        StrTotal(a[0], b[0]);
      }
    }
  }

  lemma {:induction false} KeyAntisymmetric(a: Key, b: Key)
    requires KeyLe(a, b) && KeyLe(b, a)
    ensures a == b
  {
    if a != [] && b != [] {
      if a[0] != b[0] {
        StrAntisymmetric(a[0], b[0]);
      }
      KeyAntisymmetric(a[1..], b[1..]);
      assert a == [a[0]] + a[1..] == [b[0]] + b[1..] == b;
    }
  }

  lemma {:induction false} KeyTransitive(a: Key, b: Key, c: Key)
    requires KeyLe(a, b) && KeyLe(b, c)
    ensures KeyLe(a, c)
  {
    if a != [] {
      if a[0] == b[0] == c[0] {
        KeyTransitive(a[1..], b[1..], c[1..]);
      } else {
        StrReflexive(a[0]);
        StrReflexive(c[0]);
        StrTransitive(a[0], b[0], c[0]);
        if a[0] == c[0] {
          StrAntisymmetric(a[0], b[0]);
        }
      }
    }
  }

  ghost predicate SortedBy<T>(key: T -> Key, s: seq<T>) {
    forall i, j | 0 <= i < j < |s| :: KeyLe(key(s[i]), key(s[j]))
  }

  ghost predicate StrictlySortedBy<T>(key: T -> Key, s: seq<T>) {
    forall i, j | 0 <= i < j < |s| :: KeyLt(key(s[i]), key(s[j]))
  }

  ghost predicate Distinct<T>(s: seq<T>) {
    forall i, j | 0 <= i < j < |s| :: s[i] != s[j]
  }

  ghost predicate DistinctKeys<T>(key: T -> Key, s: seq<T>) {
    forall i, j | 0 <= i < j < |s| :: key(s[i]) != key(s[j])
  }

  function Insert<T>(key: T -> Key, x: T, s: seq<T>): (r: seq<T>)
    ensures multiset(r) == multiset{x} + multiset(s)
    ensures |r| == |s| + 1
  {
    if s == [] then [x]
    else if KeyLe(key(x), key(s[0])) then [x] + s
    else
      assert s == [s[0]] + s[1..];
      [s[0]] + Insert(key, x, s[1..])
  }

  /** Python's `sorted(s, key=key)`. */
  function SortBy<T>(key: T -> Key, s: seq<T>): (r: seq<T>)
    ensures multiset(r) == multiset(s)
    ensures |r| == |s|
  {
    if s == [] then []
    else
      assert s == [s[0]] + s[1..];
      Insert(key, s[0], SortBy(key, s[1..]))
  }

  lemma MultisetMembers<T>(a: seq<T>, b: seq<T>)
    requires multiset(a) == multiset(b)
    ensures forall x :: x in a <==> x in b
  {
    forall x ensures x in a <==> x in b {
      assert x in a <==> x in multiset(a);
      assert x in b <==> x in multiset(b);
    }
  }

  lemma InsertMember<T>(key: T -> Key, x: T, s: seq<T>, y: T)
    requires y in Insert(key, x, s)
    ensures y == x || y in s
  {
    assert y in multiset(Insert(key, x, s));
  }

  lemma {:induction false} InsertSorted<T>(key: T -> Key, x: T, s: seq<T>)
    requires SortedBy(key, s)
    ensures SortedBy(key, Insert(key, x, s))
  {
    hide KeyLe;
    if s != [] {
      if KeyLe(key(x), key(s[0])) {
        forall j | 0 <= j < |s| ensures KeyLe(key(x), key(s[j])) {
          if j > 0 {
            KeyTransitive(key(x), key(s[0]), key(s[j]));
          }
        }
      } else {
        KeyTotal(key(x), key(s[0]));
        var rest := s[1..];
        InsertSorted(key, x, rest);
        var r := Insert(key, x, rest);
        assert s == [s[0]] + rest;
        forall j | 0 <= j < |r| ensures KeyLe(key(s[0]), key(r[j])) {
          InsertMember(key, x, rest, r[j]);
          if r[j] != x {
            HeadLeast(key, s, r[j]);
          }
        }
      }
    }
  }

  lemma HeadLeast<T>(key: T -> Key, s: seq<T>, x: T)
    requires SortedBy(key, s) && x in s
    ensures KeyLe(key(s[0]), key(x))
  {
    hide KeyLe;
    KeyReflexive(key(s[0]));
  }

  lemma {:induction false} SortByIsSorted<T>(key: T -> Key, s: seq<T>)
    ensures SortedBy(key, SortBy(key, s))
  {
    if s != [] {
      SortByIsSorted(key, s[1..]);
      InsertSorted(key, s[0], SortBy(key, s[1..]));
    }
  }

  lemma KeyReflexive(a: Key)
    ensures KeyLe(a, a)
  {
  }

  lemma SameKeySameElement<T>(key: T -> Key, s: seq<T>, x: T, y: T)
    requires DistinctKeys(key, s) && x in s && y in s && key(x) == key(y)
    ensures x == y
  {
  }

  lemma HeadsAgree<T>(key: T -> Key, a: seq<T>, b: seq<T>)
    requires multiset(a) == multiset(b) && a != [] && b != []
    requires SortedBy(key, a) && SortedBy(key, b)
    requires DistinctKeys(key, a)
    ensures a[0] == b[0]
  {
    hide KeyLe;
    MultisetMembers(a, b);
    HeadLeast(key, a, b[0]);
    HeadLeast(key, b, a[0]);
    KeyAntisymmetric(key(a[0]), key(b[0]));
    SameKeySameElement(key, a, a[0], b[0]);
  }

  lemma TailCounts<T>(a: seq<T>, b: seq<T>)
    requires multiset(a) == multiset(b) && a != [] && b != [] && a[0] == b[0]
    ensures multiset(a[1..]) == multiset(b[1..])
  {
    assert a == [a[0]] + a[1..] && b == [b[0]] + b[1..];
    assert multiset(a[1..]) == multiset(a) - multiset{a[0]} == multiset(b[1..]);
  }

  /** Two sorted lists with distinct keys and the same elements are the same list. */
  lemma {:induction false} SortedIsUnique<T>(key: T -> Key, a: seq<T>, b: seq<T>)
    requires multiset(a) == multiset(b)
    requires SortedBy(key, a) && SortedBy(key, b)
    requires DistinctKeys(key, a)
    ensures a == b
  {
    hide KeyLe;
    assert |a| == |multiset(a)| == |multiset(b)| == |b|;
    if a != [] {
      HeadsAgree(key, a, b);
      TailCounts(a, b);
      SortedIsUnique(key, a[1..], b[1..]);
      assert a == [a[0]] + a[1..] && b == [b[0]] + b[1..];
    }
  }

  lemma {:induction false} NoRepeats<T>(s: seq<T>, x: T)
    requires forall i, j | 0 <= i < j < |s| :: s[i] != s[j]
    ensures multiset(s)[x] <= 1
  {
    if s != [] {
      var rest := s[1..];
      assert s == [s[0]] + rest;
      forall i, j | 0 <= i < j < |rest| ensures rest[i] != rest[j] {
        assert s[i + 1] != s[j + 1];
      }
      NoRepeats(rest, x);
      assert s[0] !in rest;
    }
  }

  lemma RepeatCounts<T>(s: seq<T>, i: nat, j: nat)
    requires i < j < |s| && s[i] == s[j]
    ensures multiset(s)[s[i]] >= 2
  {
    assert s == s[..j] + [s[j]] + s[j + 1..];
    assert s[..j][i] == s[i];
    assert s[i] in s[..j];
  }

  /** Distinctness of keys is a property of the elements, not of their order. */
  lemma DistinctKeysPermute<T>(key: T -> Key, a: seq<T>, b: seq<T>)
    requires multiset(a) == multiset(b)
    requires DistinctKeys(key, a)
    ensures DistinctKeys(key, b)
  {
    MultisetMembers(a, b);
    forall i, j | 0 <= i < j < |b| ensures key(b[i]) != key(b[j]) {
      if b[i] == b[j] {
        NoRepeats(a, b[i]);
        RepeatCounts(b, i, j);
        assert false;
      } else if key(b[i]) == key(b[j]) {
        SameKeySameElement(key, a, b[i], b[j]);
      }
    }
  }

  /** The canonical form: with distinct keys, sorting forgets the order of its input. */
  lemma SortByForgetsOrder<T>(key: T -> Key, a: seq<T>, b: seq<T>)
    requires multiset(a) == multiset(b)
    requires DistinctKeys(key, a)
    ensures SortBy(key, a) == SortBy(key, b)
  {
    SortByIsSorted(key, a);
    SortByIsSorted(key, b);
    DistinctKeysPermute(key, a, SortBy(key, a));
    SortedIsUnique(key, SortBy(key, a), SortBy(key, b));
  }

  /** With distinct keys the sorted list is strictly increasing. */
  lemma SortByStrict<T>(key: T -> Key, s: seq<T>)
    requires DistinctKeys(key, s)
    ensures StrictlySortedBy(key, SortBy(key, s))
  {
    SortByIsSorted(key, s);
    DistinctKeysPermute(key, s, SortBy(key, s));
  }

  function Map<T, U>(f: T -> U, s: seq<T>): (r: seq<U>)
    ensures |r| == |s| && forall i | 0 <= i < |s| :: r[i] == f(s[i])
  {
    seq(|s|, i requires 0 <= i < |s| => f(s[i]))
  }

  lemma MapCons<T, U>(f: T -> U, x: T, s: seq<T>)
    ensures Map(f, [x] + s) == [f(x)] + Map(f, s)
  {
  }

  lemma {:induction false} InsertCommutes<T, U>(key: T -> Key, f: T -> U, key': U -> Key, x: T, s: seq<T>)
    requires forall y :: key'(f(y)) == key(y)
    ensures Map(f, Insert(key, x, s)) == Insert(key', f(x), Map(f, s))
  {
    hide KeyLe, Map;
    if s == [] {
      MapCons(f, x, []);
    } else if KeyLe(key(x), key(s[0])) {
      MapCons(f, x, s);
    } else {
      InsertCommutes(key, f, key', x, s[1..]);
      MapCons(f, s[0], s[1..]);
      assert s == [s[0]] + s[1..];
      assert Map(f, s)[1..] == Map(f, s[1..]);
      MapCons(f, s[0], Insert(key, x, s[1..]));
    }
  }

  /** Sorting commutes with a function that keeps the keys. */
  lemma {:induction false} SortCommutes<T, U>(key: T -> Key, f: T -> U, key': U -> Key, s: seq<T>)
    requires forall y :: key'(f(y)) == key(y)
    ensures Map(f, SortBy(key, s)) == SortBy(key', Map(f, s))
  {
    if s != [] {
      SortCommutes(key, f, key', s[1..]);
      assert Map(f, s)[1..] == Map(f, s[1..]);
      InsertCommutes(key, f, key', s[0], SortBy(key, s[1..]));
    }
  }

  lemma MapJoin<T, U>(f: T -> U, a: seq<T>, b: seq<T>)
    ensures Map(f, a + b) == Map(f, a) + Map(f, b)
  {
  }

  /** Mapping a function over two orders of the same elements gives two orders of the same results. */
  lemma {:induction false} MapKeepsMultisets<T, U>(f: T -> U, a: seq<T>, b: seq<T>)
    requires multiset(a) == multiset(b)
    ensures multiset(Map(f, a)) == multiset(Map(f, b))
  {
    hide Map;
    if a == [] {
      assert |multiset(b)| == 0;
      assert b == [];
    } else {
      MultisetMembers(a, b);
      assert a[0] in a && a[0] in b;
      var i :| 0 <= i < |b| && b[i] == a[0];
      var c, d := b[..i], b[i + 1..];
      assert a == [a[0]] + a[1..];
      assert b == c + ([a[0]] + d);
      assert multiset(a[1..]) == multiset(a) - multiset{a[0]};
      assert multiset(c + d) == multiset(b) - multiset{a[0]};
      MapKeepsMultisets(f, a[1..], c + d);
      MapJoin(f, c, d);
      MapJoin(f, c, [a[0]] + d);
      MapCons(f, a[0], d);
      MapCons(f, a[0], a[1..]);
    }
  }

  /** The results of `f` over the elements of `s`, one after the other. */
  function FlatMap<T, U>(f: T -> seq<U>, s: seq<T>): seq<U> {
    if s == [] then [] else FlatMap(f, s[..|s| - 1]) + f(s[|s| - 1])
  }

  lemma FlatMapEmpty<T, U>(f: T -> seq<U>, s: seq<T>)
    ensures FlatMap(f, s[..0]) == []
  {
  }

  lemma FlatMapSnoc<T, U>(f: T -> seq<U>, s: seq<T>, i: nat)
    requires i < |s|
    ensures FlatMap(f, s[..i + 1]) == FlatMap(f, s[..i]) + f(s[i])
  {
    assert s[..i + 1][..i] == s[..i];
  }

  lemma FlatMapAppend<T, U>(f: T -> seq<U>, s: seq<T>, x: T)
    ensures FlatMap(f, s + [x]) == FlatMap(f, s) + f(x)
  {
    assert (s + [x])[..|s + [x]| - 1] == s;
  }

  lemma {:induction false} FlatMapPrefix<T, U>(f: T -> seq<U>, s: seq<T>, i: nat)
    requires i <= |s|
    ensures FlatMap(f, s[..i]) <= FlatMap(f, s)
    decreases |s| - i
  {
    if i < |s| {
      FlatMapSnoc(f, s, i);
      FlatMapPrefix(f, s, i + 1);
    } else {
      assert s[..i] == s;
    }
  }

  lemma {:induction false} FlatMapMember<T, U>(f: T -> seq<U>, s: seq<T>, u: U)
    ensures u in FlatMap(f, s) <==> exists x :: x in s && u in f(x)
  {
    if s != [] {
      var front, last := s[..|s| - 1], s[|s| - 1];
      assert s == front + [last];
      FlatMapMember(f, front, u);
    }
  }

  lemma {:induction false} FlatMapJoin<T, U>(f: T -> seq<U>, a: seq<T>, b: seq<T>)
    ensures FlatMap(f, a + b) == FlatMap(f, a) + FlatMap(f, b)
  {
    if b == [] {
      assert a + b == a;
    } else {
      assert (a + b)[..|a + b| - 1] == a + b[..|b| - 1];
      FlatMapJoin(f, a, b[..|b| - 1]);
    }
  }

  lemma FlatMapMiddle<T, U>(f: T -> seq<U>, c: seq<T>, x: T, d: seq<T>)
    ensures multiset(FlatMap(f, c + [x] + d)) == multiset(FlatMap(f, c + d)) + multiset(f(x))
  {
    FlatMapJoin(f, c, d);
    FlatMapJoin(f, c + [x], d);
    FlatMapSnoc(f, c + [x], |c|);
    assert (c + [x])[..|c|] == c && (c + [x])[..|c| + 1] == c + [x];
  }

  lemma MiddleCounts<T>(a: seq<T>, x: T, b: seq<T>)
    ensures multiset(a + [x] + b) == multiset(a + b) + multiset{x}
  {
  }

  lemma DropMiddle<T>(a: seq<T>, b: seq<T>, x: T, c: seq<T>, d: seq<T>)
    requires multiset(a + [x] + b) == multiset(c + [x] + d)
    ensures multiset(a + b) == multiset(c + d)
  {
    MiddleCounts(a, x, b);
    MiddleCounts(c, x, d);
    assert multiset(a + b) == multiset(a + [x] + b) - multiset{x};
  }

  /** Two orders of the same elements give two orders of the same results. */
  lemma {:induction false} FlatMapKeepsMultisets<T, U>(f: T -> seq<U>, a: seq<T>, b: seq<T>)
    requires multiset(a) == multiset(b)
    ensures multiset(FlatMap(f, a)) == multiset(FlatMap(f, b))
  {
    hide FlatMap;
    if a == [] {
      assert |multiset(b)| == 0;
      assert b == [];
    } else {
      var x, front := a[|a| - 1], a[..|a| - 1];
      assert a == front + [x] + [];
      MultisetMembers(a, b);
      assert x in a && x in b;
      var i :| 0 <= i < |b| && b[i] == x;
      var c, d := b[..i], b[i + 1..];
      assert b == c + [x] + d;
      DropMiddle(front, [], x, c, d);
      assert front + [] == front;
      FlatMapKeepsMultisets(f, front, c + d);
      FlatMapMiddle(f, front, x, []);
      FlatMapMiddle(f, c, x, d);
    }
  }

  ghost predicate LowerBound(x: string, s: set<string>) {
    forall y | y in s :: StrLe(x, y)
  }

  lemma LowerBoundUnique(x: string, y: string, s: set<string>)
    requires x in s && y in s && LowerBound(x, s) && LowerBound(y, s)
    ensures x == y
  {
    StrAntisymmetric(x, y);
  }

  lemma {:induction false} LeastExists(s: set<string>) returns (least: string)
    requires s != {}
    ensures least in s && LowerBound(least, s)
  {
    hide StrLe;
    var z :| z in s;
    StrReflexive(z);
    if s == {z} {
      least := z;
    } else {
      var x := LeastExists(s - {z});
      StrTotal(x, z);
      least := if StrLe(x, z) then x else z;
      forall y | y in s && y != z && least == z ensures StrLe(z, y) {
        StrTransitive(z, x, y);
      }
    }
  }

  /** The smallest member, so that a set has exactly one sorted listing. */
  function Least(s: set<string>): (r: string)
    requires s != {}
    ensures r in s && LowerBound(r, s)
  {
    hide StrLe;
    assert exists x :: x in s && LowerBound(x, s) by {
      var x := LeastExists(s);
    }
    assert forall x, y | x in s && LowerBound(x, s) && y in s && LowerBound(y, s) :: x == y by {
      forall x, y | x in s && LowerBound(x, s) && y in s && LowerBound(y, s) ensures x == y {
        LowerBoundUnique(x, y, s);
      }
    }
    var x :| x in s && forall y | y in s :: StrLe(x, y);
    x
  }

  /** Python's `sorted(s)` of a set of strings. */
  function SortedSet(s: set<string>): (r: seq<string>)
    ensures forall x :: x in r <==> x in s
    ensures forall i, j | 0 <= i < j < |r| :: r[i] != r[j] && StrLe(r[i], r[j])
    ensures |r| == |s|
  {
    hide StrLe;
    if s == {} then []
    else [Least(s)] + SortedSet(s - {Least(s)})
  }
}
