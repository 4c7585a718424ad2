/** Sorted lists of numbers. */
module Numbers {

  ghost predicate IsLeastOf(m: int, s: set<int>) {
    m in s && forall x | x in s :: m <= x
  }

  lemma Pick<T>(s: set<T>) returns (x: T)
    requires s != {}
    ensures x in s
  {
    x :| x in s;
  }

  lemma {:induction false} LeastNumber(s: set<int>, z: int) returns (m: int)
    requires z in s
    ensures IsLeastOf(m, s)
    decreases s
  {
    m := z;
    var rest := s - {z};
    if rest != {} {
      var y := Pick(rest);
      var n := LeastNumber(rest, y);
      m := if n < z then n else z;
    }
    forall x | x in s ensures m <= x {
      assert x == z || x in rest;
    }
  }

  function LeastOf(s: set<int>): (m: int)
    requires s != {}
    ensures IsLeastOf(m, s)
  {
    assert exists m :: IsLeastOf(m, s) by {
      var z := Pick(s);
      var m := LeastNumber(s, z);
    }
    var m :| m in s && forall x | x in s :: m <= x;
    m
  }

  /** `sorted(s)` of a set of numbers. */
  function SortedInts(s: set<int>): (r: seq<int>)
    ensures forall x :: x in r <==> x in s
    ensures forall i, j | 0 <= i < j < |r| :: r[i] < r[j]
    ensures |r| == |s|
  {
    hide LeastOf;
    if s == {} then []
    else [LeastOf(s)] + SortedInts(s - {LeastOf(s)})
  }

  /** A strictly ascending list of exactly the numbers 1 to n is 1, 2, ..., n. */
  lemma {:induction false} AscendingRange(r: seq<int>, n: nat)
    requires forall i, j | 0 <= i < j < |r| :: r[i] < r[j]
    requires forall x :: x in r <==> 1 <= x <= n
    ensures |r| == n && forall i | 0 <= i < n :: r[i] == i + 1
  {
    if r == [] {
      assert n in r <==> 1 <= n;
    } else {
      assert r[0] in r;
      assert n in r;
      var front, last := r[..|r| - 1], r[|r| - 1];
      assert last in r && last == n;
      forall x ensures x in front <==> 1 <= x <= n - 1 {
        if 1 <= x <= n - 1 {
          assert x in r;
          var i :| 0 <= i < |r| && r[i] == x;
          assert front[i] == x;
        }
        if x in front {
          var i :| 0 <= i < |front| && front[i] == x;
          assert r[i] in r && r[i] < last;
        }
      }
      AscendingRange(front, n - 1);
    }
  }

  /** `set(range(1, n + 1))`. */
  function UpTo(n: int): (r: set<int>)
    ensures forall x :: x in r <==> 1 <= x <= n
  {
    if n < 1 then {} else UpTo(n - 1) + {n}
  }
}
