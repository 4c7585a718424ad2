/** What the orders of texts and of tuples of texts mean: the first difference decides. */
module TextOrder {
  import opened Ordering

  /** The texts are alike up to the place, where the first one ends or has the smaller character. */
  ghost predicate BelowAt(a: string, b: string, i: nat) {
    && i <= |a| && i <= |b| && a[..i] == b[..i]
    && (i == |a| || (i < |b| && a[i] < b[i]))
  }

  lemma AlikeHeads<T>(a: seq<T>, b: seq<T>, i: nat)
    requires a != [] && b != [] && i <= |a| && i <= |b| && a[..i] == b[..i]
    ensures i > 0 ==> a[0] == b[0]
  {
    if i > 0 {
      assert a[..i][0] == a[0] && b[..i][0] == b[0];
    }
  }

  /** A text is not above another exactly when it is a prefix of it or has the smaller character at the
      first difference: the order of code points. */
  lemma {:induction false} StrLeIff(a: string, b: string)
    ensures StrLe(a, b) <==> exists i: nat :: BelowAt(a, b, i)
  {
    if a == [] {
      assert BelowAt(a, b, 0);
    } else if b != [] {
      if a[0] == b[0] {
        StrLeIff(a[1..], b[1..]);
        if i: nat :| BelowAt(a[1..], b[1..], i) {
          assert a[..i + 1] == [a[0]] + a[1..][..i] && b[..i + 1] == [b[0]] + b[1..][..i];
          assert BelowAt(a, b, i + 1);
        }
        if i: nat :| BelowAt(a, b, i) {
          if i > 0 {
            assert a[1..][..i - 1] == a[..i][1..] && b[1..][..i - 1] == b[..i][1..];
            assert BelowAt(a[1..], b[1..], i - 1);
          }
        }
      } else {
        if a[0] < b[0] {
          assert BelowAt(a, b, 0);
        }
        if i: nat :| BelowAt(a, b, i) {
          AlikeHeads(a, b, i);
        }
      }
    }
  }

  /** The tuples are alike up to the place, where the first one ends or has the smaller text. */
  ghost predicate TupleBelowAt(a: Key, b: Key, i: nat) {
    && i <= |a| && i <= |b| && a[..i] == b[..i]
    && (i == |a| || (i < |b| && a[i] != b[i] && StrLe(a[i], b[i])))
  }

  /** Tuples compare by their first different text. */
  lemma {:induction false} KeyLeIff(a: Key, b: Key)
    ensures KeyLe(a, b) <==> exists i: nat :: TupleBelowAt(a, b, i)
  {
    hide StrLe;
    if a == [] {
      assert TupleBelowAt(a, b, 0);
    } else if b != [] {
      if a[0] == b[0] {
        KeyLeIff(a[1..], b[1..]);
        if i: nat :| TupleBelowAt(a[1..], b[1..], i) {
          assert a[..i + 1] == [a[0]] + a[1..][..i] && b[..i + 1] == [b[0]] + b[1..][..i];
          assert TupleBelowAt(a, b, i + 1);
        }
        if i: nat :| TupleBelowAt(a, b, i) {
          if i > 0 {
            assert a[1..][..i - 1] == a[..i][1..] && b[1..][..i - 1] == b[..i][1..];
            assert TupleBelowAt(a[1..], b[1..], i - 1);
          }
        }
      } else {
        if StrLe(a[0], b[0]) {
          assert TupleBelowAt(a, b, 0);
        }
        if i: nat :| TupleBelowAt(a, b, i) {
          AlikeHeads(a, b, i);
        }
      }
    }
  }
}
