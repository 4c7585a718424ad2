/** JSON Pointers (RFC 6901): escaping, joining and decoding. */
module Pointers {

  /** `value.replace(c, with)` for one character. */
  function Replace(value: string, c: char, with: string): string {
    if value == [] then []
    else (if value[0] == c then with else [value[0]]) + Replace(value[1..], c, with)
  }

  /** `_pointer_segment`. */
  function Segment(value: string): string {
    Replace(Replace(value, '~', "~0"), '/', "~1")
  }

  /** The pointer of a list of keys, built the way the walk extends its path. */
  function Pointer(keys: seq<string>): string {
    if keys == [] then ""
    else Pointer(keys[..|keys| - 1]) + "/" + Segment(keys[|keys| - 1])
  }

  /** Replaces every `~d` with one character, left to right. */
  function Restore(value: string, d: char, with: char): string {
    if |value| < 2 then value
    else if value[0] == '~' && value[1] == d then [with] + Restore(value[2..], d, with)
    else [value[0]] + Restore(value[1..], d, with)
  }

  /** Section 4 of RFC 6901: first `~1` becomes `/`, then `~0` becomes `~`. */
  function Unescape(segment: string): string {
    Restore(Restore(segment, '1', '/'), '0', '~')
  }

  function LastSlash(pointer: string): (i: nat)
    requires '/' in pointer
    ensures i < |pointer| && pointer[i] == '/' && '/' !in pointer[i + 1..]
  {
    var n := |pointer| - 1;
    if pointer[n] == '/' then n
    else
      assert pointer == pointer[..n] + [pointer[n]];
      var i := LastSlash(pointer[..n]);
      assert pointer[i + 1..] == pointer[..n][i + 1..] + [pointer[n]];
      i
  }

  /** Section 3 of RFC 6901: the keys a pointer names. */
  function Keys(pointer: string): seq<string> {
    if '/' !in pointer then []
    else
      var i := LastSlash(pointer);
      Keys(pointer[..i]) + [Unescape(pointer[i + 1..])]
  }

  lemma {:induction false} SegmentHasNoSlash(value: string)
    ensures '/' !in Segment(value)
  {
    if value != [] {
      SegmentHasNoSlash(value[1..]);
      SegmentSteps(value);
    }
  }

  function Escaped(c: char): string {
    if c == '~' then "~0" else if c == '/' then "~1" else [c]
  }

  lemma SegmentSteps(value: string)
    requires value != []
    ensures Segment(value) == Escaped(value[0]) + Segment(value[1..])
  {
    var rest := Replace(value[1..], '~', "~0");
    if value[0] == '~' {
      var escaped := "~0" + rest;
      assert escaped[1..] == "0" + rest;
      assert escaped[1..][1..] == rest;
      assert Replace(escaped[1..], '/', "~1") == "0" + Replace(rest, '/', "~1");
      assert Replace(escaped, '/', "~1") == "~" + ("0" + Replace(rest, '/', "~1"));
    } else {
      assert ([value[0]] + rest)[1..] == rest;
    }
  }

  lemma RestoreSkips(c: char, rest: string, d: char, with: char)
    requires c != '~'
    ensures Restore([c] + rest, d, with) == [c] + Restore(rest, d, with)
  {
    assert ([c] + rest)[1..] == rest;
    if rest == [] {
      assert [c] + rest == [c];
    }
  }

  lemma RestoreTakes(rest: string, d: char, with: char)
    ensures Restore(['~', d] + rest, d, with) == [with] + Restore(rest, d, with)
  {
    assert (['~', d] + rest)[2..] == rest;
  }

  lemma RestoreKeepsTilde(rest: string)
    ensures Restore("~0" + rest, '1', '/') == "~0" + Restore(rest, '1', '/')
  {
    assert ("~0" + rest)[1..] == ['0'] + rest;
    RestoreSkips('0', rest, '1', '/');
    assert Restore("~0" + rest, '1', '/') == ['~'] + (['0'] + Restore(rest, '1', '/'));
  }

  /** Undoing the outer replacement leaves the inner one. */
  lemma {:induction false} RestoreOuter(value: string)
    ensures Restore(Segment(value), '1', '/') == Replace(value, '~', "~0")
  {
    hide Restore, Segment;
    if value == [] {
      EmptySegment();
    } else {
      var rest := Segment(value[1..]);
      SegmentSteps(value);
      RestoreOuter(value[1..]);
      if value[0] == '~' {
        RestoreKeepsTilde(rest);
      } else if value[0] == '/' {
        RestoreTakes(rest, '1', '/');
      } else {
        RestoreSkips(value[0], rest, '1', '/');
      }
    }
  }

  lemma EmptySegment()
    ensures Restore(Segment(""), '1', '/') == ""
  {
  }

  lemma {:induction false} RestoreInner(value: string)
    ensures Restore(Replace(value, '~', "~0"), '0', '~') == value
  {
    if value != [] {
      var rest := Replace(value[1..], '~', "~0");
      RestoreInner(value[1..]);
      if value[0] == '~' {
        RestoreTakes(rest, '0', '~');
      } else {
        RestoreSkips(value[0], rest, '0', '~');
      }
      assert value == [value[0]] + value[1..];
    }
  }

  lemma EscapingIsUndone(value: string)
    ensures Unescape(Segment(value)) == value
  {
    RestoreOuter(value);
    RestoreInner(value);
  }

  lemma KeysOfJoin(head: string, tail: string)
    requires '/' !in tail
    ensures Keys(head + "/" + tail) == Keys(head) + [Unescape(tail)]
  {
    hide Unescape;
    var p := head + "/" + tail;
    assert p[|head|] == '/' && p[|head| + 1..] == tail && p[..|head|] == head;
    LastSlashIs(p, |head|);
  }

  /** Decoding a pointer gives back its keys, so distinct key lists have distinct pointers. */
  lemma {:induction false} PointerRoundTrip(keys: seq<string>)
    ensures Keys(Pointer(keys)) == keys
  {
    hide Keys, Segment, Unescape;
    if keys == [] {
      NoKeys();
    } else {
      var front, last := keys[..|keys| - 1], keys[|keys| - 1];
      PointerRoundTrip(front);
      SegmentHasNoSlash(last);
      EscapingIsUndone(last);
      KeysOfJoin(Pointer(front), Segment(last));
    }
  }

  lemma NoKeys()
    ensures Keys("") == []
  {
  }

  lemma {:induction false} LastSlashIs(p: string, i: nat)
    requires i < |p| && p[i] == '/' && '/' !in p[i + 1..]
    ensures '/' in p && LastSlash(p) == i
  {
    var n := |p| - 1;
    if i < n {
      assert p[i + 1..][n - i - 1] == p[n];
      assert p[..n][i + 1..] == p[i + 1..][..n - i - 1];
      LastSlashIs(p[..n], i);
    }
  }
}
