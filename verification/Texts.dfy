/** Text operations of the interface contract: trimming, case folding, slugs and fresh identifiers. */
module Texts {

  /** `str.isspace` of one character. */
  predicate IsSpace(c: char) {
    var n := c as int;
    9 <= n <= 13 || 28 <= n <= 32 || n == 133 || n == 160 || n == 5760 || 8192 <= n <= 8202
    || n == 8232 || n == 8233 || n == 8239 || n == 8287 || n == 12288
  }

  function TrimLeft(s: string, drop: char -> bool): (r: string)
    ensures r == [] || !drop(r[0])
    ensures forall c | c in r :: c in s
  {
    if s != [] && drop(s[0]) then TrimLeft(s[1..], drop) else s
  }

  function TrimRight(s: string, drop: char -> bool): (r: string)
    ensures r == [] || !drop(r[|r| - 1])
    ensures r <= s
  {
    if s != [] && drop(s[|s| - 1]) then TrimRight(s[..|s| - 1], drop) else s
  }

  function Trim(s: string, drop: char -> bool): (r: string)
    ensures r == [] || (!drop(r[0]) && !drop(r[|r| - 1]))
    ensures forall c | c in r :: c in s
  {
    TrimRight(TrimLeft(s, drop), drop)
  }

  lemma TrimAgain(s: string, drop: char -> bool)
    ensures Trim(Trim(s, drop), drop) == Trim(s, drop)
  {
  }

  /** `str.strip()`. */
  function Strip(s: string): string {
    Trim(s, c => IsSpace(c))
  }

  predicate IsBlank(s: string) {
    Strip(s) == ""
  }

  lemma StripAgain(s: string)
    ensures Strip(Strip(s)) == Strip(s)
  {
    TrimAgain(s, c => IsSpace(c));
  }

  predicate IsAscii(s: string) {
    forall c | c in s :: c < 128 as char
  }

  function AsciiLowerChar(c: char): char {
    if 'A' <= c <= 'Z' then c - 'A' + 'a' else c
  }

  function AsciiLower(s: string): (r: string)
    ensures |r| == |s| && forall i | 0 <= i < |s| :: r[i] == AsciiLowerChar(s[i])
  {
    seq(|s|, i requires 0 <= i < |s| => AsciiLowerChar(s[i]))
  }

  predicate Contains(s: string, part: string) {
    exists i | 0 <= i <= |s| :: part <= s[i..]
  }

  // Decimal numerals.

  function Digit(n: nat): char
    requires n < 10
  {
    '0' + n as char
  }

  function Decimal(n: nat): string {
    if n < 10 then [Digit(n)] else Decimal(n / 10) + [Digit(n % 10)]
  }

  function Numeral(s: string): int {
    if s == [] then 0 else 10 * Numeral(s[..|s| - 1]) + (s[|s| - 1] as int - '0' as int)
  }

  lemma {:induction false} NumeralOfDecimal(n: nat)
    ensures Numeral(Decimal(n)) == n
  {
    if n >= 10 {
      NumeralOfDecimal(n / 10);
      var d := Decimal(n / 10) + [Digit(n % 10)];
      assert d[..|d| - 1] == Decimal(n / 10);
    } else {
      assert [Digit(n)][..0] == [];
    }
  }

  lemma DecimalIsInjective(m: nat, n: nat)
    requires Decimal(m) == Decimal(n)
    ensures m == n
  {
    NumeralOfDecimal(m);
    NumeralOfDecimal(n);
  }

  lemma {:induction false} DecimalDigits(n: nat)
    ensures forall c | c in Decimal(n) :: '0' <= c <= '9'
  {
    if n >= 10 {
      DecimalDigits(n / 10);
    }
  }

  // Identifiers.

  predicate IsIdentifierHead(c: char) {
    'a' <= c <= 'z' || '0' <= c <= '9'
  }

  predicate IsIdentifierChar(c: char) {
    IsIdentifierHead(c) || c == '_' || c == '-'
  }

  /** `^[a-z0-9][a-z0-9_-]*$`. */
  predicate IsIdentifier(s: string) {
    s != [] && IsIdentifierHead(s[0]) && forall c | c in s :: IsIdentifierChar(c)
  }

  /** `re.sub(r"[^a-z0-9_-]+", "-", text)`; `after` tells whether a run is already replaced. */
  function Collapse(s: string, after: bool): (r: string)
    ensures forall c | c in r :: IsIdentifierChar(c)
  {
    if s == [] then []
    else if IsIdentifierChar(s[0]) then [s[0]] + Collapse(s[1..], false)
    else (if after then [] else "-") + Collapse(s[1..], true)
  }

  /** Identifier characters stay, a run of others becomes one dash, and runs are independent: these three laws
      fix the replacement. */
  lemma {:induction false} CollapseKeeps(s: string, after: bool)
    requires forall c | c in s :: IsIdentifierChar(c)
    ensures Collapse(s, after) == s
  {
    if s != [] {
      CollapseKeeps(s[1..], false);
      assert s == [s[0]] + s[1..];
    }
  }

  lemma {:induction false} CollapseRun(s: string, after: bool)
    requires s != [] && forall c | c in s :: !IsIdentifierChar(c)
    ensures Collapse(s, after) == if after then "" else "-"
  {
    if |s| > 1 {
      CollapseRun(s[1..], true);
    }
  }

  /** What one character contributes. */
  function Replaced(c: char, after: bool): string {
    if IsIdentifierChar(c) then [c] else if after then "" else "-"
  }

  lemma CollapseStep(s: string, after: bool)
    requires s != []
    ensures Collapse(s, after) == Replaced(s[0], after) + Collapse(s[1..], !IsIdentifierChar(s[0]))
  {
    hide IsIdentifierChar;
  }

  lemma CollapseAfter(s: string, after: bool)
    requires s != [] && (after ==> IsIdentifierChar(s[0]))
    ensures Collapse(s, after) == Collapse(s, false)
  {
    hide IsIdentifierChar;
  }

  lemma {:induction false} CollapseJoins(a: string, b: string, after: bool)
    requires a != [] && b != [] && (IsIdentifierChar(a[|a| - 1]) || IsIdentifierChar(b[0]))
    ensures Collapse(a + b, after) == Collapse(a, after) + Collapse(b, false)
  {
    hide IsIdentifierChar, Collapse, Replaced;
    var c, rest := a[0], a[1..];
    assert (a + b)[0] == c && (a + b)[1..] == rest + b;
    CollapseStep(a + b, after);
    CollapseStep(a, after);
    if rest != [] {
      CollapseJoins(rest, b, !IsIdentifierChar(c));
      assert rest[|rest| - 1] == a[|a| - 1];
    } else {
      assert rest + b == b;
      CollapseAfter(b, !IsIdentifierChar(c));
      CollapseNothing(rest, !IsIdentifierChar(c));
    }
  }

  lemma CollapseNothing(s: string, after: bool)
    requires s == []
    ensures Collapse(s, after) == []
  {
  }

  /** `_slug`, given the lower-casing of the runtime. */
  function Slug(text: string, lower: string -> string): (r: string)
    ensures r == "" || IsIdentifier(r)
  {
    var trimmed := Trim(Collapse(lower(Strip(text)), false), c => c == '-' || c == '_');
    assert trimmed != [] ==> trimmed[0] in trimmed && IsIdentifierChar(trimmed[0]);
    trimmed
  }

  // The search for a fresh identifier.

  function Candidate(base: string, k: nat): string
    requires k >= 1
  {
    if k == 1 then base else base + "-" + Decimal(k)
  }

  lemma CandidatesDiffer(base: string, j: nat, k: nat)
    requires 1 <= j && 1 <= k && Candidate(base, j) == Candidate(base, k)
    ensures j == k
  {
    if j != 1 && k != 1 {
      var n := |base| + 1;
      assert Candidate(base, j)[n..] == Decimal(j);
      assert Candidate(base, k)[n..] == Decimal(k);
      DecimalIsInjective(j, k);
    }
  }

  lemma CandidateIsIdentifier(base: string, k: nat)
    requires k >= 1 && IsIdentifier(base)
    ensures IsIdentifier(Candidate(base, k))
  {
    DecimalDigits(k);
    assert Candidate(base, k)[0] == base[0];
  }

  ghost function Tried(base: string, k: nat): set<string>
    requires k >= 1
  {
    set j: nat | 1 <= j < k :: Candidate(base, j)
  }

  /** The first candidate from the `k`-th on that is not used. */
  function FirstFree(base: string, k: nat, used: set<string>): (r: string)
    requires k >= 1
    ensures r !in used
    ensures IsIdentifier(base) ==> IsIdentifier(r)
    decreases used - Tried(base, k)
  {
    if Candidate(base, k) !in used then
      (if IsIdentifier(base) then CandidateIsIdentifier(base, k); Candidate(base, k) else Candidate(base, k))
    else
      TriedGrows(base, k, used);
      FirstFree(base, k + 1, used)
  }

  /** The loop terminates: each used candidate is a new member of the finite set of used ids. */
  lemma TriedGrows(base: string, k: nat, used: set<string>)
    requires k >= 1 && Candidate(base, k) in used
    ensures used - Tried(base, k + 1) < used - Tried(base, k)
  {
    var c := Candidate(base, k);
    assert c in Tried(base, k + 1);
    assert c !in Tried(base, k) by {
      forall j: nat | 1 <= j < k ensures Candidate(base, j) != c {
        if Candidate(base, j) == c {
          CandidatesDiffer(base, j, k);
        }
      }
    }
    assert Tried(base, k) <= Tried(base, k + 1);
  }

  /** The identifier is the base itself when that is free. */
  function FreshIdentifier(base: string, used: set<string>): (r: string)
    ensures r !in used && (base !in used ==> r == base)
    ensures IsIdentifier(base) ==> IsIdentifier(r)
  {
    FirstFree(base, 1, used)
  }

  /** The identifier is the base, or the base with the first number from 2 on that makes it free. */
  lemma {:induction false} FirstFreeIs(base: string, k: nat, used: set<string>) returns (n: nat)
    requires k >= 1
    ensures n >= k && FirstFree(base, k, used) == (if n == 1 then base else base + "-" + Decimal(n))
    ensures forall j: nat | k <= j < n :: (if j == 1 then base else base + "-" + Decimal(j)) in used
    decreases used - Tried(base, k)
  {
    hide IsIdentifier, Decimal;
    if Candidate(base, k) !in used {
      n := k;
    } else {
      TriedGrows(base, k, used);
      n := FirstFreeIs(base, k + 1, used);
    }
  }

  function UniqueIdentifier(candidate: string, used: set<string>, fallback: string, lower: string -> string): (r: string)
    ensures r !in used
    ensures IsIdentifier(fallback) ==> IsIdentifier(r)
  {
    var slug := Slug(candidate, lower);
    FreshIdentifier(if slug == "" then fallback else slug, used)
  }

  /** `_unique_identifier`, with its counter loop. */
  method FindUniqueIdentifier(candidate: string, used: set<string>, fallback: string, lower: string -> string)
    returns (identifier: string)
    ensures identifier == UniqueIdentifier(candidate, used, fallback, lower)
  {
    var slug := Slug(candidate, lower);
    var base := if slug == "" then fallback else slug;
    identifier := base;
    var counter := 2;
    while identifier in used
      invariant counter >= 2 && identifier == Candidate(base, counter - 1)
      invariant FirstFree(base, counter - 1, used) == FreshIdentifier(base, used)
      decreases used - Tried(base, counter - 1)
    {
      TriedGrows(base, counter - 1, used);
      identifier := base + "-" + Decimal(counter);
      counter := counter + 1;
    }
  }
}
