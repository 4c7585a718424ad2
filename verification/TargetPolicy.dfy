/** The deny-by-default policy for outbound probes: CIDR blocks, special ranges and the allowlist. */
module TargetPolicy {
  import opened Wrappers

  function Pow2(n: nat): (r: nat)
    ensures r >= 1
  {
    if n == 0 then 1 else 2 * Pow2(n - 1)
  }

  lemma {:induction false} Pow2Add(m: nat, n: nat)
    ensures Pow2(m + n) == Pow2(m) * Pow2(n)
  {
    if m > 0 {
      Pow2Add(m - 1, n);
    }
  }

  datatype Family = V4 | V6

  function Width(f: Family): nat {
    if f == V4 then 32 else 128
  }

  datatype Address = Address(family: Family, value: nat)

  /** A network as `ip_network` builds it: its base is a multiple of its size. */
  datatype Block = Block(family: Family, base: nat, prefixlen: nat)
  {
    ghost predicate Valid() {
      prefixlen <= Width(family) && base % Size() == 0 && base + Size() <= Pow2(Width(family))
    }

    function Size(): (r: nat)
      ensures r >= 1
    {
      if prefixlen <= Width(family) then Pow2(Width(family) - prefixlen) else 1
    }

    /** `address in network`: the masked address is the base. */
    predicate Contains(a: Address) {
      a.family == family && a.value / Size() * Size() == base
    }

    /** `subnet_of`. */
    predicate SubnetOf(other: Block) {
      family == other.family && other.base <= base && base + Size() - 1 <= other.base + other.Size() - 1
    }
  }

  lemma Scaled(a: int, b: int, s: int)
    requires a <= b && s >= 0
    ensures a * s <= b * s
  {
  }

  lemma MaskBounds(v: nat, s: nat)
    requires s >= 1
    ensures v / s * s <= v < v / s * s + s
    ensures v % s == 0 ==> v / s * s == v
  {
  }

  lemma Successor(q: int, s: int)
    ensures (q + 1) * s == q * s + s
  {
  }

  lemma QuotientIsUnique(v: nat, q: nat, s: nat)
    requires s >= 1 && q * s <= v < q * s + s
    ensures v / s == q
  {
    var p := v / s;
    MaskBounds(v, s);
    Successor(p, s);
    Successor(q, s);
    if p < q {
      Scaled(p + 1, q, s);
    } else if q < p {
      Scaled(q + 1, p, s);
    }
  }

  lemma ContainsIsInterval(b: Block, a: Address)
    requires b.Valid()
    ensures b.Contains(a) <==> a.family == b.family && b.base <= a.value < b.base + b.Size()
  {
    hide Block.Size, Pow2, Width;
    var s := b.Size();
    MaskBounds(a.value, s);
    MaskBounds(b.base, s);
    if b.base <= a.value < b.base + s {
      QuotientIsUnique(a.value, b.base / s, s);
    }
  }

  /** CIDR blocks nest or are disjoint (section 3.1 of RFC 4632): among two that share an address, the
      one with the longer prefix is inside the other. */
  lemma BlocksNest(b: Block, c: Block, a: Address)
    requires b.Valid() && c.Valid() && b.Contains(a) && c.Contains(a)
    ensures b.prefixlen >= c.prefixlen <==> b.SubnetOf(c)
  {
    hide Pow2;
    ContainsIsInterval(b, a);
    ContainsIsInterval(c, a);
    if b.prefixlen >= c.prefixlen {
      LongerIsInside(b, c, a);
    } else {
      LongerIsInside(c, b, a);
      SizesDiffer(b, c);
    }
  }

  lemma SizeFactor(b: Block, c: Block) returns (k: nat)
    requires b.Valid() && c.Valid() && b.family == c.family && b.prefixlen >= c.prefixlen
    ensures k >= 1 && c.Size() == k * b.Size() && (b.prefixlen > c.prefixlen ==> k >= 2)
  {
    k := Pow2(b.prefixlen - c.prefixlen);
    Pow2Add(b.prefixlen - c.prefixlen, Width(b.family) - b.prefixlen);
  }

  lemma SizesDiffer(b: Block, c: Block)
    requires b.Valid() && c.Valid() && b.family == c.family && b.prefixlen < c.prefixlen
    ensures c.Size() < b.Size()
  {
    var k := SizeFactor(c, b);
    Scaled(2, k, c.Size());
  }

  lemma LongerIsInside(b: Block, c: Block, a: Address)
    requires b.Valid() && c.Valid() && b.Contains(a) && c.Contains(a) && b.prefixlen >= c.prefixlen
    ensures b.SubnetOf(c)
  {
    hide Pow2, Width, Block.Size;
    var k := SizeFactor(b, c);
    var s := b.Size();
    MaskBounds(a.value, s);
    MaskBounds(a.value, k * s);
    Inside(a.value, s, k, a.value / s, a.value / (k * s));
  }

  /** A block of size `s` around `v` lies inside the block of size `k * s` around `v`. */
  lemma Inside(v: nat, s: nat, k: nat, q: nat, t: nat)
    requires s >= 1 && k >= 1 && q * s <= v < q * s + s && t * (k * s) <= v < t * (k * s) + k * s
    ensures t * (k * s) <= q * s && q * s + s <= t * (k * s) + k * s
  {
    Regroup(t, k, s);
    Successor(q, s);
    if q < t * k {
      Scaled(q + 1, t * k, s);
    } else {
      Scaled(t * k, q, s);
    }
    if q >= t * k + k {
      Scaled(t * k + k, q, s);
    } else {
      Scaled(q + 1, t * k + k, s);
    }
  }

  lemma Regroup(t: nat, k: nat, s: nat)
    ensures t * (k * s) == (t * k) * s && (t * k + k) * s == (t * k) * s + k * s
  {
  }

  // The special-purpose ranges.

  function Quad(a: nat, b: nat, c: nat, d: nat): nat {
    ((a * 256 + b) * 256 + c) * 256 + d
  }

  function V4Ranges(): seq<Block> {
    [Block(V4, Quad(0, 0, 0, 0), 8), Block(V4, Quad(10, 0, 0, 0), 8), Block(V4, Quad(100, 64, 0, 0), 10),
     Block(V4, Quad(127, 0, 0, 0), 8), Block(V4, Quad(169, 254, 0, 0), 16), Block(V4, Quad(172, 16, 0, 0), 12),
     Block(V4, Quad(192, 0, 0, 0), 24), Block(V4, Quad(192, 0, 2, 0), 24), Block(V4, Quad(192, 168, 0, 0), 16),
     Block(V4, Quad(198, 18, 0, 0), 15), Block(V4, Quad(198, 51, 100, 0), 24), Block(V4, Quad(203, 0, 113, 0), 24),
     Block(V4, Quad(224, 0, 0, 0), 4), Block(V4, Quad(240, 0, 0, 0), 4)]
  }

  function V6Ranges(): seq<Block> {
    [Block(V6, 0, 128), Block(V6, 1, 128), Block(V6, 0xffff_0000_0000, 96),
     Block(V6, 0x64_ff9b_0000_0000_0000_0000_0000_0000, 96), Block(V6, 0x100_0000_0000_0000_0000_0000_0000_0000, 64),
     Block(V6, 0x2001_0000_0000_0000_0000_0000_0000_0000, 32), Block(V6, 0x2001_0db8_0000_0000_0000_0000_0000_0000, 32),
     Block(V6, 0xfc00_0000_0000_0000_0000_0000_0000_0000, 7), Block(V6, 0xfe80_0000_0000_0000_0000_0000_0000_0000, 10),
     Block(V6, 0xff00_0000_0000_0000_0000_0000_0000_0000, 8)]
  }

  function Ranges(): seq<Block> {
    V4Ranges() + V6Ranges()
  }

  lemma SmallSizes()
    ensures Pow2(0) == 1 && Pow2(8) == 0x100 && Pow2(16) == 0x1_0000 && Pow2(17) == 0x2_0000 && Pow2(20) == 0x10_0000
    ensures Pow2(22) == 0x40_0000 && Pow2(24) == 0x100_0000 && Pow2(25) == 0x200_0000 && Pow2(28) == 0x1000_0000
    ensures Pow2(32) == 0x1_0000_0000
  {
    assert Pow2(2) == 4 && Pow2(4) == 16;
    Pow2Add(4, 4);
    Pow2Add(8, 8);
    Pow2Add(16, 1);
    Pow2Add(16, 4);
    Pow2Add(20, 2);
    Pow2Add(16, 8);
    Pow2Add(24, 1);
    Pow2Add(24, 4);
    Pow2Add(16, 16);
  }

  lemma LargeSizes()
    ensures Pow2(64) == 0x1_0000_0000_0000_0000 && Pow2(96) == 0x1_0000_0000_0000_0000_0000_0000
    ensures Pow2(118) == 0x40_0000_0000_0000_0000_0000_0000_0000
    ensures Pow2(120) == 0x100_0000_0000_0000_0000_0000_0000_0000
    ensures Pow2(121) == 0x200_0000_0000_0000_0000_0000_0000_0000
    ensures Pow2(128) == 0x1_0000_0000_0000_0000_0000_0000_0000_0000
  {
    hide Pow2;
    SmallSizes();
    Pow2Add(32, 32);
    Pow2Add(64, 32);
    Pow2Add(96, 22);
    Pow2Add(96, 24);
    Pow2Add(96, 25);
    Pow2Add(96, 32);
  }

  lemma FitsIn(b: Block, size: nat, top: nat)
    requires b.prefixlen <= Width(b.family) && Pow2(Width(b.family) - b.prefixlen) == size && Pow2(Width(b.family)) == top
    requires b.base % size == 0 && b.base + size <= top
    ensures b.Valid() && b.Size() == size
  {
  }

  /** Blocks of one family, each below the next. */
  ghost predicate IsLadder(s: seq<Block>, f: Family) {
    && (forall i | 0 <= i < |s| :: s[i].Valid() && s[i].family == f)
    && (forall i | 0 <= i < |s| - 1 :: s[i].base + s[i].Size() <= s[i + 1].base)
  }

  lemma V4RangesFit()
    ensures IsLadder(V4Ranges(), V4)
  {
    hide Pow2, Block.Valid, Block.Size;
    SmallSizes();
    FitsIn(V4Ranges()[0], 0x100_0000, 0x1_0000_0000);
    FitsIn(V4Ranges()[1], 0x100_0000, 0x1_0000_0000);
    FitsIn(V4Ranges()[2], 0x40_0000, 0x1_0000_0000);
    FitsIn(V4Ranges()[3], 0x100_0000, 0x1_0000_0000);
    FitsIn(V4Ranges()[4], 0x1_0000, 0x1_0000_0000);
    FitsIn(V4Ranges()[5], 0x10_0000, 0x1_0000_0000);
    FitsIn(V4Ranges()[6], 0x100, 0x1_0000_0000);
    FitsIn(V4Ranges()[7], 0x100, 0x1_0000_0000);
    FitsIn(V4Ranges()[8], 0x1_0000, 0x1_0000_0000);
    FitsIn(V4Ranges()[9], 0x2_0000, 0x1_0000_0000);
    FitsIn(V4Ranges()[10], 0x100, 0x1_0000_0000);
    FitsIn(V4Ranges()[11], 0x100, 0x1_0000_0000);
    FitsIn(V4Ranges()[12], 0x1000_0000, 0x1_0000_0000);
    FitsIn(V4Ranges()[13], 0x1000_0000, 0x1_0000_0000);
  }

  function V6Sizes(): seq<nat> {
    [1, 1, 0x1_0000_0000, 0x1_0000_0000, 0x1_0000_0000_0000_0000, 0x1_0000_0000_0000_0000_0000_0000,
     0x1_0000_0000_0000_0000_0000_0000, 0x200_0000_0000_0000_0000_0000_0000_0000,
     0x40_0000_0000_0000_0000_0000_0000_0000, 0x100_0000_0000_0000_0000_0000_0000_0000]
  }

  lemma V6LowFit()
    ensures forall i | 0 <= i < 5 :: V6Ranges()[i].Valid() && V6Ranges()[i].Size() == V6Sizes()[i]
  {
    hide Pow2, Block.Valid, Block.Size;
    SmallSizes();
    LargeSizes();
    var top := 0x1_0000_0000_0000_0000_0000_0000_0000_0000;
    FitsIn(V6Ranges()[0], 1, top);
    FitsIn(V6Ranges()[1], 1, top);
    FitsIn(V6Ranges()[2], 0x1_0000_0000, top);
    FitsIn(V6Ranges()[3], 0x1_0000_0000, top);
    FitsIn(V6Ranges()[4], 0x1_0000_0000_0000_0000, top);
  }

  lemma V6HighFit()
    ensures forall i | 5 <= i < 10 :: V6Ranges()[i].Valid() && V6Ranges()[i].Size() == V6Sizes()[i]
  {
    hide Pow2, Block.Valid, Block.Size;
    SmallSizes();
    LargeSizes();
    var top := 0x1_0000_0000_0000_0000_0000_0000_0000_0000;
    FitsIn(V6Ranges()[5], 0x1_0000_0000_0000_0000_0000_0000, top);
    FitsIn(V6Ranges()[6], 0x1_0000_0000_0000_0000_0000_0000, top);
    FitsIn(V6Ranges()[7], 0x200_0000_0000_0000_0000_0000_0000_0000, top);
    FitsIn(V6Ranges()[8], 0x40_0000_0000_0000_0000_0000_0000_0000, top);
    FitsIn(V6Ranges()[9], 0x100_0000_0000_0000_0000_0000_0000_0000, top);
  }

  lemma V6RangesFit()
    ensures IsLadder(V6Ranges(), V6)
  {
    hide Pow2, Block.Valid, Block.Size;
    V6LowFit();
    V6HighFit();
  }

  lemma {:induction false} LaterIsAbove(s: seq<Block>, f: Family, i: nat, j: nat)
    requires IsLadder(s, f) && i < j < |s|
    ensures s[i].base + s[i].Size() <= s[j].base
    decreases j
  {
    hide Block.Size, Block.Valid;
    if i + 1 < j {
      LaterIsAbove(s, f, i, j - 1);
      assert s[j - 1].base + s[j - 1].Size() <= s[j - 1 + 1].base;
    }
  }

  lemma LadderIsDisjoint(s: seq<Block>, f: Family, b: Block, c: Block, a: Address)
    requires IsLadder(s, f) && b in s && c in s && b.Contains(a) && c.Contains(a)
    ensures b == c
  {
    hide Block.Valid, Block.Size, Block.Contains;
    ContainsIsInterval(b, a);
    ContainsIsInterval(c, a);
    var i :| 0 <= i < |s| && s[i] == b;
    var j :| 0 <= j < |s| && s[j] == c;
    if i < j {
      LaterIsAbove(s, f, i, j);
    } else if j < i {
      LaterIsAbove(s, f, j, i);
    }
  }

  lemma RangesAreBlocks()
    ensures forall r | r in Ranges() :: r.Valid()
    ensures forall r | r in Ranges() :: r in if r.family == V4 then V4Ranges() else V6Ranges()
  {
    hide Block.Valid, V4Ranges, V6Ranges, Block.Size;
    V4RangesFit();
    V6RangesFit();
  }

  /** No address is in two listed ranges. */
  lemma RangesAreDisjoint(r: Block, s: Block, a: Address)
    requires r in Ranges() && s in Ranges() && r.Contains(a) && s.Contains(a)
    ensures r == s
  {
    hide Block.Valid, Block.Size, V4Ranges, V6Ranges, Ranges, IsLadder;
    RangesAreBlocks();
    V4RangesFit();
    V6RangesFit();
    LadderIsDisjoint(if a.family == V4 then V4Ranges() else V6Ranges(), a.family, r, s, a);
  }

  // The policy.

  datatype Denial = AllowlistEmpty | NotAllowlisted | PortNotAllowed | SchemeNotAllowed | SpecialPurposeAddress | UnresolvableAddress

  /** The networks are those `ip_network` builds, the special registry is that of the runtime. */
  datatype Policy = Policy(allowed: seq<Block>, ports: seq<int>, schemes: set<string>, lower: string -> string,
                           isSpecial: Address -> bool)
  {
    ghost predicate Valid() {
      forall n | n in allowed :: n.Valid()
    }
  }

  /** `_special_purpose_range`: the first listed range that contains the address. */
  function SpecialRange(ranges: seq<Block>, a: Address): (r: Option<Block>)
    ensures r.Some? ==> r.value in ranges && r.value.Contains(a)
    ensures r == None ==> forall s | s in ranges :: !s.Contains(a)
  {
    if ranges == [] then None
    else if ranges[0].Contains(a) then Some(ranges[0])
    else
      assert ranges == [ranges[0]] + ranges[1..];
      SpecialRange(ranges[1..], a)
  }

  predicate NamesHost(n: Block, a: Address) {
    n.prefixlen == Width(n.family) && n.family == a.family && n.base == a.value
  }

  /** `check_address`, over a list of special ranges. */
  function CheckAddressIn(ranges: seq<Block>, p: Policy, a: Address): Option<Denial> {
    var special := SpecialRange(ranges, a);
    if p.allowed == [] then Some(AllowlistEmpty)
    else if forall n | n in p.allowed :: !n.Contains(a) then Some(NotAllowlisted)
    else if special == None && !p.isSpecial(a) then None
    else if special.Some? && exists n | n in p.allowed && n.Contains(a) ::
                               n.prefixlen >= special.value.prefixlen && n.SubnetOf(special.value) then None
    else if special == None && exists n | n in p.allowed && n.Contains(a) :: NamesHost(n, a) then None
    else Some(SpecialPurposeAddress)
  }

  function CheckAddress(p: Policy, a: Address): Option<Denial> {
    CheckAddressIn(Ranges(), p, a)
  }

  lemma ListedDecision(ranges: seq<Block>, p: Policy, a: Address, r: Block)
    requires SpecialRange(ranges, a) == Some(r)
    ensures CheckAddressIn(ranges, p, a) == None <==>
            exists n :: n in p.allowed && n.Contains(a) && n.prefixlen >= r.prefixlen && n.SubnetOf(r)
  {
    hide Block.Contains, Block.SubnetOf, SpecialRange;
    if p.allowed != [] {
      assert p.allowed[0] in p.allowed;
    }
  }

  lemma EntryNests(n: Block, r: Block, a: Address)
    requires n.Valid() && n.Contains(a) && r in Ranges() && r.Contains(a)
    ensures n.prefixlen >= r.prefixlen <==> n.SubnetOf(r)
  {
    hide *;
    RangesAreBlocks();
    BlocksNest(n, r, a);
  }

  lemma EntriesNest(p: Policy, a: Address, r: Block)
    requires p.Valid() && r in Ranges() && r.Contains(a)
    ensures forall n | n in p.allowed && n.Contains(a) :: n.prefixlen >= r.prefixlen <==> n.SubnetOf(r)
  {
    hide Block.Contains, Block.SubnetOf, Block.Valid, Block.Size, Ranges;
    forall n | n in p.allowed && n.Contains(a) ensures n.prefixlen >= r.prefixlen <==> n.SubnetOf(r) {
      EntryNests(n, r, a);
    }
  }

  lemma RangeIsFound(r: Block, a: Address)
    requires r in Ranges() && r.Contains(a)
    ensures SpecialRange(Ranges(), a) == Some(r)
  {
    hide Block.Contains, Ranges;
    RangesAreDisjoint(r, SpecialRange(Ranges(), a).value, a);
  }

  /** An address in a listed special range is permitted exactly when some allow entry that contains it
      lies inside that range; a longer prefix and lying inside are the same thing. */
  lemma SpecialPermittedIff(p: Policy, a: Address, r: Block)
    requires p.Valid() && r in Ranges() && r.Contains(a)
    ensures CheckAddress(p, a) == None <==> exists n :: n in p.allowed && n.Contains(a) && n.SubnetOf(r)
    ensures CheckAddress(p, a) == None <==> exists n :: n in p.allowed && n.Contains(a) && n.prefixlen >= r.prefixlen
  {
    hide Block.Contains, Block.SubnetOf, Ranges, CheckAddressIn, SpecialRange, Policy.Valid;
    RangeIsFound(r, a);
    ListedDecision(Ranges(), p, a, r);
    EntriesNest(p, a, r);
  }

  /** An entry wider than the range never unlocks it, alone or with others like it. */
  lemma WiderNeverUnlocks(p: Policy, a: Address, r: Block)
    requires p.Valid() && r in Ranges() && r.Contains(a)
    requires forall n | n in p.allowed && n.Contains(a) :: n.prefixlen < r.prefixlen
    ensures CheckAddress(p, a).Some?
  {
    hide Ranges, CheckAddress, Block.Contains, Policy.Valid;
    SpecialPermittedIff(p, a, r);
  }

  /** An address that only the runtime's registry calls special needs an entry for that very host. */
  lemma UnlistedPermittedIff(p: Policy, a: Address)
    requires p.Valid() && forall r | r in Ranges() :: !r.Contains(a)
    ensures CheckAddress(p, a) == None <==>
            if p.isSpecial(a) then exists n :: n in p.allowed && NamesHost(n, a) else exists n :: n in p.allowed && n.Contains(a)
  {
    hide Block.Valid, Ranges, Block.Contains;
    assert SpecialRange(Ranges(), a) == None;
    if p.allowed != [] {
      assert p.allowed[0] in p.allowed;
    }
    forall n | NamesHost(n, a) ensures n.Contains(a) {
      HostContainsItself(n, a);
    }
  }

  lemma HostContainsItself(n: Block, a: Address)
    requires NamesHost(n, a)
    ensures n.Contains(a)
  {
    assert n.Size() == 1;
  }

  /** Neither the order of the entries nor that of the listed ranges matters, for the decision or its reason. */
  lemma OrderIsIrrelevant(p: Policy, p': Policy, ranges: seq<Block>, a: Address)
    requires forall n :: n in p.allowed <==> n in p'.allowed
    requires p.isSpecial == p'.isSpecial && forall r :: r in ranges <==> r in Ranges()
    ensures CheckAddressIn(ranges, p', a) == CheckAddress(p, a)
  {
    hide Block.Contains, Block.SubnetOf, Ranges;
    var special, special' := SpecialRange(Ranges(), a), SpecialRange(ranges, a);
    if special.Some? && special'.Some? {
      RangesAreDisjoint(special.value, special'.value, a);
    }
    assert special == special';
    assert p.allowed == [] <==> p'.allowed == [] by {
      if p.allowed != [] {
        assert p.allowed[0] in p'.allowed;
      }
      if p'.allowed != [] {
        assert p'.allowed[0] in p.allowed;
      }
    }
  }

  // A whole target.

  function FirstDenial(p: Policy, addresses: seq<Address>): (r: Option<Denial>)
    ensures r == None <==> forall a | a in addresses :: CheckAddress(p, a) == None
  {
    hide CheckAddress;
    if addresses == [] then None
    else
      assert addresses == [addresses[0]] + addresses[1..];
      if CheckAddress(p, addresses[0]).Some? then CheckAddress(p, addresses[0]) else FirstDenial(p, addresses[1..])
  }

  /** `check_target`. */
  function CheckTarget(p: Policy, scheme: string, port: int, addresses: seq<Address>): Option<Denial> {
    if p.lower(scheme) !in p.schemes then Some(SchemeNotAllowed)
    else if port !in p.ports then Some(PortNotAllowed)
    else if p.allowed == [] then Some(AllowlistEmpty)
    else if addresses == [] then Some(UnresolvableAddress)
    else FirstDenial(p, addresses)
  }

  predicate Before(a: Address, b: Address) {
    if a.family == b.family then a.value <= b.value else a.family == V4
  }

  /** `pin_address`: the least address, IPv4 before IPv6. */
  function Pin(addresses: seq<Address>): (r: Option<Address>)
    ensures r == None <==> addresses == []
    ensures r.Some? ==> r.value in addresses && forall a | a in addresses :: Before(r.value, a)
  {
    if addresses == [] then None
    else
      assert addresses == [addresses[0]] + addresses[1..];
      var rest := Pin(addresses[1..]);
      if rest == None || Before(addresses[0], rest.value) then Some(addresses[0]) else rest
  }

  /** A target is permitted only when every address is, so the pinned one is; which one is pinned
      depends on the set of addresses alone. */
  lemma PinnedIsPermitted(p: Policy, scheme: string, port: int, addresses: seq<Address>, again: seq<Address>)
    requires CheckTarget(p, scheme, port, addresses) == None && forall a :: a in addresses <==> a in again
    ensures forall a | a in addresses :: CheckAddress(p, a) == None
    ensures Pin(addresses).Some? && CheckAddress(p, Pin(addresses).value) == None && Pin(again) == Pin(addresses)
    ensures CheckTarget(p, scheme, port, again) == None
  {
    hide CheckAddress;
    assert addresses[0] in again;
  }
}
