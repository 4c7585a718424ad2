/** What a permitted target and each denial stand for, over address intervals. */
module TargetRules {
  import opened Wrappers
  import opened TargetPolicy

  predicate Covers(n: Block, a: Address) {
    a.family == n.family && n.base <= a.value < n.base + n.Size()
  }

  ghost predicate Within(n: Block, r: Block) {
    forall a | Covers(n, a) :: Covers(r, a)
  }

  ghost predicate Allowlisted(p: Policy, a: Address) {
    exists n :: n in p.allowed && Covers(n, a)
  }

  ghost predicate Listed(a: Address) {
    exists r :: r in Ranges() && Covers(r, a)
  }

  /** An entry opens the address if the address is ordinary, if the entry lies within the listed special
      range of the address, or if it is for the very host that only the runtime calls special. */
  ghost predicate Opens(p: Policy, n: Block, a: Address) {
    && Covers(n, a)
    && (forall r | r in Ranges() && Covers(r, a) :: Within(n, r))
    && (!Listed(a) && p.isSpecial(a) ==> n.Size() == 1)
  }

  ghost predicate Permits(p: Policy, a: Address) {
    exists n :: n in p.allowed && Opens(p, n, a)
  }

  lemma ContainsIff(n: Block, a: Address)
    requires n.Valid()
    ensures n.Contains(a) <==> Covers(n, a)
  {
    ContainsIsInterval(n, a);
  }

  lemma WithinIff(n: Block, r: Block)
    requires n.Valid() && r.Valid()
    ensures Within(n, r) <==> n.SubnetOf(r)
  {
    hide Pow2, Width;
    if Within(n, r) {
      assert Covers(n, Address(n.family, n.base));
      assert Covers(n, Address(n.family, n.base + n.Size() - 1));
    }
  }

  lemma SizeOneIff(n: Block)
    requires n.Valid()
    ensures n.Size() == 1 <==> n.prefixlen == Width(n.family)
  {
    if n.prefixlen < Width(n.family) {
      assert Pow2(Width(n.family) - n.prefixlen) == 2 * Pow2(Width(n.family) - n.prefixlen - 1);
    }
  }

  lemma OnlyRange(a: Address, r: Block, s: Block)
    requires r in Ranges() && s in Ranges() && Covers(r, a) && Covers(s, a)
    ensures r == s
  {
    hide Ranges, Covers, Block.Valid, Block.Contains;
    RangesAreBlocks();
    ContainsIff(r, a);
    ContainsIff(s, a);
    RangesAreDisjoint(r, s, a);
  }

  lemma AllowlistedIff(p: Policy, a: Address)
    requires p.Valid()
    ensures Allowlisted(p, a) <==> exists n :: n in p.allowed && n.Contains(a)
  {
    hide Covers, Block.Valid, Block.Contains;
    forall n | n in p.allowed ensures n.Contains(a) <==> Covers(n, a) {
      ContainsIff(n, a);
    }
  }

  lemma ListedPermittedIff(p: Policy, a: Address, r: Block)
    requires p.Valid() && r in Ranges() && Covers(r, a)
    ensures CheckAddress(p, a) == None <==> Permits(p, a)
  {
    hide Covers, Within, Ranges, Block.Valid, Block.Contains, Block.SubnetOf, Block.Size, CheckAddress;
    RangesAreBlocks();
    ContainsIff(r, a);
    SpecialPermittedIff(p, a, r);
    forall n | n in p.allowed ensures n.Contains(a) && n.SubnetOf(r) <==> Opens(p, n, a) {
      ContainsIff(n, a);
      WithinIff(n, r);
      forall s | s in Ranges() && Covers(s, a) ensures s == r {
        OnlyRange(a, r, s);
      }
    }
  }

  lemma NamesHostIff(n: Block, a: Address)
    requires n.Valid()
    ensures NamesHost(n, a) <==> Covers(n, a) && n.Size() == 1
  {
    hide Pow2;
    SizeOneIff(n);
  }

  lemma UnlistedIff(p: Policy, a: Address)
    requires p.Valid() && !Listed(a)
    ensures CheckAddress(p, a) == None <==> Permits(p, a)
  {
    hide Covers, Within, Ranges, Block.Valid, Block.Contains, Block.Size, NamesHost, CheckAddress;
    RangesAreBlocks();
    forall r | r in Ranges() ensures !r.Contains(a) {
      ContainsIff(r, a);
    }
    UnlistedPermittedIff(p, a);
    forall n | n in p.allowed
      ensures Opens(p, n, a) <==> if p.isSpecial(a) then NamesHost(n, a) else n.Contains(a)
    {
      ContainsIff(n, a);
      NamesHostIff(n, a);
    }
  }

  /** An address is permitted exactly when one entry opens it. */
  lemma AddressPermittedIff(p: Policy, a: Address)
    requires p.Valid()
    ensures CheckAddress(p, a) == None <==> Permits(p, a)
  {
    hide Covers, Ranges, Permits, CheckAddress, Policy.Valid;
    if r :| r in Ranges() && Covers(r, a) {
      ListedPermittedIff(p, a, r);
    } else {
      UnlistedIff(p, a);
    }
  }

  lemma AddressDeniedIff(p: Policy, a: Address)
    requires p.Valid()
    ensures CheckAddress(p, a) == Some(AllowlistEmpty) <==> p.allowed == []
    ensures CheckAddress(p, a) == Some(NotAllowlisted) <==> p.allowed != [] && !Allowlisted(p, a)
    ensures CheckAddress(p, a) == Some(SpecialPurposeAddress) <==> Allowlisted(p, a) && !Permits(p, a)
  {
    hide Allowlisted, Permits, Block.Contains, Block.SubnetOf, Ranges, NamesHost, Policy.Valid;
    AddressPermittedIff(p, a);
    AllowlistedIff(p, a);
    if p.allowed != [] {
      assert p.allowed[0] in p.allowed;
    }
  }

  // Targets.

  /** The first address, in the order given, that no entry opens. */
  ghost predicate FirstClosed(p: Policy, addresses: seq<Address>, i: nat) {
    i < |addresses| && !Permits(p, addresses[i]) && forall j | 0 <= j < i :: Permits(p, addresses[j])
  }

  lemma {:induction false} FirstDenialIs(p: Policy, addresses: seq<Address>, i: nat)
    requires p.Valid() && FirstClosed(p, addresses, i)
    ensures FirstDenial(p, addresses) == CheckAddress(p, addresses[i])
  {
    hide CheckAddress, Permits, Policy.Valid;
    AddressPermittedIff(p, addresses[0]);
    if i > 0 {
      forall j | 0 <= j < i - 1 ensures Permits(p, addresses[1..][j]) {
        assert Permits(p, addresses[j + 1]);
      }
      FirstDenialIs(p, addresses[1..], i - 1);
    }
  }

  lemma {:induction false} FirstClosedExists(p: Policy, addresses: seq<Address>) returns (i: nat)
    requires exists a :: a in addresses && !Permits(p, a)
    ensures FirstClosed(p, addresses, i)
  {
    hide Permits;
    if !Permits(p, addresses[0]) {
      i := 0;
    } else {
      assert addresses == [addresses[0]] + addresses[1..];
      i := FirstClosedExists(p, addresses[1..]);
      i := i + 1;
      forall j | 0 <= j < i ensures Permits(p, addresses[j]) {
        assert j > 0 ==> addresses[j] == addresses[1..][j - 1];
      }
    }
  }

  ghost predicate Reachable(p: Policy, scheme: string, port: int) {
    p.lower(scheme) in p.schemes && port in p.ports
  }

  /** A target is permitted exactly when its scheme and port are allowed, it resolves, and every address
      it resolves to is opened by an entry. */
  lemma TargetPermittedIff(p: Policy, scheme: string, port: int, addresses: seq<Address>)
    requires p.Valid()
    ensures CheckTarget(p, scheme, port, addresses) == None <==>
            && p.lower(scheme) in p.schemes && port in p.ports
            && addresses != [] && forall a | a in addresses :: Permits(p, a)
  {
    hide CheckAddress, Permits, Policy.Valid;
    forall a | a in addresses ensures CheckAddress(p, a) == None <==> Permits(p, a) {
      AddressPermittedIff(p, a);
    }
    if addresses != [] && p.allowed == [] {
      NobodyPermits(p, addresses[0]);
      assert addresses[0] in addresses;
    }
  }

  lemma NobodyPermits(p: Policy, a: Address)
    requires p.allowed == []
    ensures !Permits(p, a)
  {
  }

  /** The reasons, in the order they are looked for; that of an address is that of the first closed one. */
  lemma TargetDeniedIff(p: Policy, scheme: string, port: int, addresses: seq<Address>)
    requires p.Valid()
    ensures CheckTarget(p, scheme, port, addresses) == Some(SchemeNotAllowed) <==> p.lower(scheme) !in p.schemes
    ensures CheckTarget(p, scheme, port, addresses) == Some(PortNotAllowed) <==>
            p.lower(scheme) in p.schemes && port !in p.ports
    ensures CheckTarget(p, scheme, port, addresses) == Some(AllowlistEmpty) <==>
            Reachable(p, scheme, port) && p.allowed == []
    ensures CheckTarget(p, scheme, port, addresses) == Some(UnresolvableAddress) <==>
            Reachable(p, scheme, port) && p.allowed != [] && addresses == []
    ensures CheckTarget(p, scheme, port, addresses) == Some(NotAllowlisted) <==>
            Reachable(p, scheme, port) && p.allowed != []
            && exists i: nat :: FirstClosed(p, addresses, i) && !Allowlisted(p, addresses[i])
    ensures CheckTarget(p, scheme, port, addresses) == Some(SpecialPurposeAddress) <==>
            Reachable(p, scheme, port)
            && exists i: nat :: FirstClosed(p, addresses, i) && Allowlisted(p, addresses[i])
  {
    hide CheckAddress, Permits, Policy.Valid, FirstClosed, Allowlisted;
    TargetPermittedIff(p, scheme, port, addresses);
    forall i: nat | FirstClosed(p, addresses, i)
      ensures i < |addresses| && !Permits(p, addresses[i]) && addresses[i] in addresses
      ensures FirstDenial(p, addresses) == CheckAddress(p, addresses[i])
      ensures p.allowed == [] ==> !Allowlisted(p, addresses[i])
      ensures FirstDenial(p, addresses) == Some(NotAllowlisted) <==> p.allowed != [] && !Allowlisted(p, addresses[i])
      ensures FirstDenial(p, addresses) == Some(SpecialPurposeAddress) <==> Allowlisted(p, addresses[i])
      ensures p.allowed != [] ==> FirstDenial(p, addresses) in {Some(NotAllowlisted), Some(SpecialPurposeAddress)}
    {
      ClosedReason(p, addresses, i);
    }
    if exists a :: a in addresses && !Permits(p, a) {
      var i := FirstClosedExists(p, addresses);
    } else {
      forall a | a in addresses ensures CheckAddress(p, a) == None {
        AddressPermittedIff(p, a);
      }
    }
  }

  lemma ClosedReason(p: Policy, addresses: seq<Address>, i: nat)
    requires p.Valid() && FirstClosed(p, addresses, i)
    ensures i < |addresses| && !Permits(p, addresses[i]) && addresses[i] in addresses
    ensures FirstDenial(p, addresses) == CheckAddress(p, addresses[i])
    ensures p.allowed == [] ==> !Allowlisted(p, addresses[i])
    ensures FirstDenial(p, addresses) == Some(NotAllowlisted) <==> p.allowed != [] && !Allowlisted(p, addresses[i])
    ensures FirstDenial(p, addresses) == Some(SpecialPurposeAddress) <==> Allowlisted(p, addresses[i])
    ensures p.allowed != [] ==> FirstDenial(p, addresses) in {Some(NotAllowlisted), Some(SpecialPurposeAddress)}
  {
    hide CheckAddress, Permits, Covers, Policy.Valid;
    FirstDenialIs(p, addresses, i);
    AddressDeniedIff(p, addresses[i]);
    AddressPermittedIff(p, addresses[i]);
  }

  /** The pinned address is an IPv4 address if there is one, and the least of its family. */
  lemma PinnedIs(addresses: seq<Address>)
    requires addresses != []
    ensures Pin(addresses).Some? && Pin(addresses).value in addresses
    ensures Pin(addresses).value.family == V4 <==> exists a :: a in addresses && a.family == V4
    ensures forall a | a in addresses && a.family == Pin(addresses).value.family :: Pin(addresses).value.value <= a.value
  {
    hide Pin;
    var pin := Pin(addresses).value;
    if a :| a in addresses && a.family == V4 {
      assert Before(pin, a);
    }
  }
}
