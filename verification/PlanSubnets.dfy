/** Checking the address settings once, and sharing the generated blocks out among
    the render plans. */
module PlanSubnets {
  import opened Wrappers
  import opened Sequences
  import opened Subnets

  /** An address field: left out, unparsable as IPv4, or an address. */
  datatype Address = Empty | Invalid | IPv4(value: nat)

  /** A CIDR field: left out, unparsable, or a block. */
  datatype Block = NoBlock | BadBlock | IPBlock(cidr: Cidr)

  datatype Exclusion = Exclusion(start: Option<nat>, end: Option<nat>)

  datatype ManualSubnet = ManualSubnet(block: Block, exclusions: seq<Exclusion>)

  datatype NvIpam = NvIpam(perNodeBlockSize: Int, reserveFirst: Int, reserveLast: Int, startingSubnet: Address,
                           mask: Int, offset: Int, startingGateway: Int, subnets: seq<ManualSubnet>)

  /** The settings come out of the parser: addresses are words, blocks are aligned. */
  ghost predicate Parsed(nv: NvIpam) {
    && (nv.startingSubnet.IPv4? ==> nv.startingSubnet.value < WORD32)
    && forall s :: s in nv.subnets && s.block.IPBlock? ==> ValidCidr(s.block.cidr)
  }

  /** The first address of the block around `a`. */
  function BlockStart(a: nat, mask: nat): (n: nat)
    requires a < WORD32 && mask <= 32
    ensures ValidCidr(Cidr(n, mask))
  {
    BlockOfAddress(a, BlockSize(mask), mask);
    a / BlockSize(mask) * BlockSize(mask)
  }

  lemma BlockFits(a: nat, size: nat, word: nat, q: int, n: int)
    requires 0 < size && a < word && word % size == 0 && q == a / size && n == q * size
    ensures 0 <= n <= a && n % size == 0 && n + size <= word
  {
    MulDistributes(q, 0, size);
    MultipleMod(q, size);
    MultiplesApart(n, word, size);
  }

  lemma BlockOfAddress(a: nat, size: nat, mask: nat)
    requires a < WORD32 && mask <= 32 && size == BlockSize(mask)
    ensures size > 0 && a / size * size >= 0 && ValidCidr(Cidr(a / size * size, mask))
  {
    BlockSizes(mask);
    hide BlockSize;
    BlockFits(a, size, WORD32, a / size, a / size * size);
  }

  /** net.ParseCIDR of "address/mask": the block around the address. */
  function ParseCidr(a: Address, mask: Int): (c: Option<Cidr>)
    requires a.IPv4? ==> a.value < WORD32
    ensures c.Some? ==> ValidCidr(c.value) && c.value.mask == mask
    ensures c.Some? <==> a.IPv4? && 0 <= mask <= 32
  {
    if a.IPv4? && 0 <= mask <= 32 then Some(Cidr(BlockStart(a.value, mask), mask)) else None
  }

  function BlockCidr(b: Block): Option<Cidr> { if b.IPBlock? then Some(b.cidr) else None }

  predicate Contains(c: Cidr, a: nat)
    requires ValidCidr(c)
  {
    c.network <= a < c.network + BlockSize(c.mask)
  }

  predicate GoodExclusion(e: Exclusion, b: Block)
    requires b.IPBlock? ==> ValidCidr(b.cidr)
  {
    && e.start.Some? && e.end.Some? && e.start.value <= e.end.value
    && (b.IPBlock? ==> Contains(b.cidr, e.start.value) && Contains(b.cidr, e.end.value))
  }

  predicate Reserving(nv: NvIpam) { nv.reserveFirst > 0 || nv.reserveLast > 0 }

  predicate GoodSubnet(s: ManualSubnet, nv: NvIpam)
    requires s.block.IPBlock? ==> ValidCidr(s.block.cidr)
  {
    && s.block != BadBlock
    && (s.block.IPBlock? && Reserving(nv) ==> ReservedExclusions(Some(s.block.cidr), nv.reserveFirst, nv.reserveLast).Some?)
    && forall i :: 0 <= i < |s.exclusions| ==> GoodExclusion(s.exclusions[i], s.block)
  }

  /** What validation accepts. */
  ghost predicate Accepted(nv: NvIpam)
    requires Parsed(nv)
  {
    && nv.perNodeBlockSize >= 0 && nv.reserveFirst >= 0 && nv.reserveLast >= 0
    && (nv.subnets == [] && nv.startingSubnet != Empty && nv.mask > 0 && Reserving(nv) ==>
          ReservedExclusions(ParseCidr(nv.startingSubnet, nv.mask), nv.reserveFirst, nv.reserveLast).Some?)
    && forall i :: 0 <= i < |nv.subnets| ==> GoodSubnet(nv.subnets[i], nv)
  }

  /** validateNvIpam. */
  method ValidateNvIpam(nv: NvIpam) returns (ok: bool)
    requires Parsed(nv)
    ensures ok <==> Accepted(nv)
  {
    if nv.perNodeBlockSize < 0 || nv.reserveFirst < 0 || nv.reserveLast < 0 { return false; }
    if |nv.subnets| == 0 && nv.startingSubnet != Empty && nv.mask > 0 && (nv.reserveFirst > 0 || nv.reserveLast > 0) {
      var reserved := ReservedExclusions(ParseCidr(nv.startingSubnet, nv.mask), nv.reserveFirst, nv.reserveLast);
      if reserved.None? { return false; }
    }
    for i := 0 to |nv.subnets|
      invariant forall j :: 0 <= j < i ==> GoodSubnet(nv.subnets[j], nv)
    {
      var s := nv.subnets[i];
      assert s in nv.subnets;
      if s.block == BadBlock { return false; }
      if s.block.IPBlock? && (nv.reserveFirst > 0 || nv.reserveLast > 0) {
        var reserved := ReservedExclusions(Some(s.block.cidr), nv.reserveFirst, nv.reserveLast);
        if reserved.None? { return false; }
      }
      for k := 0 to |s.exclusions|
        invariant forall j :: 0 <= j < k ==> GoodExclusion(s.exclusions[j], s.block)
      {
        var e := s.exclusions[k];
        if e.start.None? || e.end.None? { return false; }
        if e.start.value > e.end.value { return false; }
        if s.block.IPBlock? && !(Contains(s.block.cidr, e.start.value) && Contains(s.block.cidr, e.end.value)) { return false; }
      }
    }
    ok := true;
  }

  /** A block of an address holds it. */
  lemma BlockAround(a: nat, mask: nat)
    requires a < WORD32 && mask <= 32
    ensures BlockStart(a, mask) <= a < BlockStart(a, mask) + BlockSize(mask)
  {
    BlockSizes(mask);
    hide BlockSize;
    QuotientBelow(a, BlockSize(mask));
  }

  lemma QuotientBelow(a: nat, size: nat)
    requires size > 0
    ensures a / size * size <= a < a / size * size + size
  {}

  /** Exactly what validation accepts, in addresses: no count is negative, reserves leave an
      address free in the generated blocks and in each manual one, and exclusions are ranges
      inside their block. In a block that is the whole address space nothing can be reserved. */
  lemma AcceptedMeans(nv: NvIpam)
    requires Parsed(nv)
    ensures Accepted(nv) <==>
            && nv.perNodeBlockSize >= 0 && nv.reserveFirst >= 0 && nv.reserveLast >= 0
            && (nv.subnets == [] && nv.startingSubnet != Empty && nv.mask > 0 && nv.reserveFirst + nv.reserveLast > 0 ==>
                  nv.startingSubnet.IPv4? && nv.mask <= 32 && nv.reserveFirst + nv.reserveLast < BlockSize(nv.mask))
            && forall i :: 0 <= i < |nv.subnets| ==> SubnetInOrder(nv.subnets[i], nv.reserveFirst, nv.reserveLast)
  {
    hide BlockSize, ReservedExclusions, GoodSubnet, SubnetInOrder;
    if nv.reserveFirst >= 0 && nv.reserveLast >= 0 {
      if nv.startingSubnet.IPv4? && 0 < nv.mask <= 32 {
        ReservedMeans(ParseCidr(nv.startingSubnet, nv.mask).value, nv.reserveFirst, nv.reserveLast);
      }
      NothingToReserveIn(nv.reserveFirst, nv.reserveLast);
      forall i | 0 <= i < |nv.subnets|
        ensures GoodSubnet(nv.subnets[i], nv) <==> SubnetInOrder(nv.subnets[i], nv.reserveFirst, nv.reserveLast)
      {
        assert nv.subnets[i] in nv.subnets;
        SubnetMeans(nv.subnets[i], nv);
      }
    }
  }

  ghost predicate SubnetInOrder(s: ManualSubnet, first: int, last: int)
    requires s.block.IPBlock? ==> ValidCidr(s.block.cidr)
  {
    && s.block != BadBlock
    && (s.block.IPBlock? && first + last > 0 ==> s.block.cidr.mask >= 1 && first + last < BlockSize(s.block.cidr.mask))
    && forall e :: e in s.exclusions ==>
       && e.start.Some? && e.end.Some? && e.start.value <= e.end.value
       && (s.block.IPBlock? ==>
             s.block.cidr.network <= e.start.value && e.end.value < s.block.cidr.network + BlockSize(s.block.cidr.mask))
  }

  lemma NothingToReserveIn(reserveFirst: Int, reserveLast: Int)
    requires reserveFirst >= 0 && reserveLast >= 0
    ensures ReservedExclusions(None, reserveFirst, reserveLast).Some? <==> reserveFirst + reserveLast == 0
  {}

  lemma SubnetMeans(s: ManualSubnet, nv: NvIpam)
    requires (s.block.IPBlock? ==> ValidCidr(s.block.cidr)) && nv.reserveFirst >= 0 && nv.reserveLast >= 0
    ensures GoodSubnet(s, nv) <==> SubnetInOrder(s, nv.reserveFirst, nv.reserveLast)
  {
    if s.block.IPBlock? {
      var c := s.block.cidr;
      if c.mask >= 1 {
        ReservedMeans(c, nv.reserveFirst, nv.reserveLast);
      } else {
        BlockSizes(0);
        WordIsPow2();
        assert c == Cidr(0, 0);
        if Reserving(nv) { WholeSpaceRefused(nv.reserveFirst, nv.reserveLast); }
      }
    }
    hide BlockSize, ReservedExclusions;
    forall e | e in s.exclusions ensures GoodExclusion(e, s.block) <==>
       && e.start.Some? && e.end.Some? && e.start.value <= e.end.value
       && (s.block.IPBlock? ==>
             s.block.cidr.network <= e.start.value && e.end.value < s.block.cidr.network + BlockSize(s.block.cidr.mask))
    {}
    assert forall i :: 0 <= i < |s.exclusions| ==> s.exclusions[i] in s.exclusions;
  }

  // ---------- Reserving addresses in every block ----------

  function WithReserved(s: Subnet, reserved: seq<Range>): Subnet { s.(exclusions := reserved + s.exclusions) }

  lemma NothingReserved(cidr: Option<Cidr>, reserveFirst: Int, reserveLast: Int)
    requires (cidr.Some? ==> ValidCidr(cidr.value)) && reserveFirst <= 0 && reserveLast <= 0
    ensures ReservedExclusions(cidr, reserveFirst, reserveLast) == Some([])
    ensures forall s: Subnet :: [] + s.exclusions == s.exclusions
  {}

  /** ApplyReservedExclusions: each subnet's reserved ranges go before its own, in
      place, up to the first subnet that cannot be reserved in. */
  method ApplyReservedExclusions(subnets: array<Subnet>, cidrs: seq<Option<Cidr>>, reserveFirst: Int, reserveLast: Int)
    returns (ok: bool)
    requires |cidrs| == subnets.Length && forall i :: 0 <= i < |cidrs| ==> cidrs[i].Some? ==> ValidCidr(cidrs[i].value)
    modifies subnets
    ensures ok <==> forall i :: 0 <= i < |cidrs| ==> ReservedExclusions(cidrs[i], reserveFirst, reserveLast).Some?
    ensures ok ==> forall i :: 0 <= i < subnets.Length ==>
      subnets[i] == old(subnets[i]).(
        exclusions := ReservedExclusions(cidrs[i], reserveFirst, reserveLast).value + old(subnets[i]).exclusions)
  {
    hide ReservedExclusions;
    if reserveFirst <= 0 && reserveLast <= 0 {
      forall i | 0 <= i < |cidrs| ensures ReservedExclusions(cidrs[i], reserveFirst, reserveLast) == Some([]) {
        NothingReserved(cidrs[i], reserveFirst, reserveLast);
      }
      return true;
    }
    for i := 0 to subnets.Length
      invariant forall j :: 0 <= j < i ==> ReservedExclusions(cidrs[j], reserveFirst, reserveLast).Some?
      invariant forall j :: 0 <= j < i ==>
        subnets[j] == WithReserved(old(subnets[j]), ReservedExclusions(cidrs[j], reserveFirst, reserveLast).value)
      invariant forall j :: i <= j < subnets.Length ==> subnets[j] == old(subnets[j])
    {
      var reserved := ReservedExclusions(cidrs[i], reserveFirst, reserveLast);
      if reserved.None? { return false; }
      subnets[i] := WithReserved(subnets[i], reserved.value);
    }
    ok := true;
  }

  /** On the manual subnets of validated settings, reserving fails exactly when some
      subnet is left out: validation lets that through. */
  lemma ManualReservesFailure(nv: NvIpam)
    requires Parsed(nv) && Accepted(nv) && Reserving(nv)
    ensures (exists i :: 0 <= i < |nv.subnets| && ReservedExclusions(BlockCidr(nv.subnets[i].block), nv.reserveFirst, nv.reserveLast).None?)
            <==> exists i :: 0 <= i < |nv.subnets| && nv.subnets[i].block == NoBlock
  {
    forall i | 0 <= i < |nv.subnets|
      ensures ReservedExclusions(BlockCidr(nv.subnets[i].block), nv.reserveFirst, nv.reserveLast).None? <==> nv.subnets[i].block == NoBlock
    {
      assert GoodSubnet(nv.subnets[i], nv);
    }
  }

  /** Validated settings whose only subnet has no block: the reserve fails. */
  lemma ManualSubnetWithoutBlock()
    ensures var nv := NvIpam(0, 1, 0, Empty, 0, 0, 0, [ManualSubnet(NoBlock, [])]);
            && Parsed(nv) && Accepted(nv) && Reserving(nv)
            && ReservedExclusions(BlockCidr(nv.subnets[0].block), nv.reserveFirst, nv.reserveLast).None?
  {}

  // ---------- One share of blocks per render plan ----------

  predicate AutoGenerates(nv: NvIpam) {
    nv.startingSubnet != Empty && nv.mask != 0 && nv.offset != 0 && nv.subnets == []
  }

  /** How many blocks a plan needs: one per east-west PF in multirail, else one. */
  function Share(multirail: bool, ewPFs: nat): nat { if multirail && ewPFs > 0 then ewPFs else 1 }

  function Shares(multirail: bool, plans: seq<nat>): nat {
    if plans == [] then 0 else Shares(multirail, plans[..|plans| - 1]) + Share(multirail, plans[|plans| - 1])
  }

  /** allSubnets. */
  method AllSubnets(parts: seq<seq<Subnet>>) returns (all: seq<Subnet>)
    ensures all == Concat(parts)
  {
    all := [];
    for i := 0 to |parts|
      invariant all == Concat(parts[..i])
    {
      assert parts[..i + 1][..i] == parts[..i];
      all := all + parts[i];
    }
    assert parts[..|parts|] == parts;
  }

  datatype Allocation = Unmanaged | Failed | Shared(parts: seq<seq<Subnet>>)

  /** The ranges reserved in the `i`-th generated block. */
  ghost function BlockReserve(nv: NvIpam, i: nat): Option<seq<Range>>
    requires nv.startingSubnet.IPv4? && 0 <= nv.mask <= 32 && nv.offset >= 0
    requires ValidCidr(Cidr(Network(nv.startingSubnet.value, nv.mask, nv.offset, i), nv.mask))
  {
    ReservedExclusions(Some(Cidr(Network(nv.startingSubnet.value, nv.mask, nv.offset, i), nv.mask)), nv.reserveFirst, nv.reserveLast)
  }

  ghost predicate Generates(nv: NvIpam, total: int) {
    Feasible(if nv.startingSubnet.IPv4? then Some(nv.startingSubnet.value) else None, nv.mask, nv.offset, total, nv.startingGateway)
  }

  lemma BlockCidrValid(nv: NvIpam, total: Int, i: nat)
    requires Parsed(nv) && Generates(nv, total) && i < total
    ensures ValidCidr(Cidr(Network(nv.startingSubnet.value, nv.mask, nv.offset, i), nv.mask))
  {
    GeneratedBlock(nv.startingSubnet.value, nv.mask, nv.offset, total, nv.startingGateway, i);
  }

  /** What validation accepted can be reserved in every generated block. */
  lemma AcceptedReserves(nv: NvIpam, total: Int, i: nat)
    requires Parsed(nv) && AutoGenerates(nv) && Generates(nv, total) && i < total && Accepted(nv)
    ensures ValidCidr(Cidr(Network(nv.startingSubnet.value, nv.mask, nv.offset, i), nv.mask)) && BlockReserve(nv, i).Some?
  {
    BlockCidrValid(nv, total, i);
    ReservedShape(Cidr(Network(nv.startingSubnet.value, nv.mask, nv.offset, i), nv.mask), nv.reserveFirst, nv.reserveLast);
    if Reserving(nv) { ReservedShape(ParseCidr(nv.startingSubnet, nv.mask).value, nv.reserveFirst, nv.reserveLast); }
  }

  /** The `i`-th generated block with its gateway and reserved ranges. */
  ghost predicate IsBlock(s: Subnet, nv: NvIpam, i: nat)
    requires nv.startingSubnet.IPv4? && 0 <= nv.mask <= 32 && nv.offset >= 0
  {
    var n := Network(nv.startingSubnet.value, nv.mask, nv.offset, i);
    && ValidCidr(Cidr(n, nv.mask)) && BlockReserve(nv, i).Some?
    && s.network == n && s.mask == nv.mask && s.gateway == n + nv.startingGateway && s.exclusions == BlockReserve(nv, i).value
  }

  /** The sequence cut into pieces of the plans' shares. */
  ghost predicate CutInto(parts: seq<seq<Subnet>>, all: seq<Subnet>, multirail: bool, plans: seq<nat>) {
    && Concat(parts) == all && |parts| == |plans|
    && forall i :: 0 <= i < |plans| ==> |parts[i]| == Share(multirail, plans[i])
  }

  lemma {:induction false} SharesGrow(multirail: bool, plans: seq<nat>, i: nat)
    requires i <= |plans|
    ensures Shares(multirail, plans[..i]) <= Shares(multirail, plans)
    ensures i < |plans| ==> Shares(multirail, plans[..i + 1]) == Shares(multirail, plans[..i]) + Share(multirail, plans[i])
  {
    if i < |plans| {
      assert plans[..i + 1][..i] == plans[..i];
      if i + 1 < |plans| {
        assert plans[..|plans| - 1][..i] == plans[..i];
        SharesGrow(multirail, plans[..|plans| - 1], i);
      } else {
        assert plans[..i + 1] == plans;
      }
    } else {
      assert plans[..i] == plans;
    }
  }

  /** The blocks handed out, one slice of the generated array per plan. */
  method CutPlans(all: array<Subnet>, multirail: bool, plans: seq<nat>) returns (parts: seq<seq<Subnet>>)
    requires all.Length == Shares(multirail, plans)
    ensures CutInto(parts, all[..], multirail, plans)
  {
    hide Share;
    parts := [];
    var off := 0;
    for i := 0 to |plans|
      invariant off == Shares(multirail, plans[..i]) && off <= all.Length
      invariant CutInto(parts, all[..off], multirail, plans[..i])
    {
      SharesGrow(multirail, plans, i);
      SharesGrow(multirail, plans, i + 1);
      var n := Share(multirail, plans[i]);
      ghost var before := parts;
      parts := parts + [all[off..off + n]];
      assert parts[..|parts| - 1] == before;
      assert all[..off + n] == all[..off] + all[off..off + n];
      off := off + n;
    }
    assert plans[..|plans|] == plans && all[..off] == all[..];
  }

  /** preallocatePlanSubnets. For validated settings it fails only when the blocks do
      not fit; otherwise the plans' slices concatenate to exactly the generated blocks. */
  method PreallocatePlanSubnets(nv: NvIpam, multirail: bool, plans: seq<nat>) returns (a: Allocation)
    requires Parsed(nv) && Shares(multirail, plans) < 0x8000_0000_0000_0000
    ensures a == Unmanaged <==>
      nv.subnets != [] || nv.startingSubnet == Empty || nv.mask == 0 || nv.offset == 0 || plans == []
    ensures a == Failed ==> !Generates(nv, Shares(multirail, plans)) || !Accepted(nv)
    ensures a.Shared? ==>
      && Generates(nv, Shares(multirail, plans)) && |Concat(a.parts)| == Shares(multirail, plans)
      && CutInto(a.parts, Concat(a.parts), multirail, plans)
      && (forall i :: 0 <= i < |plans| ==> |a.parts[i]| == if multirail && plans[i] > 0 then plans[i] else 1)
      && forall i :: 0 <= i < |Concat(a.parts)| ==> IsBlock(Concat(a.parts)[i], nv, i)
  {
    if !AutoGenerates(nv) { return Unmanaged; }
    var total := 0;
    for i := 0 to |plans|
      invariant total == Shares(multirail, plans[..i]) && total >= i
    {
      SharesGrow(multirail, plans, i);
      total := total + Share(multirail, plans[i]);
    }
    assert plans[..|plans|] == plans;
    if total == 0 { return Unmanaged; }
    var start := if nv.startingSubnet.IPv4? then Some(nv.startingSubnet.value) else None;
    var all := GenerateSubnetsWithGateway(start, nv.mask, nv.offset, total, nv.startingGateway);
    if all == null { return Failed; }
    var bare := all[..];
    var cidrs := seq(total, i requires 0 <= i < total => Some(Cidr(bare[i].network, nv.mask)));
    forall i | 0 <= i < total ensures ValidCidr(cidrs[i].value) { BlockCidrValid(nv, total, i); }
    var reserved := ApplyReservedExclusions(all, cidrs, nv.reserveFirst, nv.reserveLast);
    if !reserved {
      var i :| 0 <= i < total && ReservedExclusions(cidrs[i], nv.reserveFirst, nv.reserveLast).None?;
      if Accepted(nv) { AcceptedReserves(nv, total, i); }
      return Failed;
    }
    var parts := CutPlans(all, multirail, plans);
    forall i | 0 <= i < total ensures IsBlock(all[..][i], nv, i) {
      assert bare[i].exclusions == [] && all[..][i] == WithReserved(bare[i], BlockReserve(nv, i).value);
      assert BlockReserve(nv, i).value + [] == BlockReserve(nv, i).value;
    }
    a := Shared(parts);
  }

  lemma {:induction false} PartElement(parts: seq<seq<Subnet>>, i: nat, k: nat) returns (at: nat)
    requires i < |parts| && k < |parts[i]|
    ensures at == |Concat(parts[..i])| + k && at < |Concat(parts)| && Concat(parts)[at] == parts[i][k]
  {
    var n := |parts| - 1;
    if i < n {
      assert parts[..n][..i] == parts[..i];
      at := PartElement(parts[..n], i, k);
    } else {
      at := |Concat(parts[..i])| + k;
    }
  }

  lemma {:induction false} PartsBefore(parts: seq<seq<Subnet>>, i: nat, j: nat)
    requires i < j <= |parts|
    ensures |Concat(parts[..i])| + |parts[i]| <= |Concat(parts[..j])|
  {
    assert parts[..j][..j - 1] == parts[..j - 1];
    if i < j - 1 { PartsBefore(parts, i, j - 1); }
  }

  /** Blocks of different plans have no address in common. */
  lemma PlansDisjoint(nv: NvIpam, total: Int, parts: seq<seq<Subnet>>, i: nat, k: nat, j: nat, l: nat, address: int)
    requires Parsed(nv) && Generates(nv, total)
    requires forall n :: 0 <= n < |Concat(parts)| ==> IsBlock(Concat(parts)[n], nv, n)
    requires i < j < |parts| && k < |parts[i]| && l < |parts[j]|
    ensures !(InBlock(address, parts[i][k].network, nv.mask) && InBlock(address, parts[j][l].network, nv.mask))
  {
    var a := PartElement(parts, i, k);
    var b := PartElement(parts, j, l);
    PartsBefore(parts, i, j);
    assert IsBlock(Concat(parts)[a], nv, a) && IsBlock(Concat(parts)[b], nv, b);
    GeneratedApart(nv.startingSubnet.value, nv.mask, nv.offset, a, b);
  }
}
