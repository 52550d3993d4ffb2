/** IPv4 blocks cut out of an address range with 32- and 64-bit machine arithmetic, and
    the addresses reserved at their ends. */
module Subnets {
  import opened Wrappers

  const WORD32 := 0x1_0000_0000
  const WORD64 := 0x1_0000_0000_0000_0000

  /** A Go int. */
  type Int = x: int | -0x8000_0000_0000_0000 <= x < 0x8000_0000_0000_0000

  function Uint32(x: int): (r: nat)
    ensures r < WORD32 && (0 <= x < WORD32 ==> r == x)
  {
    x % WORD32
  }

  function Uint64(x: int): (r: nat)
    ensures r < WORD64 && (0 <= x < WORD64 ==> r == x)
  {
    x % WORD64
  }

  /** The product of two words. */
  function Product64(x: nat, y: nat): (r: nat)
    ensures x < WORD64 && y < WORD64 && x * y < WORD64 ==> r == x * y
  {
    Uint64(Uint64(x) * Uint64(y))
  }

  function Pow2(n: nat): (p: nat)
    ensures p >= 1
  {
    if n == 0 then 1 else 2 * Pow2(n - 1)
  }

  /** The number of addresses in a block of this prefix length. */
  function BlockSize(mask: nat): nat
    requires mask <= 32
  {
    Pow2(32 - mask)
  }

  lemma {:induction false} Pow2Divides(m: nat, n: nat)
    requires m <= n
    ensures Pow2(n) % Pow2(m) == 0 && Pow2(m) <= Pow2(n)
    ensures Pow2(n) == Pow2(n - m) * Pow2(m)
  {
    if m < n {
      Pow2Divides(m, n - 1);
      var q := Pow2(n - 1 - m);
      calc {
        Pow2(n);
        2 * (q * Pow2(m));
        (2 * q) * Pow2(m);
      }
      MultipleMod(2 * q, Pow2(m));
    } else {
      MultipleMod(1, Pow2(m));
    }
  }

  lemma MultipleMod(q: int, d: nat)
    requires d > 0
    ensures (q * d) % d == 0
  {
    DivisionIsUnique(q * d, d, q, 0);
  }

  lemma MulAtLeast(k: int, d: nat)
    requires k >= 1
    ensures k * d >= d
  {}

  lemma MulDistributes(a: int, b: int, d: int)
    ensures (a - b) * d == a * d - b * d && (a + b) * d == a * d + b * d
  {}

  lemma DivisionIsUnique(x: int, d: nat, q: int, r: int)
    requires d > 0 && 0 <= r < d && x == q * d + r
    ensures x / d == q && x % d == r
  {
    QuotientIsUnique(d, q, r, x / d, x % d);
  }

  lemma QuotientIsUnique(d: nat, q: int, r: int, q': int, r': int)
    requires 0 <= r < d && 0 <= r' < d && q * d + r == q' * d + r'
    ensures q == q' && r == r'
  {
    MulDistributes(q, q', d);
    MulDistributes(q', q, d);
    if q' < q { MulAtLeast(q - q', d); }
    if q < q' { MulAtLeast(q' - q, d); }
  }

  lemma WordIsPow2()
    ensures Pow2(32) == WORD32
  {
    assert Pow2(8) == 256;
    Pow2Divides(8, 16);
    Pow2Divides(16, 32);
  }

  lemma BlockSizes(mask: nat)
    requires mask <= 32
    ensures 1 <= BlockSize(mask) <= WORD32 && WORD32 % BlockSize(mask) == 0
    ensures mask >= 1 ==> 2 * BlockSize(mask) <= WORD32
    ensures mask <= 30 ==> BlockSize(mask) >= 4
  {
    WordIsPow2();
    Pow2Divides(32 - mask, 32);
    if mask >= 1 { Pow2Divides(32 - mask, 31); }
    if mask <= 30 { Pow2Divides(2, 32 - mask); assert Pow2(2) == 4; }
  }

  lemma AtMostQuotient(a: int, m: nat, d: nat)
    requires d > 0
    ensures a <= m / d <==> a * d <= m
  {
    var q, r := m / d, m % d;
    MulDistributes(q, a, d);
    MulDistributes(a, q, d);
    if a <= q {
      if a < q { MulAtLeast(q - a, d); }
    } else {
      MulAtLeast(a - q, d);
    }
  }

  /** Two multiples of `d` that differ, differ by at least `d`. */
  lemma MultiplesApart(x: int, y: int, d: nat)
    requires d > 0 && x % d == 0 && y % d == 0 && x < y
    ensures x + d <= y
  {
    var p, q := x / d, y / d;
    MulDistributes(q, p, d);
    if q <= p {
      MulDistributes(p, q, d);
      if q < p { MulAtLeast(p - q, d); }
    } else {
      MulAtLeast(q - p, d);
    }
  }

  lemma SumOfMultiples(x: int, k: int, d: nat)
    requires d > 0 && x % d == 0
    ensures (x + k * d) % d == 0
  {
    var q := x / d;
    assert x == q * d;
    MulDistributes(q, k, d);
    MultipleMod(q + k, d);
  }

  // ---------- Generating subnets ----------

  /** An inclusive range of addresses. */
  datatype Range = Range(startIP: nat, endIP: nat)

  datatype Subnet = Subnet(network: nat, mask: nat, gateway: nat, exclusions: seq<Range>)

  /** validateStartingGateway: a usable host offset for the mask. */
  predicate ValidGateway(startingGateway: Int, mask: nat)
    requires mask <= 32
  {
    var broadcastOffset := Uint64(Uint64(Pow2(32 - mask)) - 1);
    !(startingGateway < 1 || Uint64(startingGateway) >= broadcastOffset)
  }

  lemma ValidGatewayMeans(startingGateway: Int, mask: nat)
    requires 1 <= mask <= 30
    ensures ValidGateway(startingGateway, mask) <==> 1 <= startingGateway < BlockSize(mask) - 1
  {
    BlockSizes(mask);
  }

  /** The address of the `i`-th block. */
  function Network(base: nat, mask: nat, offset: nat, i: nat): nat
    requires mask <= 32
  {
    base + i * offset * BlockSize(mask)
  }

  /** All `count` whole blocks lie below 2^32, and every parameter is usable. */
  predicate Feasible(start: Option<nat>, mask: int, offset: int, count: int, startingGateway: int) {
    && start.Some? && 1 <= mask <= 30 && offset >= 1 && count >= 1
    && start.value % BlockSize(mask) == 0 && 1 <= startingGateway < BlockSize(mask) - 1
    && Network(start.value, mask, offset, count - 1) + BlockSize(mask) <= WORD32
  }

  /** A block has one address at full prefix length, and twice as many for each bit less. */
  lemma BlockSizeDoubles(mask: nat)
    requires mask < 32
    ensures BlockSize(mask) == 2 * BlockSize(mask + 1) && BlockSize(32) == 1
  {}

  /** The parameters are feasible exactly when every block lies in the address space, the
      start is aligned, and the gateway is a host address. */
  lemma FeasibleMeans(base: nat, mask: int, offset: int, count: int, startingGateway: int)
    ensures Feasible(Some(base), mask, offset, count, startingGateway) <==>
            && 1 <= mask <= 30 && offset >= 1 && count >= 1 && base % BlockSize(mask) == 0
            && 0 < startingGateway < BlockSize(mask) - 1
            && forall i :: 0 <= i < count ==> BlockFitsAt(base, i, offset, BlockSize(mask))
  {
    hide BlockSize, BlockFitsAt, Network;
    if 1 <= mask <= 30 && offset >= 1 && count >= 1 {
      AllFit(base, count, offset, BlockSize(mask));
      LastFits(base, mask, offset, count - 1);
    }
  }

  lemma LastFits(base: nat, mask: nat, offset: nat, i: nat)
    requires mask <= 32
    ensures Network(base, mask, offset, i) + BlockSize(mask) <= WORD32 <==> BlockFitsAt(base, i, offset, BlockSize(mask))
  {
    hide BlockSize;
  }

  lemma AllFit(base: nat, count: nat, offset: nat, size: nat)
    requires count >= 1
    ensures (forall i :: 0 <= i < count ==> BlockFitsAt(base, i, offset, size)) <==> BlockFitsAt(base, count - 1, offset, size)
  {
    forall i | 0 <= i < count && BlockFitsAt(base, count - 1, offset, size) ensures BlockFitsAt(base, i, offset, size) {
      MulMonotone(i, count - 1, offset);
      MulMonotone(i * offset, (count - 1) * offset, size);
    }
  }

  predicate BlockFitsAt(base: int, i: int, offset: int, size: int) { base + i * offset * size + size <= 0x1_0000_0000 }

  /** The overflow test looks at the first address of the last block, and so accepts
      exactly when the whole last block fits. */
  lemma StepsFit(base: nat, mask: nat, offset: nat, count: nat)
    requires 1 <= mask <= 30 && offset >= 1 && count >= 1 && base < WORD32 && base % BlockSize(mask) == 0
    ensures count - 1 <= ((WORD32 - 1 - base) / BlockSize(mask)) / offset
            <==> Network(base, mask, offset, count - 1) + BlockSize(mask) <= WORD32
  {
    BlockSizes(mask);
    LastBlockFits(WORD32, base, count - 1, offset, BlockSize(mask));
  }

  lemma LastBlockFits(word: nat, base: nat, last: nat, offset: nat, size: nat)
    requires size > 0 && offset > 0 && base < word && base % size == 0 && word % size == 0
    ensures last <= ((word - 1 - base) / size) / offset <==> base + last * offset * size + size <= word
  {
    var steps, room := last * offset, (word - 1 - base) / size;
    AtMostQuotient(last, room, offset);
    AtMostQuotient(steps, word - 1 - base, size);
    SumOfMultiples(base, steps, size);
    var next := base + steps * size;
    if next < word { MultiplesApart(next, word, size); }
  }

  lemma MulMonotone(a: nat, b: nat, d: nat)
    requires a <= b
    ensures a * d <= b * d
  {}

  /** No product or sum on the way to a block's address leaves its machine word. */
  lemma NothingWraps(base: nat, mask: nat, offset: Int, count: nat, i: nat, startingGateway: Int)
    requires Feasible(Some(base), mask, offset, count, startingGateway) && i < count
    ensures i * offset * BlockSize(mask) < WORD32 && i * offset < WORD32 && offset < WORD64
    ensures Network(base, mask, offset, i) + BlockSize(mask) <= WORD32
    ensures Network(base, mask, offset, i) + startingGateway < WORD32
  {
    var size := BlockSize(mask);
    BlockSizes(mask);
    MulMonotone(i, count - 1, offset);
    MulMonotone(i * offset, (count - 1) * offset, size);
    MulMonotone(1, size, i * offset);
  }

  /** GenerateSubnetsWithGateway in Go's integer arithmetic. */
  method GenerateSubnetsWithGateway(start: Option<nat>, mask: Int, offset: Int, count: Int, startingGateway: Int)
    returns (subnets: array?<Subnet>)
    requires start.Some? ==> start.value < WORD32
    ensures subnets != null <==> Feasible(start, mask, offset, count, startingGateway)
    ensures subnets != null ==> fresh(subnets) && subnets.Length == count && forall i :: 0 <= i < count ==>
      subnets[i] == Subnet(Network(start.value, mask, offset, i), mask, Network(start.value, mask, offset, i) + startingGateway, [])
  {
    if count < 1 || mask < 1 || mask > 30 || offset < 1 || start.None? { return null; }
    var baseIP := start.value;
    BlockSizes(mask);
    var blockSize := Uint32(Pow2(32 - mask));
    ValidGatewayMeans(startingGateway, mask);
    if !ValidGateway(startingGateway, mask) || baseIP % blockSize != 0 { return null; }
    var maxSteps := Uint64(Uint64(WORD32 - 1) - Uint64(baseIP)) / Uint64(blockSize);
    StepsFit(baseIP, mask, offset, count);
    if Uint64(count - 1) > maxSteps / Uint64(offset) { return null; }
    subnets := new Subnet[count](_ => Subnet(0, 0, 0, []));
    for i := 0 to count
      invariant forall j :: 0 <= j < i ==>
        subnets[j] == Subnet(Network(baseIP, mask, offset, j), mask, Network(baseIP, mask, offset, j) + startingGateway, [])
    {
      subnets[i] := NthSubnet(baseIP, mask, offset, count, startingGateway, blockSize, i);
    }
  }

  /** The body of the loop, in machine words. */
  method NthSubnet(baseIP: nat, mask: Int, offset: Int, count: Int, startingGateway: Int, blockSize: nat, i: nat)
    returns (subnet: Subnet)
    requires baseIP < WORD32 && Feasible(Some(baseIP), mask, offset, count, startingGateway) && i < count
    requires blockSize == BlockSize(mask)
    ensures subnet == Subnet(Network(baseIP, mask, offset, i), mask, Network(baseIP, mask, offset, i) + startingGateway, [])
  {
    BlockSizes(mask);
    NothingWraps(baseIP, mask, offset, count, i, startingGateway);
    UsableGateway(baseIP, mask, offset, count, startingGateway);
    hide Uint32, Uint64, Product64, Feasible, BlockSize;
    var networkAddr := Uint32(Uint64(Uint64(baseIP) + Product64(Product64(i, offset), blockSize)));
    var gateway := Uint32(networkAddr + Uint32(startingGateway));
    subnet := Subnet(networkAddr, mask, gateway, []);
  }

  lemma UsableGateway(base: nat, mask: nat, offset: Int, count: nat, startingGateway: Int)
    requires mask <= 32 && Feasible(Some(base), mask, offset, count, startingGateway)
    ensures mask <= 30 && 1 <= startingGateway < BlockSize(mask) && offset >= 1
  {
    hide Network, BlockSize;
  }

  // ---------- What the generated blocks are ----------

  predicate InBlock(address: int, network: nat, mask: nat)
    requires mask <= 32
  {
    network <= address < network + BlockSize(mask)
  }

  /** Blocks are aligned, their gateways strictly between network and broadcast. */
  lemma GeneratedBlock(base: nat, mask: nat, offset: Int, count: Int, startingGateway: Int, i: nat)
    requires Feasible(Some(base), mask, offset, count, startingGateway) && i < count
    ensures var n := Network(base, mask, offset, i);
            && n % BlockSize(mask) == 0 && n + BlockSize(mask) <= WORD32
            && n < n + startingGateway < n + BlockSize(mask) - 1
  {
    BlockSizes(mask);
    NothingWraps(base, mask, offset, count, i, startingGateway);
    SumOfMultiples(base, i * offset, BlockSize(mask));
  }

  /** Later blocks start past the end of earlier ones: strictly increasing, disjoint. */
  lemma GeneratedApart(base: nat, mask: nat, offset: nat, i: nat, j: nat)
    requires mask <= 32 && offset >= 1 && i < j
    ensures Network(base, mask, offset, i) + BlockSize(mask) <= Network(base, mask, offset, j)
    ensures forall a :: !(InBlock(a, Network(base, mask, offset, i), mask) && InBlock(a, Network(base, mask, offset, j), mask))
  {
    var size := BlockSize(mask);
    BlockSizes(mask);
    MulDistributes(j, i, offset);
    MulAtLeast(j - i, offset);
    MulDistributes(j * offset, i * offset, size);
    MulAtLeast(j * offset - i * offset, size);
  }

  // ---------- Reserved addresses ----------

  /** A parsed CIDR: the network address of the block and its prefix length. */
  datatype Cidr = Cidr(network: nat, mask: nat)

  predicate ValidCidr(c: Cidr) {
    c.mask <= 32 && c.network % BlockSize(c.mask) == 0 && c.network + BlockSize(c.mask) <= WORD32
  }

  /** reservedExclusions over a parsed CIDR (none when it does not parse). */
  function ReservedExclusions(cidr: Option<Cidr>, reserveFirst: Int, reserveLast: Int): Option<seq<Range>>
    requires cidr.Some? ==> ValidCidr(cidr.value)
  {
    if reserveFirst <= 0 && reserveLast <= 0 then Some([])
    else if cidr.None? then None
    else
      var network := cidr.value.network;
      var blockSize := Uint32(Pow2(32 - cidr.value.mask));
      var broadcast := Uint32(network + blockSize - 1);
      if Uint64(Uint64(reserveFirst) + Uint64(reserveLast)) >= Uint64(blockSize) then None
      else
        Some((if reserveFirst > 0 then [Range(network, Uint32(network + Uint32(reserveFirst) - 1))] else [])
             + (if reserveLast > 0 then [Range(Uint32(broadcast - Uint32(reserveLast) + 1), broadcast)] else []))
  }

  ghost predicate Reserves(ranges: seq<Range>, a: int) {
    exists x :: x in ranges && x.startIP <= a <= x.endIP
  }

  function Covered(ranges: seq<Range>): int {
    if ranges == [] then 0 else ranges[0].endIP - ranges[0].startIP + 1 + Covered(ranges[1..])
  }

  lemma CoveredUpToTwo(a: Range, b: Range)
    ensures Covered([]) == 0 && Covered([a]) == a.endIP - a.startIP + 1
    ensures Covered([a, b]) == a.endIP - a.startIP + 1 + b.endIP - b.startIP + 1
  {
    assert [a][1..] == [] && [a, b][1..] == [b] && [b][1..] == [];
  }

  lemma ReservedShape(c: Cidr, reserveFirst: Int, reserveLast: Int)
    requires ValidCidr(c) && c.mask >= 1 && reserveFirst >= 0 && reserveLast >= 0
    ensures var r, size := ReservedExclusions(Some(c), reserveFirst, reserveLast), BlockSize(c.mask);
            && (r.Some? <==> reserveFirst + reserveLast == 0 || reserveFirst + reserveLast < size)
            && (r.Some? ==> c.network + reserveFirst + reserveLast < c.network + size)
            && (r.Some? ==> r.value == (if reserveFirst > 0 then [Range(c.network, c.network + reserveFirst - 1)] else [])
                                       + (if reserveLast > 0 then [Range(c.network + size - reserveLast, c.network + size - 1)] else []))
  {
    BlockSizes(c.mask);
  }

  /** For prefix lengths from 1 on and counts that are not negative: a reservation is
      accepted exactly when it leaves an address free, and then it covers exactly the
      first and the last addresses of the block, in disjoint ranges. */
  lemma ReservedMeans(c: Cidr, reserveFirst: Int, reserveLast: Int)
    requires ValidCidr(c) && c.mask >= 1 && reserveFirst >= 0 && reserveLast >= 0
    ensures var r, size := ReservedExclusions(Some(c), reserveFirst, reserveLast), BlockSize(c.mask);
            && (r.Some? <==> reserveFirst + reserveLast == 0 || reserveFirst + reserveLast < size)
            && (r.Some? ==>
                  && Covered(r.value) == reserveFirst + reserveLast < size
                  && (forall a :: Reserves(r.value, a) <==>
                        c.network <= a < c.network + reserveFirst || c.network + size - reserveLast <= a < c.network + size)
                  && (forall i, j :: 0 <= i < j < |r.value| ==> r.value[i].endIP < r.value[j].startIP))
  {
    ReservedShape(c, reserveFirst, reserveLast);
    hide ReservedExclusions, BlockSize;
    var r, size := ReservedExclusions(Some(c), reserveFirst, reserveLast), BlockSize(c.mask);
    if r.Some? {
      if reserveFirst > 0 && reserveLast > 0 {
        var low, high := Range(c.network, c.network + reserveFirst - 1), Range(c.network + size - reserveLast, c.network + size - 1);
        assert r.value == [low, high] && low in r.value && high in r.value;
        CoveredUpToTwo(low, high);
      } else if reserveFirst > 0 || reserveLast > 0 {
        var only := if reserveFirst > 0 then Range(c.network, c.network + reserveFirst - 1)
                    else Range(c.network + size - reserveLast, c.network + size - 1);
        assert r.value == [only] && only in r.value;
        CoveredUpToTwo(only, only);
      }
    }
  }

  /** A prefix length of 0 wraps the block size to zero: any reservation is refused. */
  lemma WholeSpaceRefused(reserveFirst: Int, reserveLast: Int)
    requires reserveFirst > 0 || reserveLast > 0
    ensures ValidCidr(Cidr(0, 0)) && ReservedExclusions(Some(Cidr(0, 0)), reserveFirst, reserveLast) == None
  {
    WordIsPow2();
    assert BlockSize(0) == Pow2(32);
  }
}
