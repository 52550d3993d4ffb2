/** Spectrum-X workload endpoints and the resource claims they share. */
module Endpoints {
  import opened Wrappers
  import opened Text
  import opened Inventory
  import opened RailTopology

  /** One generated interface name, by the numbers it is made of. */
  datatype Slot = Slot(nicID: nat, plane: nat, rail: nat)

  datatype Endpoint = Endpoint(name: string, poolName: string, claimName: string, claimSuffixLimit: nat, slots: seq<Slot>,
                               pf: Option<PF>, hardwarePLB: bool, swPlane: int, vfCount: int, vfRequestName: string)

  datatype Request = Request(mode: string, planes: int, vr: bool, pfs: seq<PF>, swPlaneByRail: map<int, int>)

  /** How many endpoints each rail gets. */
  function PerRail(q: Request): int { if q.mode == "swplb" then q.planes else if q.vr then 2 else 1 }

  function SwPlane(q: Request, rail: int): int { if rail in q.swPlaneByRail then q.swPlaneByRail[rail] else 0 }

  function FindPF(pfs: seq<PF>, address: string): (r: Option<PF>)
    ensures r.Some? ==> r.value in pfs && r.value.pciAddress == address
    ensures r.None? ==> forall pf :: pf in pfs ==> pf.pciAddress != address
  {
    if pfs == [] then None else
    if pfs[0].pciAddress == address then Some(pfs[0]) else FindPF(pfs[1..], address)
  }

  function NicID(q: Request, rail: nat, index: nat): nat { if q.vr then index else rail }

  /** The slots of the planes `start` .. `end` - 1. */
  function Span(q: Request, rail: nat, index: nat, start: int, end: int): (r: seq<Slot>)
    requires 0 <= start
    ensures |r| == (if start < end then end - start else 0)
    ensures forall i :: 0 <= i < |r| ==> r[i] == Slot(NicID(q, rail, index), start + i, rail)
  {
    if start >= end then [] else seq(end - start, i requires 0 <= i < end - start => Slot(NicID(q, rail, index), start + i, rail))
  }

  /** On VR a rail's planes are split between its two NICs. */
  predicate HasMasters(q: Request, masters: seq<seq<string>>, rail: nat) {
    q.vr && q.mode != "swplb" ==> rail < |masters| && |masters[rail]| >= 2
  }

  function EndpointFor(q: Request, masters: seq<seq<string>>, rail: nat, index: nat): Endpoint
    requires HasMasters(q, masters, rail) && index < PerRail(q)
  {
    var r, i := Decimal(rail), Decimal(index);
    var hwplb, sw := q.mode == "hwplb", SwPlane(q, rail);
    if q.mode == "swplb" then
      Endpoint("rail" + r + "p" + i, "rail-" + r + "-plane-" + i, "rail-" + r + "-plane-" + i, 32,
               Span(q, rail, index, index, index + 1), PFForRailPlane(q.pfs, rail, index, q.planes), hwplb, sw, 1, "vf")
    else if q.vr then
      Endpoint("rail" + r + "nic" + i, "rail-" + r + "-nic-" + i, "rail-" + r, 32,
               Span(q, rail, index, 4 * index, 4 * (index + 1)), FindPF(q.pfs, masters[rail][index]), hwplb,
               2 * sw + index, 1, "vf" + i)
    else
      Endpoint("rail" + r, "rail-" + r, "rail-" + r, 38,
               Span(q, rail, index, 0, q.planes), PFForRailPlane(q.pfs, rail, 0, q.planes), hwplb, sw, q.planes, "vf")
  }

  /** The first `count` endpoints of a rail. */
  function OfRail(q: Request, masters: seq<seq<string>>, rail: nat, count: int): (r: seq<Endpoint>)
    requires HasMasters(q, masters, rail) && count <= PerRail(q)
  {
    if count <= 0 then [] else OfRail(q, masters, rail, count - 1) + [EndpointFor(q, masters, rail, count - 1)]
  }

  ghost predicate MastersUpTo(q: Request, masters: seq<seq<string>>, rails: nat) {
    forall r :: 0 <= r < rails ==> HasMasters(q, masters, r)
  }

  function OfRails(q: Request, masters: seq<seq<string>>, rails: nat): seq<Endpoint>
    requires MastersUpTo(q, masters, rails)
  {
    if rails == 0 then [] else OfRails(q, masters, rails - 1) + OfRail(q, masters, rails - 1, PerRail(q))
  }

  /** What generation has accepted: VR means four rails of two NICs and eight planes. */
  ghost predicate Accepted(q: Request) {
    q.vr ==> q.mode == "hwplb" && q.planes == 8 && LaysOut(EastWest(q.pfs), 8, [2, 2, 2, 2])
  }

  /** spectrumXEndpoints. */
  method SpectrumXEndpoints(q: Request)
    returns (endpoints: seq<Endpoint>, ghost rails: nat, ghost masters: seq<seq<string>>)
    requires Accepted(q)
    ensures MastersUpTo(q, masters, rails) && endpoints == OfRails(q, masters, rails)
    ensures !AllHaveRail(EastWest(q.pfs)) ==> rails == |EastWest(q.pfs)| / AtLeastOne(q.planes)
    ensures forall layout :: LaysOut(EastWest(q.pfs), q.planes, layout) ==> rails == |layout|
    ensures q.vr ==> VrMasters(q, masters, rails)
    ensures forall layout :: LaysOut(EastWest(q.pfs), q.planes, layout) ==> CoversAll(q, SlotsOf(endpoints), |layout|)
  {
    hide EndpointFor, LaysOut, EastWest, Accepted, VrMasters, HasMasters, MasterLists, RailOrder, AllHaveRail, Chunked, CoversAll, SlotsOf;
    var groups, order := RailPciGroups(q.pfs, q.planes);
    var n, order' := RailCount(q.pfs, q.planes);
    masters, rails := groups, n;
    AcceptedMasters(q, groups, order, order', n);
    endpoints := [];
    for rail := 0 to n
      invariant MastersUpTo(q, groups, rail) && endpoints == OfRails(q, groups, rail)
    {
      var more := RailEndpoints(q, groups, rail);
      endpoints := endpoints + more;
    }
    Coverage(q, groups, n);
  }

  /** One turn of the loop over the rails. */
  method RailEndpoints(q: Request, masters: seq<seq<string>>, rail: nat) returns (endpoints: seq<Endpoint>)
    requires HasMasters(q, masters, rail)
    ensures endpoints == OfRail(q, masters, rail, PerRail(q))
  {
    hide EndpointFor, HasMasters;
    endpoints := [];
    var index := 0;
    while index < PerRail(q)
      invariant 0 <= index && (index <= PerRail(q) || index == 0)
      invariant endpoints == OfRail(q, masters, rail, if index <= PerRail(q) then index else PerRail(q))
    {
      var e := BuildEndpoint(q, masters, rail, index);
      endpoints := endpoints + [e];
      index := index + 1;
    }
  }

  /** The body of the endpoint loop. */
  method BuildEndpoint(q: Request, masters: seq<seq<string>>, rail: nat, index: nat) returns (e: Endpoint)
    requires HasMasters(q, masters, rail) && index < PerRail(q)
    ensures e == EndpointFor(q, masters, rail, index)
  {
    hide PFForRailPlane, FindPF, Decimal;
    var r, i := Decimal(rail), Decimal(index);
    e := Endpoint("rail" + r, "rail-" + r, "rail-" + r, 38, [], None, q.mode == "hwplb", SwPlane(q, rail), q.planes, "vf");
    var start, end := 0, q.planes;
    if q.mode == "swplb" {
      e := e.(name := e.name + "p" + i, poolName := e.poolName + "-plane-" + i, claimName := e.claimName + "-plane-" + i,
              claimSuffixLimit := 32, vfCount := 1, pf := PFForRailPlane(q.pfs, rail, index, q.planes));
      start, end := index, index + 1;
    } else if q.vr {
      e := e.(name := e.name + "nic" + i, poolName := e.poolName + "-nic-" + i, vfRequestName := "vf" + i,
              claimSuffixLimit := 32, vfCount := 1, swPlane := 2 * e.swPlane + index);
      start, end := 4 * index, 4 * (index + 1);
      var found := FirstWithAddress(q.pfs, masters[rail][index]);
      e := e.(pf := found);
    } else {
      e := e.(pf := PFForRailPlane(q.pfs, rail, 0, q.planes));
    }
    var slots: seq<Slot> := [];
    var plane := start;
    while plane < end
      invariant start <= plane && (plane <= end || plane == start)
      invariant slots == Span(q, rail, index, start, plane)
    {
      slots := slots + [Slot(NicID(q, rail, index), plane, rail)];
      plane := plane + 1;
    }
    e := e.(slots := slots);
  }

  method FirstWithAddress(pfs: seq<PF>, address: string) returns (pf: Option<PF>)
    ensures pf == FindPF(pfs, address)
  {
    for i := 0 to |pfs|
      invariant FindPF(pfs, address) == FindPF(pfs[i..], address)
    {
      if pfs[i].pciAddress == address { return Some(pfs[i]); }
    }
    pf := None;
  }

  /** On VR each rail has its two masters. */
  ghost predicate VrMasters(q: Request, masters: seq<seq<string>>, rails: nat) {
    && rails == |masters| == 4
    && forall r :: 0 <= r < 4 ==>
       && |masters[r]| == |Nics(RailPFs(EastWest(q.pfs), r))| == 2
       && forall n :: 0 <= n < 2 ==> IsMaster(RailPFs(EastWest(q.pfs), r), Nics(RailPFs(EastWest(q.pfs), r))[n], masters[r][n])
  }

  lemma AcceptedMasters(q: Request, masters: seq<seq<string>>, order: seq<int>, order': seq<int>, n: nat)
    requires Accepted(q)
    requires AllHaveRail(EastWest(q.pfs)) ==> RailOrder(order, EastWest(q.pfs)) && MasterLists(masters, EastWest(q.pfs), order)
    requires AllHaveRail(EastWest(q.pfs)) ==> RailOrder(order', EastWest(q.pfs)) && n == |order'|
    ensures q.vr ==> VrMasters(q, masters, n)
    ensures MastersUpTo(q, masters, n)
    ensures forall layout :: LaysOut(EastWest(q.pfs), q.planes, layout) ==> n == |layout|
  {
    var ew := EastWest(q.pfs);
    hide RailPFs, Nics, IsMaster, EastWest, OneRailPerNic, Nic;
    forall layout | LaysOut(ew, q.planes, layout) ensures n == |layout| {
      LaidOutOrder(ew, q.planes, layout, order');
    }
    if q.vr {
      LaidOutOrder(ew, 8, [2, 2, 2, 2], order');
      LaidOutOrder(ew, 8, [2, 2, 2, 2], order);
      assert forall r :: 0 <= r < 4 ==> order[r] == r;
    }
  }

  // ---------- Every rail and plane exactly once ----------

  function SlotsOf(endpoints: seq<Endpoint>): seq<Slot> {
    if endpoints == [] then [] else SlotsOf(endpoints[..|endpoints| - 1]) + endpoints[|endpoints| - 1].slots
  }

  lemma {:induction false} SlotsConcat(a: seq<Endpoint>, b: seq<Endpoint>)
    ensures SlotsOf(a + b) == SlotsOf(a) + SlotsOf(b)
  {
    if b == [] {
      assert a + b == a;
    } else {
      var n := |b| - 1;
      assert (a + b)[..|a + b| - 1] == a + b[..n];
      SlotsConcat(a, b[..n]);
    }
  }

  /** Who owns a plane's interface name: the rail, or on VR the NIC. */
  function Owner(q: Request, rail: nat, plane: nat): nat {
    if !q.vr then rail else if q.mode == "swplb" then plane else plane / 4
  }

  predicate IsSlot(q: Request, s: Slot, rail: nat, plane: nat) { s == Slot(Owner(q, rail, plane), plane, rail) }

  /** The slots of one rail: its planes in order. */
  ghost predicate IsRow(q: Request, row: seq<Slot>, rail: nat, upTo: nat) {
    |row| == upTo && forall p :: 0 <= p < upTo ==> IsSlot(q, row[p], rail, p)
  }

  /** The planes the endpoints cover: the configured ones, eight on VR. */
  function Planes(q: Request): nat { if q.vr && q.mode != "swplb" then 8 else if q.planes < 0 then 0 else q.planes }

  function Covered(q: Request, count: nat): nat {
    if q.mode == "swplb" then count else if q.vr then 4 * count else if count == 0 then 0 else Planes(q)
  }

  /** The slots of one endpoint follow those of the rail's earlier endpoints. */
  lemma EndpointSlots(q: Request, masters: seq<seq<string>>, rail: nat, n: nat)
    requires HasMasters(q, masters, rail) && n < PerRail(q)
    ensures var slots := EndpointFor(q, masters, rail, n).slots;
            && |slots| == Covered(q, n + 1) - Covered(q, n)
            && forall i :: 0 <= i < |slots| ==> IsSlot(q, slots[i], rail, Covered(q, n) + i)
  {
    hide PFForRailPlane, FindPF, Decimal;
    if q.mode != "swplb" && q.vr {
      var slots := EndpointFor(q, masters, rail, n).slots;
      forall i | 0 <= i < 4 ensures IsSlot(q, slots[i], rail, 4 * n + i) {
        var p := 4 * n + i;
        assert p / 4 == n;
        assert slots[i] == Slot(n, p, rail);
      }
    }
  }

  lemma RowAppend(q: Request, row: seq<Slot>, rail: nat, upTo: nat, more: seq<Slot>)
    requires IsRow(q, row, rail, upTo) && forall i :: 0 <= i < |more| ==> IsSlot(q, more[i], rail, upTo + i)
    ensures IsRow(q, row + more, rail, upTo + |more|)
  {
    hide IsSlot;
    forall p | 0 <= p < upTo + |more| ensures IsSlot(q, (row + more)[p], rail, p) {
      if p >= upTo { assert IsSlot(q, more[p - upTo], rail, upTo + (p - upTo)); }
    }
  }

  lemma NoRow(q: Request, rail: nat)
    ensures IsRow(q, [], rail, Covered(q, 0))
  {}

  lemma {:induction false} RailSlots(q: Request, masters: seq<seq<string>>, rail: nat, count: nat)
    requires HasMasters(q, masters, rail) && count <= PerRail(q)
    ensures IsRow(q, SlotsOf(OfRail(q, masters, rail, count)), rail, Covered(q, count))
  {
    hide EndpointFor, IsSlot, IsRow, Covered, HasMasters;
    if count == 0 {
      NoRow(q, rail);
    } else {
      var n := count - 1;
      RailSlots(q, masters, rail, n);
      RailLength(q, masters, rail, n);
      var front, last := OfRail(q, masters, rail, n), EndpointFor(q, masters, rail, n);
      assert (front + [last])[..n] == front;
      EndpointSlots(q, masters, rail, n);
      RowAppend(q, SlotsOf(front), rail, Covered(q, n), last.slots);
    }
  }

  lemma {:induction false} RailLength(q: Request, masters: seq<seq<string>>, rail: nat, count: nat)
    requires HasMasters(q, masters, rail) && count <= PerRail(q)
    ensures |OfRail(q, masters, rail, count)| == count
  {
    if count > 0 { RailLength(q, masters, rail, count - 1); }
  }

  /** Slot k is plane k mod P of rail k div P. */
  ghost predicate InPlace(q: Request, s: Slot, k: nat, rails: nat) {
    && s.rail < rails && s.plane < Planes(q) && k == s.rail * Planes(q) + s.plane
    && s.nicID == Owner(q, s.rail, s.plane)
  }

  /** All endpoints together have each rail and plane exactly once, in order. */
  ghost predicate CoversAll(q: Request, slots: seq<Slot>, rails: nat) {
    |slots| == rails * Planes(q) && forall k :: 0 <= k < |slots| ==> InPlace(q, slots[k], k, rails)
  }

  lemma RowInPlace(q: Request, front: seq<Slot>, row: seq<Slot>, r: nat)
    requires CoversAll(q, front, r) && IsRow(q, row, r, Planes(q))
    ensures CoversAll(q, front + row, r + 1)
  {
    hide Planes, Owner;
    assert (r + 1) * Planes(q) == r * Planes(q) + Planes(q);
    forall k | 0 <= k < |front + row| ensures InPlace(q, (front + row)[k], k, r + 1) {
      if k < |front| { assert InPlace(q, front[k], k, r); } else { assert IsSlot(q, row[k - |front|], r, k - |front|); }
    }
  }

  lemma {:induction false} Coverage(q: Request, masters: seq<seq<string>>, rails: nat)
    requires MastersUpTo(q, masters, rails)
    ensures CoversAll(q, SlotsOf(OfRails(q, masters, rails)), rails)
  {
    if rails > 0 {
      var r := rails - 1;
      assert HasMasters(q, masters, r);
      SlotsConcat(OfRails(q, masters, r), OfRail(q, masters, r, PerRail(q)));
      hide CoversAll, SlotsOf, OfRail, Planes, HasMasters, IsRow;
      Coverage(q, masters, r);
      FullRow(q, masters, r);
      RowInPlace(q, SlotsOf(OfRails(q, masters, r)), SlotsOf(OfRail(q, masters, r, PerRail(q))), r);
    }
  }

  lemma FullRow(q: Request, masters: seq<seq<string>>, rail: nat)
    requires HasMasters(q, masters, rail)
    ensures IsRow(q, SlotsOf(OfRail(q, masters, rail, PerRail(q))), rail, Planes(q))
  {
    if PerRail(q) > 0 { RailSlots(q, masters, rail, PerRail(q)); }
  }

  /** In particular each pair in range has its slot. */
  lemma SlotFor(q: Request, masters: seq<seq<string>>, rails: nat, rail: nat, plane: nat) returns (k: nat)
    requires MastersUpTo(q, masters, rails) && rail < rails && plane < Planes(q)
    ensures k < |SlotsOf(OfRails(q, masters, rails))|
    ensures IsSlot(q, SlotsOf(OfRails(q, masters, rails))[k], rail, plane)
  {
    hide Planes, OfRails, SlotsOf, InPlace, IsSlot;
    Coverage(q, masters, rails);
    InRange(rail, rails, plane, Planes(q));
    k := rail * Planes(q) + plane;
    PairInPlace(q, SlotsOf(OfRails(q, masters, rails))[k], rail, plane, rails, k);
  }

  lemma PairInPlace(q: Request, s: Slot, rail: nat, plane: nat, rails: nat, k: nat)
    requires plane < Planes(q) && k == rail * Planes(q) + plane && InPlace(q, s, k, rails)
    ensures IsSlot(q, s, rail, plane)
  {
    SamePair(s.rail, s.plane, rail, plane, Planes(q));
  }

  lemma InRange(rail: nat, rails: nat, plane: nat, planes: nat)
    requires rail < rails && plane < planes
    ensures 0 <= rail * planes + plane < rails * planes
  {
    assert (rail + 1) * planes <= rails * planes;
  }

  lemma SamePair(r: nat, p: nat, r': nat, p': nat, planes: nat)
    requires p < planes && p' < planes && r * planes + p == r' * planes + p'
    ensures r == r' && p == p'
  {
    if r < r' { LaterRail(r, p, r', planes); }
    if r' < r { LaterRail(r', p', r, planes); }
  }

  lemma LaterRail(r: nat, p: nat, r': nat, planes: nat)
    requires r < r' && p < planes
    ensures r * planes + p < r' * planes
  {
    assert (r + 1) * planes <= r' * planes;
  }

  // ---------- Names and functions ----------

  lemma DigitsThenMark(a: nat, b: nat, x: string, y: string)
    requires Decimal(a) + x == Decimal(b) + y
    requires (x == "" || !('0' <= x[0] <= '9')) && (y == "" || !('0' <= y[0] <= '9'))
    ensures a == b && x == y
  {
    var l, s, t := Decimal(a) + x, Decimal(a), Decimal(b);
    if |s| < |t| { ShorterDigits(a, x, b, y); }
    if |t| < |s| { ShorterDigits(b, y, a, x); }
    assert l[..|s|] == s && l[..|t|] == t && l[|s|..] == x && l[|t|..] == y;
    DecimalInjective(a, b);
  }

  lemma ShorterDigits(a: nat, x: string, b: nat, y: string)
    requires |Decimal(a)| < |Decimal(b)| && (x == "" || !('0' <= x[0] <= '9'))
    ensures Decimal(a) + x != Decimal(b) + y
  {
    var k := |Decimal(a)|;
    assert (Decimal(b) + y)[k] == Decimal(b)[k];
    if x != "" { assert (Decimal(a) + x)[k] == x[0]; }
  }

  function NameSuffix(q: Request, index: nat): string {
    if q.mode == "swplb" then "p" + Decimal(index) else if q.vr then "nic" + Decimal(index) else ""
  }

  /** No two endpoints have the same name. */
  lemma NamesDiffer(q: Request, masters: seq<seq<string>>, rail: nat, index: nat, rail': nat, index': nat)
    requires HasMasters(q, masters, rail) && HasMasters(q, masters, rail')
    requires index < PerRail(q) && index' < PerRail(q)
    requires EndpointFor(q, masters, rail, index).name == EndpointFor(q, masters, rail', index').name
    ensures rail == rail' && index == index'
  {
    hide PFForRailPlane, FindPF, Span;
    var x, y := NameSuffix(q, index), NameSuffix(q, index');
    var a, b := Decimal(rail) + x, Decimal(rail') + y;
    NameIs(q, masters, rail, index);
    NameIs(q, masters, rail', index');
    assert ("rail" + a)[4..] == a && ("rail" + b)[4..] == b;
    DigitsThenMark(rail, rail', x, y);
    if q.mode == "swplb" {
      assert x[1..] == Decimal(index) && y[1..] == Decimal(index');
      DecimalInjective(index, index');
    } else if q.vr {
      assert x[3..] == Decimal(index) && y[3..] == Decimal(index');
      DecimalInjective(index, index');
    }
  }

  lemma NameIs(q: Request, masters: seq<seq<string>>, rail: nat, index: nat)
    requires HasMasters(q, masters, rail) && index < PerRail(q)
    ensures EndpointFor(q, masters, rail, index).name == "rail" + (Decimal(rail) + NameSuffix(q, index))
  {
    assert "rail" + Decimal(rail) + NameSuffix(q, index) == "rail" + (Decimal(rail) + NameSuffix(q, index));
  }

  /** The two endpoints of a VR rail sit on its two NICs, each with a known function. */
  lemma VrEndpointsOnOwnNic(q: Request, masters: seq<seq<string>>, rail: nat)
    requires Accepted(q) && q.vr && VrMasters(q, masters, 4) && rail < 4
    ensures EndpointFor(q, masters, rail, 0).pf.Some? && EndpointFor(q, masters, rail, 1).pf.Some?
    ensures Nic(EndpointFor(q, masters, rail, 0).pf.value.pciAddress) != Nic(EndpointFor(q, masters, rail, 1).pf.value.pciAddress)
  {
    hide LaysOut, Span;
    var own := RailPFs(EastWest(q.pfs), rail);
    NicsMean(own);
    hide RailPFs, EastWest, Nics, Nic;
    assert IsMaster(own, Nics(own)[0], masters[rail][0]) && IsMaster(own, Nics(own)[1], masters[rail][1]);
  }

  // ---------- spectrumXClaims ----------

  datatype Claim = Claim(name: string, suffixLimit: nat, gpuPCI: string, endpoints: seq<Endpoint>)

  function GpuPCI(e: Endpoint): string { if e.pf.Some? then e.pf.value.gpuPCI else "" }

  /** The endpoints of one claim, in order. */
  function WithClaim(endpoints: seq<Endpoint>, name: string): seq<Endpoint> {
    if endpoints == [] then [] else
      var n := |endpoints| - 1;
      WithClaim(endpoints[..n], name) + if endpoints[n].claimName == name then [endpoints[n]] else []
  }

  ghost predicate IsClaim(c: Claim, endpoints: seq<Endpoint>) {
    && c.endpoints == WithClaim(endpoints, c.name) && c.endpoints != []
    && c.suffixLimit == c.endpoints[0].claimSuffixLimit && c.gpuPCI == GpuPCI(c.endpoints[0])
  }

  ghost predicate DistinctClaims(claims: seq<Claim>) { forall i, j :: 0 <= i < j < |claims| ==> claims[i].name != claims[j].name }

  ghost predicate HasClaim(claims: seq<Claim>, name: string) { exists i :: 0 <= i < |claims| && claims[i].name == name }

  function ClaimNames(claims: seq<Claim>): (r: seq<string>)
    ensures |r| == |claims| && forall i :: 0 <= i < |r| ==> r[i] == claims[i].name
  {
    seq(|claims|, i requires 0 <= i < |claims| => claims[i].name)
  }

  /** The claim each endpoint asks for. */
  function Asked(endpoints: seq<Endpoint>): (r: seq<string>)
    ensures |r| == |endpoints| && forall i :: 0 <= i < |r| ==> r[i] == endpoints[i].claimName
  {
    seq(|endpoints|, i requires 0 <= i < |endpoints| => endpoints[i].claimName)
  }

  /** The claims of the endpoints: one for each claim name, in order of first occurrence,
      with all its endpoints. */
  ghost predicate Claims(claims: seq<Claim>, endpoints: seq<Endpoint>) {
    Grouped(claims, endpoints) && ClaimNames(claims) == Firsts(Asked(endpoints))
  }

  ghost predicate Grouped(claims: seq<Claim>, endpoints: seq<Endpoint>) {
    && DistinctClaims(claims)
    && (forall i :: 0 <= i < |claims| ==> IsClaim(claims[i], endpoints))
    && forall e :: e in endpoints ==> HasClaim(claims, e.claimName)
  }

  /** The index map of the source. */
  ghost predicate Indexed(indexes: map<string, nat>, claims: seq<Claim>) {
    && (forall name :: name in indexes ==> indexes[name] < |claims| && claims[indexes[name]].name == name)
    && forall i :: 0 <= i < |claims| ==> claims[i].name in indexes && indexes[claims[i].name] == i
  }

  method SpectrumXClaims(endpoints: seq<Endpoint>) returns (claims: seq<Claim>)
    ensures Claims(claims, endpoints)
  {
    hide IsClaim, WithClaim, GpuPCI, Grouped, HasClaim, ClaimNames, Asked, Firsts;
    claims := [];
    var indexes: map<string, nat> := map[];
    NoClaims();
    for i := 0 to |endpoints|
      invariant Claims(claims, endpoints[..i]) && Indexed(indexes, claims)
    {
      var e := endpoints[i];
      assert endpoints[..i + 1] == endpoints[..i] + [e];
      if e.claimName !in indexes {
        NewClaim(claims, endpoints[..i], e);
        NewName(claims, endpoints[..i], Claim(e.claimName, e.claimSuffixLimit, GpuPCI(e), [e]), e);
        indexes := indexes[e.claimName := |claims|];
        claims := claims + [Claim(e.claimName, e.claimSuffixLimit, GpuPCI(e), [e])];
      } else {
        var k := indexes[e.claimName];
        JoinClaim(claims, endpoints[..i], e, k);
        JoinedName(claims, endpoints[..i], e, k, claims[k].(endpoints := claims[k].endpoints + [e]));
        claims := claims[k := claims[k].(endpoints := claims[k].endpoints + [e])];
      }
    }
    assert endpoints[..|endpoints|] == endpoints;
  }

  lemma NoClaims()
    ensures Claims([], [])
  {
    assert Asked([]) == [] && ClaimNames([]) == [];
  }

  lemma WithClaimAppend(endpoints: seq<Endpoint>, e: Endpoint, name: string)
    ensures WithClaim(endpoints + [e], name) == WithClaim(endpoints, name) + if e.claimName == name then [e] else []
  {
    assert (endpoints + [e])[..|endpoints|] == endpoints;
  }

  lemma AskedAppend(endpoints: seq<Endpoint>, e: Endpoint)
    ensures var seen := Firsts(Asked(endpoints));
            Firsts(Asked(endpoints + [e])) == if e.claimName in seen then seen else seen + [e.claimName]
  {
    assert Asked(endpoints + [e]) == Asked(endpoints) + [e.claimName];
    FirstsAppend(Asked(endpoints), e.claimName);
  }

  lemma NewName(claims: seq<Claim>, endpoints: seq<Endpoint>, c: Claim, e: Endpoint)
    requires ClaimNames(claims) == Firsts(Asked(endpoints)) && c.name == e.claimName
    requires forall i :: 0 <= i < |claims| ==> claims[i].name != e.claimName
    ensures ClaimNames(claims + [c]) == Firsts(Asked(endpoints + [e]))
  {
    AskedAppend(endpoints, e);
    hide Firsts, Asked;
    forall i | 0 <= i < |claims| ensures ClaimNames(claims)[i] != e.claimName {}
    assert ClaimNames(claims + [c]) == ClaimNames(claims) + [c.name];
  }

  lemma NewClaim(claims: seq<Claim>, endpoints: seq<Endpoint>, e: Endpoint)
    requires Grouped(claims, endpoints) && forall i :: 0 <= i < |claims| ==> claims[i].name != e.claimName
    ensures Grouped(claims + [Claim(e.claimName, e.claimSuffixLimit, GpuPCI(e), [e])], endpoints + [e])
  {
    var all, c := endpoints + [e], Claim(e.claimName, e.claimSuffixLimit, GpuPCI(e), [e]);
    var more := claims + [c];
    NotClaimed(claims, endpoints, e.claimName);
    WithClaimAppend(endpoints, e, e.claimName);
    hide WithClaim, GpuPCI;
    forall i | 0 <= i < |claims| ensures IsClaim(claims[i], all) { WithClaimAppend(endpoints, e, claims[i].name); }
    hide IsClaim;
    forall f | f in all ensures HasClaim(more, f.claimName) { ClaimedByMore(claims, c, endpoints, e, f); }
  }

  lemma ClaimedByMore(claims: seq<Claim>, c: Claim, endpoints: seq<Endpoint>, e: Endpoint, f: Endpoint)
    requires (forall g :: g in endpoints ==> HasClaim(claims, g.claimName)) && c.name == e.claimName && f in endpoints + [e]
    ensures HasClaim(claims + [c], f.claimName)
  {
    var more := claims + [c];
    if f in endpoints {
      var i :| 0 <= i < |claims| && claims[i].name == f.claimName;
      assert more[i].name == f.claimName;
    } else {
      assert more[|claims|].name == f.claimName;
    }
  }

  lemma {:induction false} NotClaimed(claims: seq<Claim>, endpoints: seq<Endpoint>, name: string)
    requires forall e :: e in endpoints ==> HasClaim(claims, e.claimName)
    requires forall i :: 0 <= i < |claims| ==> claims[i].name != name
    ensures WithClaim(endpoints, name) == []
  {
    if endpoints != [] {
      var n := |endpoints| - 1;
      assert endpoints == endpoints[..n] + [endpoints[n]];
      assert endpoints[n] in endpoints;
      NotClaimed(claims, endpoints[..n], name);
    }
  }

  lemma JoinClaim(claims: seq<Claim>, endpoints: seq<Endpoint>, e: Endpoint, k: nat)
    requires Grouped(claims, endpoints) && k < |claims| && claims[k].name == e.claimName
    ensures Grouped(claims[k := claims[k].(endpoints := claims[k].endpoints + [e])], endpoints + [e])
  {
    var all := endpoints + [e];
    var more := claims[k := claims[k].(endpoints := claims[k].endpoints + [e])];
    hide WithClaim, GpuPCI;
    forall i | 0 <= i < |more| ensures IsClaim(more[i], all) {
      assert IsClaim(claims[i], endpoints);
      WithClaimAppend(endpoints, e, claims[i].name);
    }
    forall f | f in all ensures HasClaim(more, f.claimName) {
      if f in endpoints {
        var i :| 0 <= i < |claims| && claims[i].name == f.claimName;
        assert more[i].name == f.claimName;
      } else {
        assert more[k].name == f.claimName;
      }
    }
  }

  lemma JoinedName(claims: seq<Claim>, endpoints: seq<Endpoint>, e: Endpoint, k: nat, c: Claim)
    requires ClaimNames(claims) == Firsts(Asked(endpoints)) && k < |claims| && claims[k].name == c.name == e.claimName
    ensures ClaimNames(claims[k := c]) == Firsts(Asked(endpoints + [e]))
  {
    AskedAppend(endpoints, e);
    hide Firsts, Asked;
    assert ClaimNames(claims)[k] == e.claimName;
    assert ClaimNames(claims[k := c]) == ClaimNames(claims);
  }

  function Members(claims: seq<Claim>): seq<Endpoint> {
    if claims == [] then [] else Members(claims[..|claims| - 1]) + claims[|claims| - 1].endpoints
  }

  lemma {:induction false} WithClaimCount(endpoints: seq<Endpoint>, name: string, e: Endpoint)
    ensures multiset(WithClaim(endpoints, name))[e] == if e.claimName == name then multiset(endpoints)[e] else 0
  {
    if endpoints != [] {
      var n := |endpoints| - 1;
      assert endpoints == endpoints[..n] + [endpoints[n]];
      WithClaimCount(endpoints[..n], name, e);
    }
  }

  lemma {:induction false} MembersCount(claims: seq<Claim>, endpoints: seq<Endpoint>, e: Endpoint)
    requires DistinctClaims(claims) && forall i :: 0 <= i < |claims| ==> IsClaim(claims[i], endpoints)
    ensures multiset(Members(claims))[e] == if HasClaim(claims, e.claimName) then multiset(endpoints)[e] else 0
  {
    if claims != [] {
      var n := |claims| - 1;
      var front, last := claims[..n], claims[n];
      MembersCount(front, endpoints, e);
      WithClaimCount(endpoints, last.name, e);
      ClaimInFront(claims, e.claimName);
      assert IsClaim(last, endpoints);
    }
  }

  lemma ClaimInFront(claims: seq<Claim>, name: string)
    requires claims != [] && DistinctClaims(claims)
    ensures var n := |claims| - 1;
            && (HasClaim(claims, name) <==> HasClaim(claims[..n], name) || claims[n].name == name)
            && !(HasClaim(claims[..n], name) && claims[n].name == name)
  {
    var n := |claims| - 1;
    if i :| 0 <= i < n && claims[i].name == name { assert claims[..n][i].name == name; }
  }

  /** The claims together hold each endpoint as often as the list does. */
  lemma ClaimsConserve(claims: seq<Claim>, endpoints: seq<Endpoint>)
    requires Claims(claims, endpoints)
    ensures multiset(Members(claims)) == multiset(endpoints)
  {
    forall e ensures multiset(Members(claims))[e] == multiset(endpoints)[e] {
      MembersCount(claims, endpoints, e);
      if e !in endpoints { assert multiset(endpoints)[e] == 0; }
    }
  }
}
