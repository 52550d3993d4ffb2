/** What the Spectrum-X endpoints are made of, and how they share claims. */
module EndpointClaims {
  import opened Wrappers
  import opened Text
  import opened Inventory
  import opened RailTopology
  import opened Endpoints

  // ---------- Which endpoints share a claim ----------

  function ClaimSuffix(q: Request, index: nat): string { if q.mode == "swplb" then "-plane-" + Decimal(index) else "" }

  lemma ClaimIs(q: Request, masters: seq<seq<string>>, rail: nat, index: nat)
    requires HasMasters(q, masters, rail) && index < PerRail(q)
    ensures EndpointFor(q, masters, rail, index).claimName == "rail-" + (Decimal(rail) + ClaimSuffix(q, index))
  {
    hide PFForRailPlane, FindPF, Span;
    assert "rail-" + Decimal(rail) + "-plane-" + Decimal(index) == "rail-" + (Decimal(rail) + ("-plane-" + Decimal(index)));
    assert "rail-" + Decimal(rail) == "rail-" + (Decimal(rail) + "");
  }

  /** Two endpoints of an accepted group share a claim exactly when they are the same, or
      on VR when they are on the same rail. */
  lemma SharedClaim(q: Request, masters: seq<seq<string>>, rail: nat, index: nat, rail': nat, index': nat)
    requires Accepted(q) && HasMasters(q, masters, rail) && HasMasters(q, masters, rail')
    requires index < PerRail(q) && index' < PerRail(q)
    ensures EndpointFor(q, masters, rail, index).claimName == EndpointFor(q, masters, rail', index').claimName <==>
            rail == rail' && (q.vr || index == index')
  {
    ClaimIs(q, masters, rail, index);
    ClaimIs(q, masters, rail', index');
    hide EndpointFor, LaysOut, HasMasters;
    var x, y := ClaimSuffix(q, index), ClaimSuffix(q, index');
    var a, b := Decimal(rail) + x, Decimal(rail') + y;
    assert ("rail-" + a)[5..] == a && ("rail-" + b)[5..] == b;
    if a == b {
      DigitsThenMark(rail, rail', x, y);
      if q.mode == "swplb" {
        assert x[7..] == Decimal(index) && y[7..] == Decimal(index');
        DecimalInjective(index, index');
      }
    }
  }

  // ---------- The claims of a group ----------

  lemma AppendAsked(endpoints: seq<Endpoint>, e: Endpoint)
    ensures Asked(endpoints + [e]) == Asked(endpoints) + [e.claimName]
  {}

  /** On VR a rail's two endpoints come one after the other. */
  lemma VrRail(q: Request, masters: seq<seq<string>>, rails: nat)
    requires Accepted(q) && q.vr && MastersUpTo(q, masters, rails + 1)
    ensures HasMasters(q, masters, rails)
    ensures OfRails(q, masters, rails + 1) ==
            OfRails(q, masters, rails) + [EndpointFor(q, masters, rails, 0)] + [EndpointFor(q, masters, rails, 1)]
  {
    hide EndpointFor, LaysOut;
    assert HasMasters(q, masters, rails);
    assert OfRail(q, masters, rails, 1) == [EndpointFor(q, masters, rails, 0)];
    assert OfRail(q, masters, rails, 2) == [EndpointFor(q, masters, rails, 0)] + [EndpointFor(q, masters, rails, 1)];
  }

  function RailNames(n: nat): (r: seq<string>)
    ensures |r| == n && forall i :: 0 <= i < n ==> r[i] == "rail-" + Decimal(i)
  {
    seq(n, i requires 0 <= i < n => "rail-" + Decimal(i))
  }

  lemma RailNamesDiffer(a: nat, b: nat)
    ensures "rail-" + Decimal(a) == "rail-" + Decimal(b) <==> a == b
  {
    assert ("rail-" + Decimal(a))[5..] == Decimal(a) && ("rail-" + Decimal(b))[5..] == Decimal(b);
    DecimalInjective(a, b);
  }

  lemma VrClaimName(q: Request, masters: seq<seq<string>>, rail: nat, index: nat)
    requires Accepted(q) && q.vr && HasMasters(q, masters, rail) && index < PerRail(q)
    ensures EndpointFor(q, masters, rail, index).claimName == "rail-" + Decimal(rail)
  {
    ClaimIs(q, masters, rail, index);
    assert Decimal(rail) + "" == Decimal(rail);
  }

  lemma {:induction false} VrNames(q: Request, masters: seq<seq<string>>, rails: nat)
    requires Accepted(q) && q.vr && MastersUpTo(q, masters, rails)
    ensures Firsts(Asked(OfRails(q, masters, rails))) == RailNames(rails)
  {
    if rails == 0 {
      assert Asked([]) == [] && RailNames(0) == [];
    } else {
      var n := rails - 1;
      VrNames(q, masters, n);
      VrRail(q, masters, n);
      VrClaimName(q, masters, n, 0);
      VrClaimName(q, masters, n, 1);
      hide EndpointFor, OfRails, Firsts, Asked, Accepted, HasMasters, MastersUpTo;
      TwoAsks(OfRails(q, masters, n), EndpointFor(q, masters, n, 0), EndpointFor(q, masters, n, 1), n);
    }
  }

  /** Two endpoints that ask for the next rail's claim. */
  lemma TwoAsks(before: seq<Endpoint>, a: Endpoint, b: Endpoint, n: nat)
    requires Firsts(Asked(before)) == RailNames(n) && a.claimName == b.claimName == "rail-" + Decimal(n)
    ensures Firsts(Asked(before + [a] + [b])) == RailNames(n + 1)
  {
    hide Firsts, Asked, Decimal;
    AppendAsked(before, a);
    AppendAsked(before + [a], b);
    FirstsAppend(Asked(before), a.claimName);
    FirstsAppend(Asked(before + [a]), b.claimName);
    forall i | 0 <= i < n ensures RailNames(n)[i] != a.claimName { RailNamesDiffer(i, n); }
    assert RailNames(n + 1) == RailNames(n) + [a.claimName];
  }

  lemma {:induction false} VrWithClaim(q: Request, masters: seq<seq<string>>, rails: nat, rail: nat)
    requires Accepted(q) && q.vr && MastersUpTo(q, masters, rails) && HasMasters(q, masters, rail)
    ensures WithClaim(OfRails(q, masters, rails), "rail-" + Decimal(rail)) ==
            if rail < rails then [EndpointFor(q, masters, rail, 0), EndpointFor(q, masters, rail, 1)] else []
  {
    if rails > 0 {
      var n, name := rails - 1, "rail-" + Decimal(rail);
      VrWithClaim(q, masters, n, rail);
      VrRail(q, masters, n);
      VrClaimName(q, masters, n, 0);
      VrClaimName(q, masters, n, 1);
      RailNamesDiffer(rail, n);
      hide EndpointFor, OfRails, WithClaim, Accepted, HasMasters, Decimal;
      TwoClaimed(OfRails(q, masters, n), EndpointFor(q, masters, n, 0), EndpointFor(q, masters, n, 1), name);
    }
  }

  lemma TwoClaimed(before: seq<Endpoint>, a: Endpoint, b: Endpoint, name: string)
    requires a.claimName == b.claimName
    ensures WithClaim(before + [a] + [b], name) == WithClaim(before, name) + if a.claimName == name then [a, b] else []
  {
    hide WithClaim;
    WithClaimAppend(before, a, name);
    WithClaimAppend(before + [a], b, name);
  }

  /** An accepted VR group has one claim for each rail, held by the endpoints of the rail's
      two NICs, whose functions are known and different. */
  lemma VrClaims(q: Request, masters: seq<seq<string>>, claims: seq<Claim>, rail: nat)
    requires Accepted(q) && q.vr && VrMasters(q, masters, 4) && MastersUpTo(q, masters, 4)
    requires Claims(claims, OfRails(q, masters, 4)) && rail < 4
    ensures HasMasters(q, masters, rail) && |claims| == 4 && claims[rail].name == "rail-" + Decimal(rail)
    ensures claims[rail].endpoints == [EndpointFor(q, masters, rail, 0), EndpointFor(q, masters, rail, 1)]
    ensures EndpointFor(q, masters, rail, 0).pf.Some? && EndpointFor(q, masters, rail, 1).pf.Some?
    ensures Nic(EndpointFor(q, masters, rail, 0).pf.value.pciAddress) != Nic(EndpointFor(q, masters, rail, 1).pf.value.pciAddress)
    ensures claims[rail].gpuPCI == EndpointFor(q, masters, rail, 0).pf.value.gpuPCI
  {
    assert HasMasters(q, masters, rail);
    VrNames(q, masters, 4);
    VrWithClaim(q, masters, 4, rail);
    VrEndpointsOnOwnNic(q, masters, rail);
    hide EndpointFor, OfRails, WithClaim, Accepted, VrMasters, Nic, Firsts, HasMasters;
    assert ClaimNames(claims)[rail] == RailNames(4)[rail];
    assert IsClaim(claims[rail], OfRails(q, masters, 4));
  }

  /** Where each endpoint of some rails comes from. */
  lemma {:induction false} FromRail(q: Request, masters: seq<seq<string>>, rails: nat, e: Endpoint) returns (rail: nat, index: nat)
    requires MastersUpTo(q, masters, rails) && e in OfRails(q, masters, rails)
    ensures rail < rails && HasMasters(q, masters, rail) && index < PerRail(q) && e == EndpointFor(q, masters, rail, index)
  {
    hide EndpointFor, HasMasters;
    var n := rails - 1;
    assert HasMasters(q, masters, n);
    if e in OfRails(q, masters, n) {
      rail, index := FromRail(q, masters, n, e);
    } else {
      rail := n;
      index := FromCount(q, masters, n, PerRail(q), e);
    }
  }

  lemma {:induction false} FromCount(q: Request, masters: seq<seq<string>>, rail: nat, count: int, e: Endpoint) returns (index: nat)
    requires HasMasters(q, masters, rail) && count <= PerRail(q) && e in OfRail(q, masters, rail, count)
    ensures index < count && e == EndpointFor(q, masters, rail, index)
  {
    hide EndpointFor, HasMasters;
    if e == EndpointFor(q, masters, rail, count - 1) { index := count - 1; } else { index := FromCount(q, masters, rail, count - 1, e); }
  }

  lemma {:induction false} RowAsksApart(q: Request, masters: seq<seq<string>>, rail: nat, count: int)
    requires Accepted(q) && !q.vr && HasMasters(q, masters, rail) && count <= PerRail(q)
    ensures Distinct(Asked(OfRail(q, masters, rail, count)))
  {
    hide EndpointFor, Accepted, HasMasters;
    if count > 0 {
      var n := count - 1;
      RowAsksApart(q, masters, rail, n);
      var front, last := OfRail(q, masters, rail, n), EndpointFor(q, masters, rail, n);
      AppendAsked(front, last);
      forall x | x in Asked(front) ensures x != last.claimName {
        var k :| 0 <= k < |front| && Asked(front)[k] == x;
        var i := FromCount(q, masters, rail, n, front[k]);
        SharedClaim(q, masters, rail, i, rail, n);
      }
      JoinDistinct(Asked(front), [last.claimName]);
    }
  }

  /** Elsewhere no two endpoints ask for the same claim. */
  lemma {:induction false} AsksApart(q: Request, masters: seq<seq<string>>, rails: nat)
    requires Accepted(q) && !q.vr && MastersUpTo(q, masters, rails)
    ensures Distinct(Asked(OfRails(q, masters, rails)))
  {
    hide EndpointFor, Accepted, HasMasters;
    if rails > 0 {
      var n := rails - 1;
      assert HasMasters(q, masters, n);
      AsksApart(q, masters, n);
      RowAsksApart(q, masters, n, PerRail(q));
      var front, row := OfRails(q, masters, n), OfRail(q, masters, n, PerRail(q));
      assert Asked(front + row) == Asked(front) + Asked(row);
      forall x | x in Asked(front) ensures x !in Asked(row) {
        var k :| 0 <= k < |front| && Asked(front)[k] == x;
        var r, i := FromRail(q, masters, n, front[k]);
        forall j | 0 <= j < |row| ensures Asked(row)[j] != x {
          var i' := FromCount(q, masters, n, PerRail(q), row[j]);
          SharedClaim(q, masters, r, i, n, i');
        }
      }
      JoinDistinct(Asked(front), Asked(row));
    }
  }

  lemma {:induction false} ClaimedOnce(endpoints: seq<Endpoint>, k: nat)
    requires Distinct(Asked(endpoints)) && k < |endpoints|
    ensures WithClaim(endpoints, endpoints[k].claimName) == [endpoints[k]]
  {
    var n := |endpoints| - 1;
    var front, name := endpoints[..n], endpoints[k].claimName;
    assert forall i :: 0 <= i < n ==> Asked(front)[i] == Asked(endpoints)[i];
    if k < n {
      ClaimedOnce(front, k);
      assert Asked(endpoints)[n] != name;
    } else {
      forall i | 0 <= i < n ensures front[i].claimName != name { assert Asked(endpoints)[i] != Asked(endpoints)[n]; }
      ClaimedNever(front, name);
    }
  }

  lemma {:induction false} ClaimedNever(endpoints: seq<Endpoint>, name: string)
    requires forall i :: 0 <= i < |endpoints| ==> endpoints[i].claimName != name
    ensures WithClaim(endpoints, name) == []
  {
    if endpoints != [] { ClaimedNever(endpoints[..|endpoints| - 1], name); }
  }

  /** Elsewhere each endpoint has a claim of its own, in the order of the endpoints. */
  lemma OwnClaims(q: Request, masters: seq<seq<string>>, rails: nat, claims: seq<Claim>)
    requires Accepted(q) && !q.vr && MastersUpTo(q, masters, rails) && Claims(claims, OfRails(q, masters, rails))
    ensures |claims| == |OfRails(q, masters, rails)|
    ensures forall k :: 0 <= k < |claims| ==>
              var e := OfRails(q, masters, rails)[k];
              claims[k].endpoints == [e] && (e.pf.Some? ==> claims[k].gpuPCI == e.pf.value.gpuPCI)
  {
    var endpoints := OfRails(q, masters, rails);
    AsksApart(q, masters, rails);
    hide OfRails, WithClaim, Accepted, Firsts;
    NothingNew(Asked(endpoints), []);
    assert Asked(endpoints) + [] == Asked(endpoints) == ClaimNames(claims);
    forall k | 0 <= k < |claims|
      ensures claims[k].endpoints == [endpoints[k]] && claims[k].gpuPCI == GpuPCI(endpoints[k])
    {
      ClaimedOnce(endpoints, k);
      assert ClaimNames(claims)[k] == Asked(endpoints)[k];
      assert IsClaim(claims[k], endpoints);
    }
  }

  // ---------- The functions of a rail ----------

  /** With rail metadata every endpoint of a rail has a function of that rail: in swplb its
      plane's own one, the first one for a plane too many, and otherwise the lowest. */
  lemma FunctionOnRail(q: Request, masters: seq<seq<string>>, rail: nat, index: nat)
    requires !(q.vr && q.mode != "swplb") && index < PerRail(q) && HasMasters(q, masters, rail)
    requires AllHaveRail(EastWest(q.pfs)) && RailPFs(EastWest(q.pfs), rail) != []
    ensures var own, pf := ByAddress(RailPFs(EastWest(q.pfs), rail)), EndpointFor(q, masters, rail, index).pf;
            && own != [] && pf.Some? && pf.value.rail == Some(rail) && pf.value.traffic == "east-west"
            && pf.value == own[if q.mode == "swplb" && index < |own| then index else 0]
  {
    hide Span, Decimal;
    var own := RailPFs(EastWest(q.pfs), rail);
    SortedByElements(own, (pf: PF) => pf.pciAddress);
    assert forall k :: 0 <= k < |own| ==> ByAddress(own)[k] in ByAddress(own);
  }

  /** In swplb the endpoints of a rail have different functions exactly when there are as
      many functions as planes. */
  lemma FunctionsApart(q: Request, masters: seq<seq<string>>, rail: nat)
    requires q.mode == "swplb" && q.planes >= 0 && HasMasters(q, masters, rail) && AllHaveRail(EastWest(q.pfs))
    requires RailPFs(EastWest(q.pfs), rail) != [] && Distinct(RailPFs(EastWest(q.pfs), rail))
    ensures (forall i, j :: 0 <= i < j < PerRail(q) ==>
               EndpointFor(q, masters, rail, i).pf != EndpointFor(q, masters, rail, j).pf)
            <==> q.planes <= |RailPFs(EastWest(q.pfs), rail)|
  {
    hide Span, Decimal, PFForRailPlane, RailPFs, EastWest, AllHaveRail;
    PlanesApart(q.pfs, rail, q.planes);
    forall i: nat | i < PerRail(q)
      ensures EndpointFor(q, masters, rail, i).pf == PFForRailPlane(q.pfs, rail, i, q.planes)
    {}
    if forall i, j :: 0 <= i < j < PerRail(q) ==> EndpointFor(q, masters, rail, i).pf != EndpointFor(q, masters, rail, j).pf {
      forall i, j | 0 <= i < j < q.planes
        ensures PFForRailPlane(q.pfs, rail, i, q.planes) != PFForRailPlane(q.pfs, rail, j, q.planes)
      {
        assert EndpointFor(q, masters, rail, i).pf != EndpointFor(q, masters, rail, j).pf;
      }
    }
  }

  // ---------- The numbers of an endpoint ----------

  /** On VR the software plane of a rail is doubled and split between its NICs, as are its
      eight planes; each NIC has one virtual function under its own request name and pool. */
  lemma VrNumbers(q: Request, masters: seq<seq<string>>, rail: nat)
    requires Accepted(q) && q.vr && HasMasters(q, masters, rail)
    ensures var a, b := EndpointFor(q, masters, rail, 0), EndpointFor(q, masters, rail, 1);
            var sw := if rail in q.swPlaneByRail then q.swPlaneByRail[rail] else 0;
            && a.swPlane == 2 * sw && b.swPlane == 2 * sw + 1 && a.hardwarePLB && b.hardwarePLB
            && a.vfCount == b.vfCount == 1 && a.vfRequestName == "vf0" && b.vfRequestName == "vf1"
            && a.claimSuffixLimit == b.claimSuffixLimit == 32
            && a.name == "rail" + Decimal(rail) + "nic0" && b.name == "rail" + Decimal(rail) + "nic1"
            && a.poolName == "rail-" + Decimal(rail) + "-nic-0" && b.poolName == "rail-" + Decimal(rail) + "-nic-1"
            && a.slots == [Slot(0, 0, rail), Slot(0, 1, rail), Slot(0, 2, rail), Slot(0, 3, rail)]
            && b.slots == [Slot(1, 4, rail), Slot(1, 5, rail), Slot(1, 6, rail), Slot(1, 7, rail)]
  {
    hide LaysOut, FindPF;
    assert Decimal(0) == "0" && Decimal(1) == "1";
    assert forall s: string :: s + "nic" + "0" == s + "nic0" && s + "nic" + "1" == s + "nic1";
    assert forall s: string :: s + "-nic-" + "0" == s + "-nic-0" && s + "-nic-" + "1" == s + "-nic-1";
  }

  /** Elsewhere a rail's endpoints have the rail's own software plane and together as many
      virtual functions as it has planes: one each in swplb, all in one otherwise. */
  lemma RailNumbers(q: Request, masters: seq<seq<string>>, rail: nat, index: nat)
    requires !q.vr && HasMasters(q, masters, rail) && index < PerRail(q)
    ensures var e := EndpointFor(q, masters, rail, index);
            && e.swPlane == (if rail in q.swPlaneByRail then q.swPlaneByRail[rail] else 0)
            && (e.hardwarePLB <==> q.mode == "hwplb") && e.vfRequestName == "vf"
            && PerRail(q) * e.vfCount == q.planes && (q.mode == "swplb" ==> e.vfCount == 1)
            && e.claimSuffixLimit == (if q.mode == "swplb" then 32 else 38)
            && e.name == "rail" + Decimal(rail) + (if q.mode == "swplb" then "p" + Decimal(index) else "")
            && e.poolName == e.claimName == "rail-" + Decimal(rail) + (if q.mode == "swplb" then "-plane-" + Decimal(index) else "")
            && forall s :: s in e.slots ==> s.nicID == s.rail == rail && (q.mode == "swplb" ==> s.plane == index)
  {
    hide PFForRailPlane, Decimal;
  }

  /** The pool of an endpoint is named like its claim, but on VR by its NIC as well. */
  lemma PoolsDiffer(q: Request, masters: seq<seq<string>>, rail: nat, index: nat, rail': nat, index': nat)
    requires Accepted(q) && HasMasters(q, masters, rail) && HasMasters(q, masters, rail')
    requires index < PerRail(q) && index' < PerRail(q)
    requires EndpointFor(q, masters, rail, index).poolName == EndpointFor(q, masters, rail', index').poolName
    ensures rail == rail' && index == index'
  {
    PoolIs(q, masters, rail, index);
    PoolIs(q, masters, rail', index');
    hide EndpointFor, LaysOut, HasMasters;
    var x, y := PoolSuffix(q, index), PoolSuffix(q, index');
    var a, b := Decimal(rail) + x, Decimal(rail') + y;
    assert ("rail-" + a)[5..] == a && ("rail-" + b)[5..] == b;
    DigitsThenMark(rail, rail', x, y);
    if q.mode == "swplb" {
      assert x[7..] == Decimal(index) && y[7..] == Decimal(index');
      DecimalInjective(index, index');
    } else if q.vr {
      assert x[5..] == Decimal(index) && y[5..] == Decimal(index');
      DecimalInjective(index, index');
    }
  }

  function PoolSuffix(q: Request, index: nat): string {
    if q.mode == "swplb" then "-plane-" + Decimal(index) else if q.vr then "-nic-" + Decimal(index) else ""
  }

  lemma PoolIs(q: Request, masters: seq<seq<string>>, rail: nat, index: nat)
    requires HasMasters(q, masters, rail) && index < PerRail(q)
    ensures EndpointFor(q, masters, rail, index).poolName == "rail-" + (Decimal(rail) + PoolSuffix(q, index))
  {
    hide PFForRailPlane, FindPF, Span;
    assert "rail-" + Decimal(rail) + "-plane-" + Decimal(index) == "rail-" + (Decimal(rail) + ("-plane-" + Decimal(index)));
    assert "rail-" + Decimal(rail) + "-nic-" + Decimal(index) == "rail-" + (Decimal(rail) + ("-nic-" + Decimal(index)));
    assert "rail-" + Decimal(rail) == "rail-" + (Decimal(rail) + "");
  }
}
