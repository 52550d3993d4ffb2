/** The discovered hardware: groups of like nodes and their physical functions. */
module Inventory {
  import opened Wrappers

  datatype PF = PF(pciAddress: string, rail: Option<int>, traffic: string, gpuPCI: string)

  datatype SpectrumX = SpectrumX(swPlaneByRail: map<int, int>, netdevPrefix: string)

  /** A ClusterConfig entry. */
  datatype Group = Group(identifier: string, mergedIdentifier: string, machineType: string, gpuType: string,
                         pfs: seq<PF>, workerNodes: seq<string>, spectrumX: Option<SpectrumX>,
                         railPciAddresses: seq<seq<string>>)

  predicate IsEastWest(pf: PF) { pf.traffic == "east-west" }

  /** FilterEastWestPFs. */
  function EastWest(pfs: seq<PF>): (r: seq<PF>)
    ensures forall pf :: pf in r <==> pf in pfs && IsEastWest(pf)
  {
    if pfs == [] then [] else
      var n := |pfs| - 1;
      assert pfs == pfs[..n] + [pfs[n]];
      EastWest(pfs[..n]) + if IsEastWest(pfs[n]) then [pfs[n]] else []
  }

  lemma NoEastWest()
    ensures EastWest([]) == []
  {}

  lemma EastWestAppend(pfs: seq<PF>, pf: PF)
    ensures EastWest(pfs + [pf]) == EastWest(pfs) + if IsEastWest(pf) then [pf] else []
  {
    assert (pfs + [pf])[..|pfs|] == pfs;
  }

  /** The east-west functions of a list keep their order. */
  lemma {:induction false} EastWestInOrder(pfs: seq<PF>, more: seq<PF>)
    ensures EastWest(pfs + more) == EastWest(pfs) + EastWest(more)
  {
    hide EastWest, IsEastWest;
    if more == [] {
      assert pfs + more == pfs;
      NoEastWest();
    } else {
      var n := |more| - 1;
      EastWestInOrder(pfs, more[..n]);
      EastWestAppend(more[..n], more[n]);
      EastWestAppend(pfs + more[..n], more[n]);
      assert more == more[..n] + [more[n]] && pfs + more == pfs + more[..n] + [more[n]];
    }
  }

  function Ids(groups: seq<Group>): (r: seq<string>)
    ensures |r| == |groups| && forall i :: 0 <= i < |r| ==> r[i] == groups[i].identifier
  {
    seq(|groups|, i requires 0 <= i < |groups| => groups[i].identifier)
  }

  ghost predicate DistinctIds(groups: seq<Group>) {
    forall i, j :: 0 <= i < j < |groups| ==> groups[i].identifier != groups[j].identifier
  }

  function Workers(groups: seq<Group>): seq<string> {
    if groups == [] then [] else Workers(groups[..|groups| - 1]) + groups[|groups| - 1].workerNodes
  }

  /** The groups that satisfy `p`, in order. */
  function Keep(groups: seq<Group>, p: Group -> bool): (r: seq<Group>)
    ensures forall g :: g in r <==> g in groups && p(g)
    ensures |r| <= |groups|
  {
    if groups == [] then [] else
      var n := |groups| - 1;
      assert groups == groups[..n] + [groups[n]];
      Keep(groups[..n], p) + if p(groups[n]) then [groups[n]] else []
  }

  lemma {:induction false} KeepDistinct(groups: seq<Group>, p: Group -> bool)
    requires DistinctIds(groups)
    ensures DistinctIds(Keep(groups, p))
  {
    if groups != [] {
      var n := |groups| - 1;
      KeepDistinct(groups[..n], p);
      var front := Keep(groups[..n], p);
      forall i | 0 <= i < |front| ensures front[i].identifier != groups[n].identifier { assert front[i] in groups[..n]; }
    }
  }

  lemma {:induction false} KeepTwice(groups: seq<Group>, p: Group -> bool, q: Group -> bool)
    ensures Keep(Keep(groups, p), q) == Keep(Keep(groups, q), p)
  {
    if groups != [] {
      var n := |groups| - 1;
      KeepTwice(groups[..n], p, q);
      KeepAppend(Keep(groups[..n], p), q, groups[n]);
      KeepAppend(Keep(groups[..n], q), p, groups[n]);
    }
  }

  lemma KeepAppend(groups: seq<Group>, p: Group -> bool, g: Group)
    ensures Keep(groups + [g], p) == Keep(groups, p) + if p(g) then [g] else []
    ensures groups + [] == groups
  {
    assert (groups + [g])[..|groups|] == groups;
  }

  /** A filter drops something exactly when the result is shorter. */
  lemma {:induction false} KeepAll(groups: seq<Group>, p: Group -> bool)
    ensures |Keep(groups, p)| == |groups| <==> forall g :: g in groups ==> p(g)
    ensures (forall g :: g in groups ==> p(g)) ==> Keep(groups, p) == groups
  {
    if groups != [] {
      var n := |groups| - 1;
      assert groups == groups[..n] + [groups[n]];
      KeepAll(groups[..n], p);
    }
  }

  lemma {:induction false} KeepSame(groups: seq<Group>, p: Group -> bool, q: Group -> bool)
    requires forall g :: g in groups ==> p(g) == q(g)
    ensures Keep(groups, p) == Keep(groups, q)
  {
    if groups != [] {
      var n := |groups| - 1;
      assert groups == groups[..n] + [groups[n]];
      KeepSame(groups[..n], p, q);
    }
  }
}
