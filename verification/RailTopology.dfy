/** How physical functions, NICs and rails fit together, and which layouts the
    Spectrum-X generation accepts. */
module RailTopology {
  import opened Wrappers
  import opened Sequences
  import opened Text
  import opened Inventory

  /** PciBusDevicePrefix: the NIC of a PCI address. */
  function Nic(address: string): Option<string> {
    var k := LastIndex(address, '.');
    if k <= 0 then None else Some(address[..k])
  }

  predicate AllHaveRail(pfs: seq<PF>) { pfs != [] && forall pf :: pf in pfs ==> pf.rail.Some? }

  predicate OnRail(pf: PF, rail: int) { pf.rail == Some(rail) }

  function RailPFs(pfs: seq<PF>, rail: int): (r: seq<PF>)
    ensures forall pf :: pf in r <==> pf in pfs && OnRail(pf, rail)
  {
    if pfs == [] then [] else
      var n := |pfs| - 1;
      assert pfs == pfs[..n] + [pfs[n]];
      RailPFs(pfs[..n], rail) + if OnRail(pfs[n], rail) then [pfs[n]] else []
  }

  lemma NoRail(rail: int)
    ensures RailPFs([], rail) == []
  {}

  lemma RailAppend(pfs: seq<PF>, pf: PF, rail: int)
    ensures RailPFs(pfs + [pf], rail) == RailPFs(pfs, rail) + if OnRail(pf, rail) then [pf] else []
  {
    assert (pfs + [pf])[..|pfs|] == pfs;
  }

  /** The functions of a rail keep their order. */
  lemma {:induction false} RailInOrder(pfs: seq<PF>, more: seq<PF>, rail: int)
    ensures RailPFs(pfs + more, rail) == RailPFs(pfs, rail) + RailPFs(more, rail)
  {
    hide RailPFs, OnRail;
    if more == [] {
      assert pfs + more == pfs;
      NoRail(rail);
    } else {
      var n := |more| - 1;
      RailInOrder(pfs, more[..n], rail);
      RailAppend(more[..n], more[n], rail);
      RailAppend(pfs + more[..n], more[n], rail);
      assert more == more[..n] + [more[n]] && pfs + more == pfs + more[..n] + [more[n]];
    }
  }

  /** The NICs of the functions, in order of first occurrence. */
  function Nics(pfs: seq<PF>): seq<string> {
    if pfs == [] then [] else
      var n := |pfs| - 1;
      var front := Nics(pfs[..n]);
      match Nic(pfs[n].pciAddress)
      case None => front
      case Some(nic) => if nic in front then front else front + [nic]
  }

  lemma {:induction false} NicsMean(pfs: seq<PF>)
    ensures forall nic :: nic in Nics(pfs) <==> exists pf :: pf in pfs && Nic(pf.pciAddress) == Some(nic)
    ensures Distinct(Nics(pfs))
  {
    if pfs != [] {
      var n := |pfs| - 1;
      assert pfs == pfs[..n] + [pfs[n]];
      NicsMean(pfs[..n]);
    }
  }

  /** `address` is the lowest address of the NIC. */
  ghost predicate IsMaster(pfs: seq<PF>, nic: string, address: string) {
    && Nic(address) == Some(nic)
    && (exists pf :: pf in pfs && pf.pciAddress == address)
    && forall pf :: pf in pfs && Nic(pf.pciAddress) == Some(nic) ==> Leq(address, pf.pciAddress)
  }

  /** masterPFsByNIC: one address for each NIC, the lowest. */
  method MasterPFsByNIC(pfs: seq<PF>) returns (masters: seq<string>)
    ensures |masters| == |Nics(pfs)|
    ensures forall i :: 0 <= i < |masters| ==> IsMaster(pfs, Nics(pfs)[i], masters[i])
  {
    hide Leq, Nic, IsMaster;
    var master: map<string, string>, order := map[], [];
    for i := 0 to |pfs|
      invariant order == Nics(pfs[..i]) && forall nic :: nic in master <==> nic in order
      invariant forall nic :: nic in master ==> IsMaster(pfs[..i], nic, master[nic])
    {
      assert pfs[..i + 1][..i] == pfs[..i];
      var address := pfs[i].pciAddress;
      MasterStep(pfs[..i], pfs[i], master);
      if Nic(address).Some? {
        var nic := Nic(address).value;
        NicsMean(pfs[..i]);
        if nic !in master {
          master := master[nic := address];
          order := order + [nic];
        } else if !Leq(master[nic], address) {
          master := master[nic := address];
        }
      }
      assert pfs[..i + 1] == pfs[..i] + [pfs[i]];
    }
    assert pfs[..|pfs|] == pfs;
    masters := [];
    for i := 0 to |order|
      invariant |masters| == i && forall j :: 0 <= j < i ==> masters[j] == master[order[j]]
    {
      masters := masters + [master[order[i]]];
    }
  }

  /** One more function changes the lowest address of its own NIC only. */
  lemma MasterStep(pfs: seq<PF>, pf: PF, master: map<string, string>)
    requires forall nic :: nic in master <==> nic in Nics(pfs)
    requires forall nic :: nic in master ==> IsMaster(pfs, nic, master[nic])
    ensures forall nic :: nic in master && (Nic(pf.pciAddress) != Some(nic) || Leq(master[nic], pf.pciAddress)) ==>
              IsMaster(pfs + [pf], nic, master[nic])
    ensures match Nic(pf.pciAddress)
            case None => true
            case Some(nic) => nic !in master || !Leq(master[nic], pf.pciAddress) ==> IsMaster(pfs + [pf], nic, pf.pciAddress)
  {
    var all := pfs + [pf];
    assert pf in all && forall q :: q in pfs ==> q in all;
    NicsMean(pfs);
    LeqTotal(pf.pciAddress, pf.pciAddress);
    hide Nics, Nic;
    forall nic | nic in master && (Nic(pf.pciAddress) != Some(nic) || Leq(master[nic], pf.pciAddress))
      ensures IsMaster(all, nic, master[nic])
    {
      var q :| q in pfs && q.pciAddress == master[nic];
      assert q in all;
    }
    if Nic(pf.pciAddress).Some? {
      var nic := Nic(pf.pciAddress).value;
      if nic in master && !Leq(master[nic], pf.pciAddress) {
        LeqTotal(master[nic], pf.pciAddress);
        forall q | q in all && Nic(q.pciAddress) == Some(nic) ensures Leq(pf.pciAddress, q.pciAddress) {
          if q in pfs { LeqTransitive(pf.pciAddress, master[nic], q.pciAddress); }
        }
      }
    }
  }

  // ---------- groupPFsByRail ----------

  ghost predicate Ascending(rails: seq<int>) { forall i, j :: 0 <= i < j < |rails| ==> rails[i] < rails[j] }

  /** sort.Ints on the keys of a map. */
  method SortedKeys(keys: set<int>) returns (rails: seq<int>)
    ensures Ascending(rails) && forall r :: r in rails <==> r in keys
  {
    rails := [];
    var todo := keys;
    while todo != {}
      invariant Ascending(rails) && todo <= keys && forall r :: r in keys <==> r in rails || r in todo
      invariant forall r, s :: r in rails && s in todo ==> r < s
    {
      var least := Least(todo);
      forall i | 0 <= i < |rails| ensures rails[i] < least { assert rails[i] in rails; }
      rails, todo := rails + [least], todo - {least};
    }
  }

  lemma Inhabited(s: set<int>)
    requires s != {}
    ensures exists x :: x in s
  {
    assert (forall x :: x !in s) ==> s == {};
  }

  method Least(s: set<int>) returns (least: int)
    requires s != {}
    ensures least in s && forall x :: x in s ==> least <= x
  {
    Inhabited(s);
    var first: int :| first in s;
    least := first;
    var todo := s - {least};
    while todo != {}
      invariant todo <= s && least in s && forall x :: x in s ==> x in todo || least <= x
    {
      Inhabited(todo);
      var x: int :| x in todo;
      if x < least { least := x; }
      todo := todo - {x};
    }
  }

  ghost predicate Grouped(buckets: map<int, seq<PF>>, order: seq<int>, pfs: seq<PF>) {
    && Ascending(order) && (forall r :: r in order <==> r in buckets)
    && forall r :: (r in buckets <==> RailPFs(pfs, r) != []) && (r in buckets ==> buckets[r] == RailPFs(pfs, r))
  }

  method GroupPFsByRail(pfs: seq<PF>) returns (buckets: map<int, seq<PF>>, order: seq<int>)
    requires forall pf :: pf in pfs ==> pf.rail.Some?
    ensures Grouped(buckets, order, pfs)
  {
    buckets := map[];
    for i := 0 to |pfs|
      invariant forall r :: (r in buckets <==> RailPFs(pfs[..i], r) != []) && (r in buckets ==> buckets[r] == RailPFs(pfs[..i], r))
    {
      assert pfs[..i + 1][..i] == pfs[..i] && pfs[i] in pfs;
      var r := pfs[i].rail.value;
      buckets := buckets[r := (if r in buckets then buckets[r] else []) + [pfs[i]]];
    }
    assert pfs[..|pfs|] == pfs;
    order := SortedKeys(buckets.Keys);
  }

  // ---------- spectrumXRailLayout ----------

  /** Rails are numbered 0 .. n-1 without a gap. */
  ghost predicate Dense(pfs: seq<PF>, n: nat) { forall r :: RailPFs(pfs, r) != [] <==> 0 <= r < n }

  ghost predicate OneRailPerNic(pfs: seq<PF>) {
    forall p, q :: p in pfs && q in pfs && Nic(p.pciAddress) == Nic(q.pciAddress) ==> p.rail == q.rail
  }

  /** The layouts RA2.4/RA3.1 accepts: complete metadata, each NIC on one rail, dense rails
      with the same number of NICs, and planes a positive multiple of it. */
  ghost predicate LaysOut(pfs: seq<PF>, planes: int, layout: seq<nat>) {
    && AllHaveRail(pfs) && (forall pf :: pf in pfs ==> Nic(pf.pciAddress).Some?)
    && OneRailPerNic(pfs) && Dense(pfs, |layout|) && layout != []
    && (forall r :: 0 <= r < |layout| ==> layout[r] == |Nics(RailPFs(pfs, r))| == layout[0] > 0)
    && planes >= 1 && planes % layout[0] == 0
  }

  ghost predicate NoLayout(pfs: seq<PF>, planes: int) { forall layout: seq<nat> :: !LaysOut(pfs, planes, layout) }

  /** The loop that assigns each NIC its rail. */
  method CheckNics(pfs: seq<PF>) returns (ok: bool)
    requires AllHaveRail(pfs)
    ensures ok <==> (forall pf :: pf in pfs ==> Nic(pf.pciAddress).Some?) && OneRailPerNic(pfs)
  {
    hide Nic;
    var nicRails: map<string, int> := map[];
    for i := 0 to |pfs|
      invariant forall j :: 0 <= j < i ==> Nic(pfs[j].pciAddress).Some?
      invariant forall j :: 0 <= j < i ==> Nic(pfs[j].pciAddress).value in nicRails
                                           && pfs[j].rail == Some(nicRails[Nic(pfs[j].pciAddress).value])
      invariant forall nic :: nic in nicRails ==> exists j :: 0 <= j < i && Nic(pfs[j].pciAddress) == Some(nic)
    {
      var nic := Nic(pfs[i].pciAddress);
      assert pfs[i] in pfs;
      if nic.None? { return false; }
      if nic.value in nicRails && nicRails[nic.value] != pfs[i].rail.value {
        ghost var j :| 0 <= j < i && Nic(pfs[j].pciAddress) == nic;
        assert pfs[j] in pfs && pfs[j].rail != pfs[i].rail;
        return false;
      }
      nicRails := nicRails[nic.value := pfs[i].rail.value];
    }
    ok := true;
  }

  lemma DenseSoFar(pfs: seq<PF>, buckets: map<int, seq<PF>>, order: seq<int>, i: nat)
    requires Grouped(buckets, order, pfs) && i < |order| && forall j :: 0 <= j < i ==> order[j] == j
    ensures order[i] != i ==> forall n: nat :: !Dense(pfs, n)
  {
    hide RailPFs;
    var r := order[i];
    assert r in order && RailPFs(pfs, r) != [];
    if i > 0 { assert order[i - 1] < order[i]; }
    if r > i {
      assert i !in order;
      assert RailPFs(pfs, i) == [];
    }
  }

  /** The loop over the rails in order. */
  method CountNics(pfs: seq<PF>, buckets: map<int, seq<PF>>, order: seq<int>) returns (layout: Option<seq<nat>>)
    requires Grouped(buckets, order, pfs) && order != [] && forall pf :: pf in pfs ==> Nic(pf.pciAddress).Some?
    ensures layout.Some? ==> Dense(pfs, |order|) && |layout.value| == |order|
    ensures layout.Some? ==> forall r :: 0 <= r < |order| ==>
              layout.value[r] == |Nics(RailPFs(pfs, r))| == layout.value[0] > 0
    ensures layout.None? ==> forall planes: int :: NoLayout(pfs, planes)
  {
    hide RailPFs, Nics, Nic;
    var counts: seq<nat> := [];
    for i := 0 to |order|
      invariant |counts| == i && forall j :: 0 <= j < i ==> order[j] == j
      invariant forall j :: 0 <= j < i ==> counts[j] == |Nics(RailPFs(pfs, j))| == counts[0] > 0
    {
      DenseSoFar(pfs, buckets, order, i);
      if order[i] != i { return None; }
      assert i in order;
      var masters := MasterPFsByNIC(buckets[i]);
      SomeNic(pfs, i);
      if |masters| == 0 { return None; }
      counts := counts + [|masters|];
      if counts[i] != counts[0] {
        Uneven(pfs, i);
        return None;
      }
    }
    DenseNow(pfs, buckets, order);
    layout := Some(counts);
  }

  lemma DenseNow(pfs: seq<PF>, buckets: map<int, seq<PF>>, order: seq<int>)
    requires Grouped(buckets, order, pfs) && forall j :: 0 <= j < |order| ==> order[j] == j
    ensures Dense(pfs, |order|)
  {
    hide RailPFs;
    forall r ensures RailPFs(pfs, r) != [] <==> 0 <= r < |order| {
      if 0 <= r < |order| { assert order[r] in order; }
    }
  }

  lemma SomeNic(pfs: seq<PF>, r: int)
    requires RailPFs(pfs, r) != [] && forall pf :: pf in pfs ==> Nic(pf.pciAddress).Some?
    ensures Nics(RailPFs(pfs, r)) != []
  {
    hide Nic;
    var pf := RailPFs(pfs, r)[0];
    assert pf in RailPFs(pfs, r);
    NicsMean(RailPFs(pfs, r));
  }

  /** Two occupied rails with different counts rule every layout out. */
  lemma Uneven(pfs: seq<PF>, r: nat)
    requires RailPFs(pfs, r) != [] && |Nics(RailPFs(pfs, r))| != |Nics(RailPFs(pfs, 0))|
    ensures forall planes: int :: NoLayout(pfs, planes)
  {
    hide RailPFs, Nics, AllHaveRail, OneRailPerNic, Nic;
    forall planes: int, layout: seq<nat> ensures !LaysOut(pfs, planes, layout) {
      assert Dense(pfs, |layout|) ==> 0 <= r < |layout|;
    }
  }

  lemma LayoutUnique(pfs: seq<PF>, planes: int, a: seq<nat>, b: seq<nat>)
    requires LaysOut(pfs, planes, a) && Dense(pfs, |b|)
    requires forall r :: 0 <= r < |b| ==> b[r] == |Nics(RailPFs(pfs, r))|
    ensures a == b
  {
    hide RailPFs, Nics, AllHaveRail, OneRailPerNic, Nic;
    assert RailPFs(pfs, |a|) == [] && RailPFs(pfs, |b|) == [];
  }

  /** spectrumXRailLayout on the east-west functions. */
  method SpectrumXRailLayout(pfs: seq<PF>, planes: int) returns (layout: Option<seq<nat>>)
    ensures layout.Some? ==> LaysOut(pfs, planes, layout.value)
    ensures layout.None? ==> NoLayout(pfs, planes)
  {
    hide RailPFs, Nics, OneRailPerNic, Nic;
    if |pfs| == 0 || exists pf :: pf in pfs && pf.rail.None? { return None; }
    var ok := CheckNics(pfs);
    if !ok { return None; }
    var buckets, order := GroupPFsByRail(pfs);
    SomeRail(pfs, buckets, order);
    layout := CountNics(pfs, buckets, order);
    if layout.None? { return; }
    if planes < 1 || planes % layout.value[0] != 0 {
      forall other: seq<nat> ensures !LaysOut(pfs, planes, other) {
        if LaysOut(pfs, planes, other) { LayoutUnique(pfs, planes, other, layout.value); }
      }
      return None;
    }
  }

  lemma SomeRail(pfs: seq<PF>, buckets: map<int, seq<PF>>, order: seq<int>)
    requires Grouped(buckets, order, pfs) && AllHaveRail(pfs)
    ensures order != []
  {
    assert pfs[0] in pfs && pfs[0] in RailPFs(pfs, pfs[0].rail.value);
  }

  // ---------- railPciGroups, railCount and spectrumXPfsPerNic ----------

  function AtLeastOne(planes: int): nat { if planes < 1 then 1 else planes }

  function Addresses(pfs: seq<PF>): (r: seq<string>)
    ensures |r| == |pfs| && forall i :: 0 <= i < |r| ==> r[i] == pfs[i].pciAddress
  {
    seq(|pfs|, i requires 0 <= i < |pfs| => pfs[i].pciAddress)
  }

  /** The addresses cut into chunks of `size`, the last one possibly shorter. */
  ghost predicate Chunked(chunks: seq<seq<string>>, addresses: seq<string>, size: nat) {
    && Concat(chunks) == addresses
    && forall i :: 0 <= i < |chunks| ==> if i + 1 < |chunks| then |chunks[i]| == size else 0 < |chunks[i]| <= size
  }

  /** The fallback for inventories without rail metadata. */
  method ChunkAddresses(pfs: seq<PF>, size: nat) returns (chunks: seq<seq<string>>)
    requires size > 0
    ensures Chunked(chunks, Addresses(pfs), size)
  {
    chunks := [];
    var all := Addresses(pfs);
    var i := 0;
    while i < |pfs|
      invariant i < |pfs| + size && Concat(chunks) == all[..if i < |pfs| then i else |pfs|]
      invariant forall j :: 0 <= j < |chunks| ==>
                  if j + 1 < |chunks| || i <= |pfs| then |chunks[j]| == size else 0 < |chunks[j]| <= size
    {
      var end := if i + size > |pfs| then |pfs| else i + size;
      assert (chunks + [all[i..end]])[..|chunks|] == chunks && all[..i] + all[i..end] == all[..end];
      chunks := chunks + [all[i..end]];
      i := i + size;
    }
    assert all[..|pfs|] == all;
  }

  /** One list of master addresses for each rail, in rail order. */
  ghost predicate MasterLists(groups: seq<seq<string>>, pfs: seq<PF>, order: seq<int>) {
    && |groups| == |order|
    && forall i :: 0 <= i < |groups| ==>
       && |groups[i]| == |Nics(RailPFs(pfs, order[i]))|
       && forall n :: 0 <= n < |groups[i]| ==> IsMaster(RailPFs(pfs, order[i]), Nics(RailPFs(pfs, order[i]))[n], groups[i][n])
  }

  ghost predicate RailOrder(order: seq<int>, pfs: seq<PF>) {
    Ascending(order) && forall r :: r in order <==> RailPFs(pfs, r) != []
  }

  method RailPciGroups(pfs: seq<PF>, planes: int) returns (groups: seq<seq<string>>, ghost order: seq<int>)
    ensures !AllHaveRail(EastWest(pfs)) ==> Chunked(groups, Addresses(EastWest(pfs)), AtLeastOne(planes))
    ensures AllHaveRail(EastWest(pfs)) ==> RailOrder(order, EastWest(pfs)) && MasterLists(groups, EastWest(pfs), order)
  {
    hide RailPFs, Nics, IsMaster, EastWest, Chunked;
    var ew := EastWest(pfs);
    order := [];
    if !AllHaveRail(ew) {
      groups := ChunkAddresses(ew, AtLeastOne(planes));
      return;
    }
    var buckets, rails := GroupPFsByRail(ew);
    order := rails;
    groups := [];
    for i := 0 to |rails|
      invariant MasterLists(groups, ew, rails[..i])
    {
      assert rails[i] in rails;
      var masters := MasterPFsByNIC(buckets[rails[i]]);
      groups := groups + [masters];
    }
    assert rails[..|rails|] == rails;
  }

  method RailCount(pfs: seq<PF>, planes: int) returns (n: nat, ghost order: seq<int>)
    ensures !AllHaveRail(EastWest(pfs)) ==> n == |EastWest(pfs)| / AtLeastOne(planes)
    ensures AllHaveRail(EastWest(pfs)) ==> RailOrder(order, EastWest(pfs)) && n == |order|
  {
    hide RailPFs, EastWest;
    var ew := EastWest(pfs);
    order := [];
    if !AllHaveRail(ew) { return |ew| / AtLeastOne(planes), order; }
    var buckets, rails := GroupPFsByRail(ew);
    order := rails;
    assert forall r :: r in buckets.Keys <==> r in rails;
    assert buckets.Keys == (set r | r in rails);
    AscendingCount(rails);
    n := |buckets|;
  }

  lemma {:induction false} AscendingCount(rails: seq<int>)
    requires Ascending(rails)
    ensures |set r | r in rails| == |rails|
  {
    if rails != [] {
      var n := |rails| - 1;
      AscendingCount(rails[..n]);
      assert (set r | r in rails) == (set r | r in rails[..n]) + {rails[n]};
    }
  }

  lemma LastIsGreatest(a: seq<int>)
    requires Ascending(a) && a != []
    ensures a[|a| - 1] in a && Ascending(a[..|a| - 1])
    ensures forall r :: r in a ==> r <= a[|a| - 1]
    ensures forall r :: r in a[..|a| - 1] <==> r in a && r != a[|a| - 1]
  {
    var m := |a| - 1;
    assert a == a[..m] + [a[m]];
    forall r | r in a ensures r <= a[m] { var i :| 0 <= i < |a| && a[i] == r; }
    forall r | r in a[..m] ensures r != a[m] { var i :| 0 <= i < m && a[i] == r; }
  }

  /** Two ascending lists of the same numbers are the same list. */
  lemma {:induction false} SameAscending(a: seq<int>, b: seq<int>)
    requires Ascending(a) && Ascending(b) && forall r :: r in a <==> r in b
    ensures a == b
  {
    hide Ascending;
    if a == [] {
      EmptyToo(a, b);
    } else if b == [] {
      EmptyToo(b, a);
    } else {
      LastIsGreatest(a);
      LastIsGreatest(b);
      var m, n := |a| - 1, |b| - 1;
      assert a[m] == b[n];
      forall r ensures r in a[..m] <==> r in b[..n] { assert r in a <==> r in b; }
      SameAscending(a[..m], b[..n]);
      assert a == a[..m] + [a[m]] && b == b[..n] + [b[n]];
    }
  }

  lemma EmptyToo(a: seq<int>, b: seq<int>)
    requires a == [] && forall r :: r in a <==> r in b
    ensures b == []
  {
    if b != [] { var r := SomeElement(b); }
  }

  lemma SomeElement(s: seq<int>) returns (r: int)
    requires s != []
    ensures r in s
  {
    r := s[0];
  }

  method SpectrumXPfsPerNic(pfs: seq<PF>, planes: int) returns (n: nat)
    ensures n >= 1
    ensures forall layout :: LaysOut(EastWest(pfs), planes, layout) ==> forall r :: 0 <= r < |layout| ==> n * layout[r] == planes
  {
    hide RailPFs, Nics, EastWest, OneRailPerNic, Nic, IsMaster;
    var atLeast := AtLeastOne(planes);
    var groups, order := RailPciGroups(pfs, atLeast);
    n := if |groups| == 0 || |groups[0]| == 0 then atLeast else atLeast / |groups[0]|;
    if n < 1 { n := 1; }
    forall layout | LaysOut(EastWest(pfs), planes, layout)
      ensures forall r :: 0 <= r < |layout| ==> n * layout[r] == planes
    {
      LaidOutOrder(EastWest(pfs), planes, layout, order);
      ExactQuotient(planes, layout[0]);
    }
  }

  lemma ExactQuotient(a: int, b: int)
    requires a >= 1 && b >= 1 && a % b == 0
    ensures a / b * b == a && a / b >= 1
  {}

  /** An accepted layout counts the rails 0 .. n-1. */
  lemma LaidOutOrder(pfs: seq<PF>, planes: int, layout: seq<nat>, order: seq<int>)
    requires LaysOut(pfs, planes, layout) && RailOrder(order, pfs)
    ensures order == seq(|layout|, i => i)
  {
    hide RailPFs, Nics, OneRailPerNic, Nic;
    var all := seq(|layout|, i => i);
    forall r ensures r in all <==> 0 <= r < |layout| {
      if 0 <= r < |layout| { assert all[r] == r; }
    }
    SameAscending(order, all);
  }

  // ---------- spectrumXPFForRailPlane ----------

  function ByAddress(pfs: seq<PF>): seq<PF> { SortedBy(pfs, (pf: PF) => pf.pciAddress) }

  /** None stands for the zero PFConfig. */
  function PFForRailPlane(pfs: seq<PF>, rail: nat, plane: nat, planes: int): (r: Option<PF>)
    ensures r.Some? ==> r.value in pfs && IsEastWest(r.value)
  {
    var ew := EastWest(pfs);
    if ew == [] then None else
    if AllHaveRail(ew) then
      var sorted := ByAddress(RailPFs(ew, rail));
      SortedByElements(RailPFs(ew, rail), (pf: PF) => pf.pciAddress);
      assert forall i :: 0 <= i < |sorted| ==> sorted[i] in sorted;
      if plane < |sorted| then Some(sorted[plane]) else if |sorted| > 0 then Some(sorted[0]) else None
    else
      var size := AtLeastOne(planes);
      if rail * size + plane < |ew| then Some(ew[rail * size + plane])
      else if rail * size < |ew| then Some(ew[rail * size]) else None
  }

  /** A rail with enough functions serves its planes with them, in address order. */
  lemma PlanesUseEachPF(pfs: seq<PF>, rail: nat, planes: nat)
    requires AllHaveRail(EastWest(pfs)) && |RailPFs(EastWest(pfs), rail)| >= planes
    ensures var own := RailPFs(EastWest(pfs), rail);
            && (forall p :: 0 <= p < planes ==> PFForRailPlane(pfs, rail, p, planes) == Some(ByAddress(own)[p]))
            && multiset(ByAddress(own)) == multiset(own) && IsSorted(Addresses(ByAddress(own)))
  {
    hide RailPFs, IsSorted;
    var own := RailPFs(EastWest(pfs), rail);
    SortedByKeys(own, (pf: PF) => pf.pciAddress);
    assert KeysOf(ByAddress(own), (pf: PF) => pf.pciAddress) == Addresses(ByAddress(own));
  }

  /** The planes of a rail have functions of their own exactly when there are enough of
      them: beyond the last one the program falls back to the first. */
  lemma PlanesApart(pfs: seq<PF>, rail: nat, planes: nat)
    requires AllHaveRail(EastWest(pfs)) && RailPFs(EastWest(pfs), rail) != [] && Distinct(RailPFs(EastWest(pfs), rail))
    ensures (forall p, q :: 0 <= p < q < planes ==> PFForRailPlane(pfs, rail, p, planes) != PFForRailPlane(pfs, rail, q, planes))
            <==> planes <= |RailPFs(EastWest(pfs), rail)|
  {
    hide RailPFs, EastWest;
    var own := RailPFs(EastWest(pfs), rail);
    DistinctCounts(own);
    DistinctCounts(ByAddress(own));
    if planes > |own| {
      assert PFForRailPlane(pfs, rail, 0, planes) == PFForRailPlane(pfs, rail, |own|, planes);
    }
  }

  lemma SoleFunction(pf: PF)
    ensures ByAddress([pf]) == [pf]
  {
    SortedByElements([pf], (x: PF) => x.pciAddress);
    assert ByAddress([pf])[0] in ByAddress([pf]);
  }

  /** The NIC of an address is what comes before its last dot. */
  lemma NicMeans(nic: string, function_: string)
    requires '.' !in function_
    ensures Nic(nic + "." + function_) == if nic == "" then None else Some(nic)
    ensures Nic(function_) == None
  {
    var a := nic + "." + function_;
    assert a[|nic|] == '.' && forall i :: |nic| < i < |a| ==> a[i] == function_[i - |nic| - 1];
    assert LastIndex(a, '.') == |nic| && a[..|nic|] == nic;
  }

  /** Without rail metadata the functions are dealt out in their order, as many for each
      rail as it has planes, or one; where one is missing the rail's first stands in. */
  lemma DealtOut(pfs: seq<PF>, rail: nat, plane: nat, planes: int)
    requires EastWest(pfs) != [] && !AllHaveRail(EastWest(pfs))
    ensures var ew, at := EastWest(pfs), rail * if planes < 1 then 1 else planes;
            PFForRailPlane(pfs, rail, plane, planes) ==
            if at + plane < |ew| then Some(ew[at + plane]) else if at < |ew| then Some(ew[at]) else None
  {}
}
