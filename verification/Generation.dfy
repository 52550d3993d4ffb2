/** The checks that run before Spectrum-X manifests are generated. */
module Generation {
  import opened Wrappers
  import opened Inventory
  import opened RailTopology
  import opened Endpoints

  /** `formatOk` is the verdict on the naming formats. */
  datatype Profile = Profile(dospcx: bool, hasOvsConfig: bool, mode: string, planes: int, formatOk: bool)

  /** The internal platform list and the device lookup. */
  type Platforms = Group -> string
  type Devices = Group -> Option<string>

  function SwPlanes(g: Group): map<int, int> { if g.spectrumX.Some? then g.spectrumX.value.swPlaneByRail else map[] }

  // ---------- swPlaneByRail ----------

  ghost predicate SwPlanesOk(g: Group, mode: string) {
    var ew := EastWest(g.pfs);
    && (forall pf :: pf in ew ==> pf.rail.Some?)
    && (exists n: nat :: Dense(ew, n))
    && forall rail :: rail in SwPlanes(g) ==>
       && RailPFs(ew, rail) != [] && SwPlanes(g)[rail] >= 0
       && (mode != "hwplb" ==> SwPlanes(g)[rail] == 0)
  }

  method RailSet(pfs: seq<PF>) returns (rails: Option<set<int>>)
    ensures rails.None? <==> exists pf :: pf in pfs && pf.rail.None?
    ensures rails.Some? ==> forall r :: r in rails.value <==> RailPFs(pfs, r) != []
  {
    var found := {};
    for i := 0 to |pfs|
      invariant forall j :: 0 <= j < i ==> pfs[j].rail.Some?
      invariant forall r :: r in found <==> RailPFs(pfs[..i], r) != []
    {
      assert pfs[..i + 1][..i] == pfs[..i] && pfs[i] in pfs;
      if pfs[i].rail.None? { return None; }
      found := found + {pfs[i].rail.value};
    }
    assert pfs[..|pfs|] == pfs;
    rails := Some(found);
  }

  /** A set with as many elements as it has of 0 .. n-1 is exactly that. */
  lemma DenseSet(pfs: seq<PF>, rails: set<int>, upTo: nat)
    requires forall r :: r in rails <==> RailPFs(pfs, r) != []
    requires upTo <= |rails| && forall r :: 0 <= r < upTo ==> r in rails
    ensures upTo == |rails| ==> Dense(pfs, upTo)
    ensures upTo < |rails| && upTo !in rails ==> forall n: nat :: !Dense(pfs, n)
  {
    hide RailPFs;
    var low := Range(upTo);
    assert low <= rails && |rails - low| == |rails| - upTo;
    if upTo == |rails| {
      assert rails - low == {};
      assert forall r :: r in rails ==> r !in rails - low;
    } else if upTo !in rails {
      var more := rails - low;
      Inhabited(more);
      var r: int :| r in more;
      assert RailPFs(pfs, r) != [] && RailPFs(pfs, upTo) == [];
    }
  }

  function Range(n: nat): (s: set<int>)
    ensures |s| == n && forall r :: r in s <==> 0 <= r < n
  {
    if n == 0 then {} else Range(n - 1) + {n - 1}
  }

  /** validateSpectrumXSwPlanes. */
  method ValidateSwPlanes(g: Group, mode: string) returns (ok: bool)
    ensures ok <==> SwPlanesOk(g, mode)
  {
    hide RailPFs, EastWest;
    var ew := EastWest(g.pfs);
    var rails := RailSet(ew);
    if rails.None? { return false; }
    for rail := 0 to |rails.value|
      invariant forall r :: 0 <= r < rail ==> r in rails.value
    {
      DenseSet(ew, rails.value, rail);
      if rail !in rails.value { return false; }
    }
    DenseSet(ew, rails.value, |rails.value|);
    var keys := SortedKeys(SwPlanes(g).Keys);
    for i := 0 to |keys|
      invariant forall j :: 0 <= j < i ==>
                  && keys[j] in SwPlanes(g) && keys[j] in rails.value && SwPlanes(g)[keys[j]] >= 0
                  && (mode != "hwplb" ==> SwPlanes(g)[keys[j]] == 0)
    {
      var rail := keys[i];
      assert rail in keys;
      if rail !in rails.value { return false; }
      if SwPlanes(g)[rail] < 0 { return false; }
      if mode != "hwplb" && SwPlanes(g)[rail] != 0 { return false; }
    }
    assert forall rail :: rail in SwPlanes(g) ==> rail in keys;
    ok := true;
  }

  // ---------- validateSpectrumXGeneration ----------

  ghost predicate PlatformOk(p: Profile, g: Group, platform: string, device: Option<string>) {
    && (platform == "vr" ==>
          && LaysOut(EastWest(g.pfs), p.planes, [2, 2, 2, 2]) && p.mode == "hwplb" && p.planes == 8
          && forall rail :: rail in SwPlanes(g) ==> SwPlanes(g)[rail] == 0)
    && (platform == "rtx" ==> device == Some("1023") && p.mode == "none" && p.planes == 1)
  }

  ghost predicate GroupOk(p: Profile, g: Group, platforms: Platforms, devices: Devices) {
    && (SwPlanes(g) != map[] ==> p.dospcx && SwPlanesOk(g, p.mode))
    && (p.dospcx ==>
          && platforms(g) != "" && !NoLayout(EastWest(g.pfs), p.planes)
          && PlatformOk(p, g, platforms(g), devices(g)))
  }

  ghost predicate Generatable(p: Profile, groups: seq<Group>, platforms: Platforms, devices: Devices) {
    && (p.hasOvsConfig ==> p.dospcx)
    && (forall g :: g in groups ==> GroupOk(p, g, platforms, devices))
    && (p.dospcx ==> p.formatOk)
  }

  /** The body of the loop; a group without a platform is reported at the end. */
  method ValidateGroup(p: Profile, g: Group, platforms: Platforms, devices: Devices) returns (ok: bool, resolved: bool)
    ensures ok && resolved <==> GroupOk(p, g, platforms, devices)
  {
    hide SwPlanesOk, LaysOut, EastWest;
    if |SwPlanes(g)| > 0 {
      if !p.dospcx { return false, true; }
      ok := ValidateSwPlanes(g, p.mode);
      if !ok { return false, true; }
    }
    if !p.dospcx { return true, true; }
    var platform := platforms(g);
    if platform == "" { return true, false; }
    var layout := SpectrumXRailLayout(EastWest(g.pfs), p.planes);
    if layout.None? { return false, true; }
    OneLayout(EastWest(g.pfs), p.planes, layout.value, [2, 2, 2, 2]);
    if platform == "vr" && layout.value != [2, 2, 2, 2] { return false, true; }
    if platform == "vr" && (p.mode != "hwplb" || p.planes != 8) { return false, true; }
    if platform == "vr" && exists rail :: rail in SwPlanes(g).Keys && SwPlanes(g)[rail] != 0 { return false, true; }
    if platform == "rtx" {
      var device := devices(g);
      if device != Some("1023") || p.mode != "none" || p.planes != 1 { return false, true; }
    }
    return true, true;
  }

  lemma OneLayout(pfs: seq<PF>, planes: int, a: seq<nat>, b: seq<nat>)
    requires LaysOut(pfs, planes, a)
    ensures LaysOut(pfs, planes, b) ==> a == b
  {
    hide RailPFs, Nics, Nic, OneRailPerNic;
    if LaysOut(pfs, planes, b) { LayoutUnique(pfs, planes, a, b); }
  }

  method ValidateSpectrumXGeneration(p: Profile, groups: seq<Group>, platforms: Platforms, devices: Devices) returns (ok: bool)
    ensures ok <==> Generatable(p, groups, platforms, devices)
  {
    hide GroupOk;
    if p.hasOvsConfig && !p.dospcx { return false; }
    var unresolved: seq<Group> := [];
    for i := 0 to |groups|
      invariant unresolved == [] <==> forall j :: 0 <= j < i ==> GroupOk(p, groups[j], platforms, devices)
      invariant forall g :: g in unresolved ==> g in groups && !GroupOk(p, g, platforms, devices)
    {
      var valid, resolved := ValidateGroup(p, groups[i], platforms, devices);
      assert groups[i] in groups;
      if !valid { return false; }
      if !resolved { unresolved := unresolved + [groups[i]]; }
    }
    if |unresolved| > 0 {
      assert unresolved[0] in unresolved;
      return false;
    }
    ok := p.dospcx ==> p.formatOk;
  }

  /** Some function is on the rail. */
  ghost predicate HasRail(pfs: seq<PF>, rail: int) { exists pf :: pf in pfs && pf.rail == Some(rail) }

  ghost predicate RailsUpTo(pfs: seq<PF>, n: nat) { forall rail :: HasRail(pfs, rail) <==> 0 <= rail < n }

  /** Every east-west function has its rail, the rails are 0 .. n-1, and planes are given
      for known rails, none negative, and none but 0 outside hwplb. */
  ghost predicate PlanesInOrder(pfs: seq<PF>, planes: map<int, int>, mode: string) {
    && (forall pf :: pf in pfs ==> pf.rail.Some?) && (exists n: nat :: RailsUpTo(pfs, n))
    && forall rail :: rail in planes ==> HasRail(pfs, rail) && planes[rail] >= 0 && (mode != "hwplb" ==> planes[rail] == 0)
  }

  lemma SwPlanesMean(g: Group, mode: string)
    ensures SwPlanesOk(g, mode) <==> PlanesInOrder(EastWest(g.pfs), SwPlanes(g), mode)
  {
    var ew := EastWest(g.pfs);
    forall rail ensures RailPFs(ew, rail) != [] <==> HasRail(ew, rail) {
      if RailPFs(ew, rail) != [] { assert RailPFs(ew, rail)[0] in RailPFs(ew, rail); }
    }
    hide RailPFs, EastWest, HasRail;
    forall n: nat ensures Dense(ew, n) <==> RailsUpTo(ew, n) {}
  }

  /** With the doSPCX flow a group has a known platform and a layout: on VR four rails of two
      NICs in eight hardware planes and no software plane but 0, on RTX a single plane on a
      1023 device. */
  ghost predicate InOrder(p: Profile, g: Group, platform: string, device: Option<string>) {
    && platform != "" && (exists layout :: LaysOut(EastWest(g.pfs), p.planes, layout))
    && (platform == "vr" ==>
          && p.mode == "hwplb" && p.planes == 8 && LaysOut(EastWest(g.pfs), 8, [2, 2, 2, 2])
          && (g.spectrumX.Some? ==> forall rail :: rail in g.spectrumX.value.swPlaneByRail ==> g.spectrumX.value.swPlaneByRail[rail] == 0))
    && (platform == "rtx" ==> p.mode == "none" && p.planes == 1 && device == Some("1023"))
  }

  lemma GroupMeans(p: Profile, g: Group, platforms: Platforms, devices: Devices)
    ensures GroupOk(p, g, platforms, devices) <==>
            && (g.spectrumX.Some? && g.spectrumX.value.swPlaneByRail != map[] ==>
                  p.dospcx && PlanesInOrder(EastWest(g.pfs), g.spectrumX.value.swPlaneByRail, p.mode))
            && (p.dospcx ==> InOrder(p, g, platforms(g), devices(g)))
  {
    SwPlanesMean(g, p.mode);
    hide LaysOut, EastWest, SwPlanesOk, PlanesInOrder;
  }

  /** What is accepted: software planes and settings of the doSPCX flow only with it, a
      naming format, and every group in order. */
  lemma GeneratableMeans(p: Profile, groups: seq<Group>, platforms: Platforms, devices: Devices)
    ensures Generatable(p, groups, platforms, devices) <==>
            && (p.hasOvsConfig ==> p.dospcx) && (p.dospcx ==> p.formatOk)
            && (forall g :: g in groups && g.spectrumX.Some? && g.spectrumX.value.swPlaneByRail != map[] ==>
                  p.dospcx && PlanesInOrder(EastWest(g.pfs), g.spectrumX.value.swPlaneByRail, p.mode))
            && forall g :: g in groups && p.dospcx ==> InOrder(p, g, platforms(g), devices(g))
  {
    hide GroupOk, InOrder, PlanesInOrder, EastWest;
    forall g { GroupMeans(p, g, platforms, devices); }
  }

  // ---------- What acceptance buys ----------

  function RequestFor(p: Profile, g: Group, platforms: Platforms): Request {
    Request(p.mode, p.planes, platforms(g) == "vr", g.pfs, SwPlanes(g))
  }

  /** An accepted group has a layout, its NICs lie on one rail each, and its endpoint
      request never looks past its masters and covers the profile's planes. */
  lemma AcceptedGroup(p: Profile, groups: seq<Group>, g: Group, platforms: Platforms, devices: Devices)
    requires p.dospcx && g in groups && Generatable(p, groups, platforms, devices)
    ensures exists layout :: LaysOut(EastWest(g.pfs), p.planes, layout)
    ensures OneRailPerNic(EastWest(g.pfs))
    ensures Accepted(RequestFor(p, g, platforms)) && Planes(RequestFor(p, g, platforms)) == p.planes
  {
    hide EastWest, OneRailPerNic, Dense;
    assert GroupOk(p, g, platforms, devices);
    var layout: seq<nat> :| LaysOut(EastWest(g.pfs), p.planes, layout);
  }

  /** Acceptance counts NICs, not functions: a group with one function on its only rail
      is accepted for two software planes, which then share that function. */
  lemma AcceptedGroupSharesPF()
    ensures var pf := PF("0000:03:00.0", Some(0), "east-west", "");
            var g := Group("a", "", "", "NVIDIA B300", [pf], [], None, []);
            var p := Profile(true, false, "swplb", 2, true);
            && Generatable(p, [g], _ => "b300", _ => None)
            && PFForRailPlane(g.pfs, 0, 0, p.planes) == PFForRailPlane(g.pfs, 0, 1, p.planes) == Some(pf)
  {
    var pf := PF("0000:03:00.0", Some(0), "east-west", "");
    var g := Group("a", "", "", "NVIDIA B300", [pf], [], None, []);
    var p := Profile(true, false, "swplb", 2, true);
    hide LaysOut, RailPFs, EastWest;
    assert "0000:03:00.0" == "0000:03:00" + ".0";
    OneFunction(pf, "0000:03:00");
    assert PlatformOk(p, g, "b300", None);
    assert GroupOk(p, g, _ => "b300", _ => None) by { assert !NoLayout(EastWest(g.pfs), p.planes); }
  }

  lemma OneFunction(pf: PF, nic: string)
    requires pf.rail == Some(0) && IsEastWest(pf) && pf.pciAddress == nic + ".0" && nic != ""
    ensures LaysOut(EastWest([pf]), 2, [1])
    ensures PFForRailPlane([pf], 0, 0, 2) == PFForRailPlane([pf], 0, 1, 2) == Some(pf)
  {
    OneOfEach(pf, nic);
    SoleFunction(pf);
    hide Nic, RailPFs, Nics, EastWest, ByAddress, LaysOut;
    assert AllHaveRail([pf]);
    OneLaysOut(pf, nic);
  }

  lemma OneLaysOut(pf: PF, nic: string)
    requires pf.rail == Some(0) && Nic(pf.pciAddress) == Some(nic) && Nics([pf]) == [nic]
    requires forall r :: RailPFs([pf], r) == if r == 0 then [pf] else []
    ensures LaysOut([pf], 2, [1])
  {
    hide Nic, RailPFs, Nics;
    assert RailPFs([pf], 0) == [pf];
  }

  lemma OneOfEach(pf: PF, nic: string)
    requires pf.rail == Some(0) && IsEastWest(pf) && pf.pciAddress == nic + ".0" && nic != ""
    ensures Nic(pf.pciAddress) == Some(nic) && Nics([pf]) == [nic] && EastWest([pf]) == [pf]
    ensures forall r :: RailPFs([pf], r) == if r == 0 then [pf] else []
  {
    var a := pf.pciAddress;
    assert a[|nic|] == '.' && a[|nic| + 1] == '0' && a[..|nic|] == nic;
    assert [pf][..0] == [];
    assert EastWest([pf][..0]) == [] && Nics([pf][..0]) == [];
    forall r ensures RailPFs([pf], r) == if r == 0 then [pf] else [] {
      assert RailPFs([pf][..0], r) == [];
    }
  }
}
