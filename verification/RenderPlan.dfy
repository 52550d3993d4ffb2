/** Filtering the inventory, sorting it into buckets and deciding how each bucket is
    rendered. */
module RenderPlan {
  import opened Wrappers
  import opened Text
  import opened Identifiers
  import opened Inventory

  predicate HasGpu(gpuType: string, g: Group) { ToLower(g.gpuType) == ToLower(TrimSpace(gpuType)) }

  /** What the flags select. */
  function Wanted(ids: seq<string>, gpuType: string): Group -> bool {
    (g: Group) => if ids == [] && gpuType == "" then true
         else if ids != [] then g.identifier in ids else HasGpu(gpuType, g)
  }

  method ApplyGroupFilter(groups: seq<Group>, ids: seq<string>, gpuType: string) returns (r: Option<seq<Group>>)
    ensures r.None? <==>
            || (ids != [] && (gpuType != "" || exists id :: id in ids && id !in Ids(groups)))
            || (ids == [] && gpuType != "" && forall g :: g in groups ==> ToLower(g.gpuType) != ToLower(TrimSpace(gpuType)))
    ensures r.Some? ==> r.value == Keep(groups, Wanted(ids, gpuType))
    ensures r.Some? ==> forall g :: g in r.value <==>
              (g in groups && (ids != [] ==> g.identifier in ids) && (gpuType != "" ==> ToLower(g.gpuType) == ToLower(TrimSpace(gpuType))))
  {
    var wanted := Wanted(ids, gpuType);
    if ids == [] && gpuType == "" {
      KeepAll(groups, wanted);
      return Some(groups);
    }
    if ids != [] && gpuType != "" { return None; }
    var matched, seen := [], {};
    for i := 0 to |groups|
      invariant matched == Keep(groups[..i], wanted)
      invariant forall id :: id in seen <==> id in ids && id in Ids(groups[..i])
    {
      assert groups[..i + 1] == groups[..i] + [groups[i]];
      assert Ids(groups[..i + 1]) == Ids(groups[..i]) + [groups[i].identifier];
      KeepAppend(groups[..i], wanted, groups[i]);
      if if ids != [] then groups[i].identifier in ids else HasGpu(gpuType, groups[i]) {
        matched := matched + [groups[i]];
        if groups[i].identifier in ids { seen := seen + {groups[i].identifier}; }
      }
    }
    assert groups[..|groups|] == groups;
    if ids != [] {
      if exists id :: id in ids && id !in seen { return None; }
      return Some(matched);
    }
    r := if matched == [] then None else Some(matched);
    if matched == [] { assert forall g :: g in groups && wanted(g) ==> g in matched; }
    else { assert matched[0] in groups && wanted(matched[0]); }
  }

  // ---------- Buckets ----------

  datatype Key = Key(gpuType: string, railCount: nat)

  const PSEUDO := "__empty_"

  function KeyFor(g: Group, i: nat): Key {
    Key(if g.gpuType == "" then PSEUDO + Decimal(i) else g.gpuType, |EastWest(g.pfs)|)
  }

  /** The groups whose key is `k`, in order. */
  function Bucket(groups: seq<Group>, k: Key): seq<Group> {
    if groups == [] then [] else
      var n := |groups| - 1;
      Bucket(groups[..n], k) + if KeyFor(groups[n], n) == k then [groups[n]] else []
  }

  /** The keys in order of first occurrence. */
  function Keys(groups: seq<Group>): seq<Key> {
    if groups == [] then [] else
      var n := |groups| - 1;
      var front := Keys(groups[..n]);
      if KeyFor(groups[n], n) in front then front else front + [KeyFor(groups[n], n)]
  }

  lemma {:induction false} BucketElements(groups: seq<Group>, k: Key)
    ensures forall g :: g in Bucket(groups, k) <==> exists i :: 0 <= i < |groups| && groups[i] == g && KeyFor(g, i) == k
    ensures |Bucket(groups, k)| <= |groups|
  {
    if groups != [] {
      var n := |groups| - 1;
      var front := groups[..n];
      BucketElements(front, k);
      forall g ensures g in Bucket(groups, k) <==> exists i :: 0 <= i < |groups| && groups[i] == g && KeyFor(g, i) == k {
        if i :| 0 <= i < |groups| && groups[i] == g && KeyFor(g, i) == k { assert i < n ==> front[i] == g; }
      }
    }
  }

  lemma {:induction false} KeysMean(groups: seq<Group>)
    ensures forall k :: k in Keys(groups) <==> Bucket(groups, k) != []
    ensures forall i, j :: 0 <= i < j < |Keys(groups)| ==> Keys(groups)[i] != Keys(groups)[j]
  {
    if groups != [] { KeysMean(groups[..|groups| - 1]); }
  }

  /** Keys come in the order in which their first groups do. */
  lemma {:induction false} KeysInOrder(groups: seq<Group>, i: nat, j: nat) returns (first: nat)
    requires i < j < |Keys(groups)|
    ensures first < |groups| && KeyFor(groups[first], first) == Keys(groups)[i]
    ensures forall b :: 0 <= b <= first ==> KeyFor(groups[b], b) != Keys(groups)[j]
  {
    hide KeyFor;
    var n := |groups| - 1;
    var front := groups[..n];
    KeysMean(front);
    if j < |Keys(front)| {
      first := KeysInOrder(front, i, j);
      assert forall b :: 0 <= b <= first ==> front[b] == groups[b];
    } else {
      first := FirstOf(front, Keys(front)[i]);
      forall b | 0 <= b <= first ensures KeyFor(groups[b], b) != Keys(groups)[j] {
        assert front[b] == groups[b];
        KeyIsThere(front, b);
      }
    }
  }

  lemma {:induction false} KeyIsThere(groups: seq<Group>, b: nat)
    requires b < |groups|
    ensures KeyFor(groups[b], b) in Keys(groups)
  {
    hide KeyFor;
    if b < |groups| - 1 { KeyIsThere(groups[..|groups| - 1], b); }
  }

  lemma {:induction false} FirstOf(groups: seq<Group>, k: Key) returns (first: nat)
    requires k in Keys(groups)
    ensures first < |groups| && KeyFor(groups[first], first) == k
  {
    hide KeyFor;
    var n := |groups| - 1;
    if k in Keys(groups[..n]) { first := FirstOf(groups[..n], k); } else { first := n; }
  }

  ghost predicate Buckets(out: map<Key, seq<Group>>, groups: seq<Group>) {
    forall k :: (k in out <==> Bucket(groups, k) != []) && (k in out ==> out[k] == Bucket(groups, k))
  }

  lemma BucketAppend(groups: seq<Group>, g: Group)
    ensures forall k :: Bucket(groups + [g], k) == Bucket(groups, k) + if KeyFor(g, |groups|) == k then [g] else []
    ensures Keys(groups + [g]) == Keys(groups) + if KeyFor(g, |groups|) in Keys(groups) then [] else [KeyFor(g, |groups|)]
  {
    assert (groups + [g])[..|groups|] == groups;
  }

  /** bucketizeOrdered; bucketize is the same without the order. */
  method BucketizeOrdered(groups: seq<Group>) returns (order: seq<Key>, out: map<Key, seq<Group>>)
    ensures order == Keys(groups) && Buckets(out, groups)
  {
    hide Bucket, KeyFor, Keys;
    order, out := [], map[];
    NoBuckets();
    for i := 0 to |groups|
      invariant order == Keys(groups[..i]) && Buckets(out, groups[..i])
    {
      assert groups[..i + 1] == groups[..i] + [groups[i]];
      BucketAppend(groups[..i], groups[i]);
      KeysMean(groups[..i]);
      var key := KeyFor(groups[i], i);
      if key !in out { order := order + [key]; }
      out := out[key := (if key in out then out[key] else []) + [groups[i]]];
    }
    assert groups[..|groups|] == groups;
  }

  lemma NoBuckets()
    ensures Keys([]) == [] && forall k :: Bucket([], k) == []
  {}

  method Bucketize(groups: seq<Group>) returns (out: map<Key, seq<Group>>)
    ensures Buckets(out, groups)
  {
    var order;
    order, out := BucketizeOrdered(groups);
  }

  // ---------- The merged group of a bucket ----------

  /** sourceIdentitySetEqual. */
  method SourceIdentitySetEqual(a: seq<Group>, b: seq<Group>) returns (equal: bool)
    ensures equal <==> multiset(Ids(a)) == multiset(Ids(b))
  {
    assert |multiset(Ids(a))| == |a| && |multiset(Ids(b))| == |b|;
    if |a| != |b| { return false; }
    if |a| == 0 { return true; }
    SortedEqual(Ids(a), Ids(b));
    equal := Sorted(Ids(a)) == Sorted(Ids(b));
  }

  datatype RenderBucket = RenderBucket(merged: Group, sources: seq<Group>, modeB: bool)

  /** The sources' addresses at one rail position. */
  function RailColumn(sources: seq<Group>, rail: nat): seq<string>
    requires forall g :: g in sources ==> rail < |EastWest(g.pfs)|
  {
    seq(|sources|, i requires 0 <= i < |sources| => var g := sources[i]; assert g in sources; EastWest(g.pfs)[rail].pciAddress)
  }

  /** One address list per rail position: those of the sources, each at its first
      occurrence. */
  ghost predicate CollectsRail(addresses: seq<string>, sources: seq<Group>, rail: nat) {
    && (forall g :: g in sources ==> rail < |EastWest(g.pfs)|)
    && addresses == Firsts(RailColumn(sources, rail))
  }

  lemma ColumnStart(sources: seq<Group>, rail: nat)
    requires forall g :: g in sources ==> rail < |EastWest(g.pfs)|
    ensures |RailColumn(sources, rail)| == |sources| && Firsts(RailColumn(sources, rail)[..0]) == []
  {}

  lemma ColumnStep(sources: seq<Group>, rail: nat, i: nat)
    requires forall g :: g in sources ==> rail < |EastWest(g.pfs)|
    requires i < |sources| == |RailColumn(sources, rail)|
    ensures var column := RailColumn(sources, rail);
            var seen, a := Firsts(column[..i]), EastWest(sources[i].pfs)[rail].pciAddress;
            Firsts(column[..i + 1]) == if a in seen then seen else seen + [a]
  {
    hide EastWest, Firsts;
    var column := RailColumn(sources, rail);
    FirstsAppend(column[..i], column[i]);
    assert column[..i + 1] == column[..i] + [column[i]];
  }

  method RailAddresses(sources: seq<Group>, rail: nat) returns (addresses: seq<string>)
    requires forall g :: g in sources ==> rail < |EastWest(g.pfs)|
    ensures CollectsRail(addresses, sources, rail)
  {
    hide EastWest, Firsts, RailColumn;
    addresses := [];
    ghost var column := RailColumn(sources, rail);
    ColumnStart(sources, rail);
    var seen := {};
    for i := 0 to |sources|
      invariant addresses == Firsts(column[..i]) && forall a :: a in seen <==> a in addresses
    {
      assert sources[i] in sources;
      var a := EastWest(sources[i].pfs)[rail].pciAddress;
      ColumnStep(sources, rail, i);
      if a in seen { continue; }
      seen := seen + {a};
      addresses := addresses + [a];
    }
    assert column[..|sources|] == column;
  }

  /** The group a bucket renders as: a lone source itself, otherwise one named after the
      GPU with the first source's functions and everyone's workers. */
  ghost predicate IsMerged(h: Hash, merged: Group, sources: seq<Group>) {
    if |sources| == 1 then merged == sources[0].(mergedIdentifier := sources[0].identifier)
    else
      && sources != [] && merged.identifier == merged.mergedIdentifier == Sanitize(h, sources[0].gpuType)
      && merged.gpuType == sources[0].gpuType && merged.machineType == sources[0].machineType
      && merged.pfs == sources[0].pfs && merged.spectrumX == sources[0].spectrumX
      && IsSorted(merged.workerNodes) && multiset(merged.workerNodes) == multiset(Workers(sources))
      && |merged.railPciAddresses| == |EastWest(merged.pfs)|
      && forall rail :: 0 <= rail < |merged.railPciAddresses| ==> CollectsRail(merged.railPciAddresses[rail], sources, rail)
  }

  /** buildBucketMerged with the identifier copied to MergedIdentifier. No source is
      indexed out of range because a bucket shares one rail count. */
  method BuildBucketMerged(h: Hash, sources: seq<Group>) returns (merged: Group)
    requires sources != []
    requires forall g :: g in sources ==> |EastWest(g.pfs)| == |EastWest(sources[0].pfs)|
    ensures IsMerged(h, merged, sources)
  {
    hide EastWest, CollectsRail, Sanitize;
    var first := sources[0];
    if |sources| == 1 { return first.(mergedIdentifier := first.identifier); }
    var rails: seq<seq<string>> := [];
    for rail := 0 to |EastWest(first.pfs)|
      invariant |rails| == rail
      invariant forall r :: 0 <= r < rail ==> CollectsRail(rails[r], sources, r)
    {
      var addresses := RailAddresses(sources, rail);
      rails := rails + [addresses];
    }
    var workers := [];
    for i := 0 to |sources|
      invariant workers == Workers(sources[..i])
    {
      assert sources[..i + 1][..i] == sources[..i];
      workers := workers + sources[i].workerNodes;
    }
    assert sources[..|sources|] == sources;
    var id := Sanitize(h, first.gpuType);
    merged := Group(id, id, first.machineType, first.gpuType, first.pfs, Sorted(workers), first.spectrumX, rails);
  }

  // ---------- planRender ----------

  function Stamp(groups: seq<Group>, id: string): (r: seq<Group>)
    ensures |r| == |groups| && forall i :: 0 <= i < |r| ==> r[i] == groups[i].(mergedIdentifier := id)
  {
    seq(|groups|, i requires 0 <= i < |groups| => groups[i].(mergedIdentifier := id))
  }

  /** Only part of the original bucket was selected, as its identifiers show. */
  ghost predicate ModeB(original: seq<Group>, filtered: seq<Group>, k: Key) {
    multiset(Ids(Bucket(filtered, k))) != multiset(Ids(Bucket(original, k)))
  }

  ghost predicate PlanFor(h: Hash, plan: RenderBucket, original: seq<Group>, filtered: seq<Group>, k: Key) {
    && IsMerged(h, plan.merged, Bucket(filtered, k))
    && plan.sources == Stamp(Bucket(filtered, k), plan.merged.identifier)
    && (plan.modeB <==> ModeB(original, filtered, k))
  }

  lemma BucketRails(groups: seq<Group>, k: Key)
    ensures forall g :: g in Bucket(groups, k) ==> |EastWest(g.pfs)| == k.railCount
  {
    BucketElements(groups, k);
  }

  /** One plan for each key of the selection, in order of first occurrence. */
  method PlanRender(h: Hash, original: seq<Group>, filtered: seq<Group>) returns (plans: seq<RenderBucket>)
    ensures |plans| == |Keys(filtered)|
    ensures forall i :: 0 <= i < |plans| ==> PlanFor(h, plans[i], original, filtered, Keys(filtered)[i])
  {
    hide Bucket, EastWest, IsMerged, Keys;
    var originalByKey := Bucketize(original);
    var order, filteredByKey := BucketizeOrdered(filtered);
    KeysMean(filtered);
    plans := [];
    for i := 0 to |order|
      invariant |plans| == i && forall j :: 0 <= j < i ==> PlanFor(h, plans[j], original, filtered, order[j])
    {
      var k := order[i];
      assert k in order;
      var sources := filteredByKey[k];
      var whole := if k in originalByKey then originalByKey[k] else [];
      var equal := SourceIdentitySetEqual(sources, whole);
      BucketRails(filtered, k);
      var merged := BuildBucketMerged(h, sources);
      MergedIds(h, merged, sources);
      plans := plans + [RenderBucket(merged, Stamp(sources, merged.mergedIdentifier), !equal)];
    }
  }

  lemma MergedIds(h: Hash, merged: Group, sources: seq<Group>)
    requires IsMerged(h, merged, sources)
    ensures merged.mergedIdentifier == merged.identifier
    ensures sources != [] ==> EastWest(merged.pfs) == EastWest(sources[0].pfs)
  {}

  // ---------- Mode B means a strict subset ----------

  predicate InBucket(k: Key, g: Group) { g.gpuType == k.gpuType && |EastWest(g.pfs)| == k.railCount }

  predicate RealKey(k: Key) { k.gpuType != "" && !(PSEUDO <= k.gpuType) }

  lemma {:induction false} RealBucket(groups: seq<Group>, k: Key)
    requires RealKey(k)
    ensures Bucket(groups, k) == Keep(groups, g => InBucket(k, g))
  {
    if groups != [] {
      var n := |groups| - 1;
      RealBucket(groups[..n], k);
      assert PSEUDO <= PSEUDO + Decimal(n);
    }
  }

  lemma {:induction false} IdsOfPart(part: seq<Group>, whole: seq<Group>)
    requires multiset(Ids(part)) == multiset(Ids(whole))
    ensures |part| == |whole|
  {
    assert |multiset(Ids(part))| == |part| && |multiset(Ids(whole))| == |whole|;
  }

  /** For a bucket with a GPU type, Mode B holds exactly when the filter left out one of
      the bucket's groups. */
  lemma ModeBMeansStrictSubset(original: seq<Group>, wanted: Group -> bool, k: Key)
    requires RealKey(k)
    ensures ModeB(original, Keep(original, wanted), k) <==> exists g :: g in Bucket(original, k) && !wanted(g)
  {
    var inside := g => InBucket(k, g);
    RealBucket(original, k);
    RealBucket(Keep(original, wanted), k);
    KeepTwice(original, wanted, inside);
    var whole := Bucket(original, k);
    assert Bucket(Keep(original, wanted), k) == Keep(whole, wanted);
    KeepAll(whole, wanted);
    if multiset(Ids(Keep(whole, wanted))) == multiset(Ids(whole)) { IdsOfPart(Keep(whole, wanted), whole); }
  }

  /** A group without a GPU type sits alone under a key made of its index. */
  lemma {:induction false} PseudoBucket(groups: seq<Group>, i: nat, rails: nat)
    requires forall g :: g in groups ==> !(PSEUDO <= g.gpuType)
    ensures Bucket(groups, Key(PSEUDO + Decimal(i), rails)) ==
            if i < |groups| && groups[i].gpuType == "" && |EastWest(groups[i].pfs)| == rails then [groups[i]] else []
  {
    if groups != [] {
      var n := |groups| - 1;
      PseudoBucket(groups[..n], i, rails);
      SamePseudo(i, n);
    }
  }

  lemma SamePseudo(i: nat, n: nat)
    ensures PSEUDO + Decimal(i) == PSEUDO + Decimal(n) <==> i == n
    ensures PSEUDO <= PSEUDO + Decimal(i)
  {
    assert (PSEUDO + Decimal(i))[|PSEUDO|..] == Decimal(i) && (PSEUDO + Decimal(n))[|PSEUDO|..] == Decimal(n);
    DecimalInjective(i, n);
  }

  /** Where the i-th kept group stood. */
  lemma {:induction false} KeptFrom(groups: seq<Group>, wanted: Group -> bool, i: nat) returns (m: nat)
    requires i < |Keep(groups, wanted)|
    ensures i <= m < |groups| && Keep(groups, wanted)[i] == groups[m]
    ensures m == i ==> |Keep(groups[..i + 1], wanted)| == i + 1
  {
    hide Keep;
    var n := |groups| - 1;
    var front, last := groups[..n], groups[n];
    assert groups == front + [last];
    KeepAppend(front, wanted, last);
    var kept := Keep(front, wanted);
    if i < |kept| {
      assert Keep(groups, wanted)[i] == kept[i];
      m := KeptFrom(front, wanted, i);
      assert front[..i + 1] == groups[..i + 1];
    } else {
      m := n;
      assert groups[..n + 1] == groups;
    }
  }

  lemma {:induction false} KeptPrefix(groups: seq<Group>, wanted: Group -> bool, m: nat)
    requires m <= |groups| && forall j :: 0 <= j < m ==> wanted(groups[j])
    ensures m <= |Keep(groups, wanted)| && Keep(groups, wanted)[..m] == groups[..m]
  {
    if m == |groups| {
      KeepAll(groups, wanted);
    } else {
      var front := groups[..|groups| - 1];
      KeptPrefix(front, wanted, m);
      assert front[..m] == groups[..m];
    }
  }

  /** The i-th kept group is the i-th group exactly when nothing up to it was dropped. */
  lemma KeptInPlace(groups: seq<Group>, wanted: Group -> bool, i: nat)
    requires DistinctIds(groups) && i < |Keep(groups, wanted)|
    ensures i < |groups|
    ensures Keep(groups, wanted)[i].identifier == groups[i].identifier <==> forall j :: 0 <= j <= i ==> wanted(groups[j])
  {
    var m := KeptFrom(groups, wanted, i);
    if m == i {
      KeepAll(groups[..i + 1], wanted);
      assert forall j :: 0 <= j <= i ==> groups[j] in groups[..i + 1];
    }
    if forall j :: 0 <= j <= i ==> wanted(groups[j]) {
      KeptPrefix(groups, wanted, i + 1);
      assert Keep(groups, wanted)[..i + 1][i] == groups[..i + 1][i];
    }
  }

  /** A group without a GPU type is a whole bucket, so no filter takes a strict subset of
      it; yet Mode B is chosen whenever the filter dropped a group before it. */
  lemma PseudoKeysFollowTheIndex(original: seq<Group>, wanted: Group -> bool, i: nat)
    requires DistinctIds(original) && forall g :: g in original ==> !(PSEUDO <= g.gpuType)
    requires i < |Keep(original, wanted)| && Keep(original, wanted)[i].gpuType == ""
    ensures Bucket(Keep(original, wanted), KeyFor(Keep(original, wanted)[i], i)) == [Keep(original, wanted)[i]]
    ensures ModeB(original, Keep(original, wanted), KeyFor(Keep(original, wanted)[i], i)) <==>
            exists j :: 0 <= j <= i && !wanted(original[j])
  {
    hide Bucket, Keep, EastWest, KeyFor, Ids, Decimal;
    var filtered := Keep(original, wanted);
    var g := filtered[i];
    var rails := |EastWest(g.pfs)|;
    PseudoBucket(filtered, i, rails);
    PseudoBucket(original, i, rails);
    KeptInPlace(original, wanted, i);
    assert KeyFor(g, i) == Key(PSEUDO + Decimal(i), rails) by { KeyOfPseudo(g, i); }
    var k := KeyFor(g, i);
    assert g in original;
    var m :| 0 <= m < |original| && original[m] == g;
    if m == i {
      assert Bucket(original, k) == [g];
    } else {
      assert original[i].identifier != g.identifier;
      OtherIds(g, Bucket(original, k));
    }
  }

  lemma KeyOfPseudo(g: Group, i: nat)
    requires g.gpuType == ""
    ensures KeyFor(g, i) == Key(PSEUDO + Decimal(i), |EastWest(g.pfs)|)
  {}

  lemma OtherIds(g: Group, others: seq<Group>)
    requires forall o :: o in others ==> o.identifier != g.identifier
    ensures multiset(Ids([g])) != multiset(Ids(others))
  {
    assert Ids([g])[0] == g.identifier && g.identifier in multiset(Ids([g]));
    assert g.identifier !in Ids(others);
  }

  /** A filter that drops the group before a group without a GPU type: Mode B is chosen
      for the latter, although its bucket is whole in either list. */
  lemma PseudoKeyChangesMode()
    ensures var a, b := Group("a", "a", "", "H100", [], [], None, []), Group("b", "b", "", "", [], [], None, []);
            var filtered := Keep([a, b], (g: Group) => g.identifier == "b");
            && filtered == [b] && ModeB([a, b], filtered, KeyFor(b, 0))
            && Bucket(filtered, KeyFor(b, 0)) == Bucket([a, b], KeyFor(b, 1)) == [b]
  {
    var a, b := Group("a", "a", "", "H100", [], [], None, []), Group("b", "b", "", "", [], [], None, []);
    var wanted := (g: Group) => g.identifier == "b";
    KeepAppend([a], wanted, b);
    KeepAppend([], wanted, a);
    assert [] + [a] == [a] && [a] + [b] == [a, b];
    assert Keep([a, b], wanted) == [b];
    PseudoKeysFollowTheIndex([a, b], wanted, 0);
    PseudoBucket([a, b], 1, 0);
    assert EastWest([]) == [];
  }
}
