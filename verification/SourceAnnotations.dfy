/** From the source groups of a render to annotations and back to worker nodes. */
module SourceAnnotations {
  import opened Wrappers
  import opened Sequences
  import opened Text
  import opened Identifiers
  import opened Inventory
  import opened RenderPlan
  import opened TargetScope
  import Renaming

  /** The renders of one hardware template, by their sources: a node policy (SimpleSelect)
      renders per source in Mode B, everything else once per bucket. */
  function Units(simple: bool, plans: seq<RenderBucket>): seq<seq<Group>> {
    if plans == [] then [] else
      var n := |plans| - 1;
      Units(simple, plans[..n]) + UnitsOf(simple, plans[n])
  }

  function UnitsOf(simple: bool, plan: RenderBucket): seq<seq<Group>> {
    if simple && plan.modeB then Singles(plan.sources) else [plan.sources]
  }

  function Singles(sources: seq<Group>): (r: seq<seq<Group>>)
    ensures |r| == |sources| && forall i :: 0 <= i < |r| ==> r[i] == [sources[i]]
  {
    seq(|sources|, i requires 0 <= i < |sources| => [sources[i]])
  }

  /** An unnamed source must be the only one there is. */
  predicate NamedOrSole(id: string, sources: nat, groups: seq<Group>) {
    Trimmed(id) && (id == "" ==> sources == 1 && |groups| == 1 && groups[0].identifier == "")
  }

  /** Which sources annotateTargetSources takes. */
  ghost predicate Annotatable(sources: seq<Group>, groups: seq<Group>) {
    && sources != [] && TrimDistinct(sources)
    && forall i :: 0 <= i < |sources| ==> NamedOrSole(sources[i].identifier, |sources|, groups)
  }

  /** annotateTargetSources for a render that produced something. */
  method AnnotateTargetSources(sources: seq<Group>, groups: seq<Group>) returns (ids: Option<seq<string>>)
    ensures ids.Some? <==> Annotatable(sources, groups)
    ensures ids.Some? ==> ids.value == Sorted(Ids(sources))
  {
    hide TrimSpace, TrimDistinct, Sorted;
    var ok := ValidateIdentifiers(sources);
    if !ok { return None; }
    var all := [];
    for i := 0 to |sources|
      invariant all == Ids(sources)[..i]
      invariant forall j :: 0 <= j < i ==> NamedOrSole(sources[j].identifier, |sources|, groups)
    {
      var id := sources[i].identifier;
      if id == "" && (|sources| != 1 || |groups| != 1 || groups[0].identifier != "") { return None; }
      if TrimSpace(id) != id { return None; }
      all := all + [id];
    }
    if |all| == 0 { return None; }
    assert all == Ids(sources);
    ids := Some(Sorted(all));
  }

  /** renderForScope on a hardware template: the identifiers of the whole configuration
      are checked first. `files` says which renders produced a file; the annotation of the
      others stays None. */
  method RenderForScope(simple: bool, plans: seq<RenderBucket>, groups: seq<Group>, files: seq<bool>)
    returns (ok: bool, annotations: seq<Option<seq<string>>>)
    requires |files| == |Units(simple, plans)|
    ensures ok <==> TrimDistinct(groups)
                    && forall i :: 0 <= i < |files| && files[i] ==> Annotatable(Units(simple, plans)[i], groups)
    ensures ok ==> |annotations| == |files|
    ensures ok ==> forall i :: 0 <= i < |files| ==>
              annotations[i] == if files[i] then Some(Sorted(Ids(Units(simple, plans)[i]))) else None
  {
    hide Annotatable, Sorted, Ids, TrimDistinct;
    annotations := [];
    ok := ValidateIdentifiers(groups);
    if !ok { return; }
    ghost var units := Units(simple, plans);
    for i := 0 to |plans|
      invariant |annotations| == |Units(simple, plans[..i])| <= |units| && Units(simple, plans[..i]) <= units
      invariant AnnotatedUpTo(units, groups, files, annotations)
    {
      UnitsStep(simple, plans, i);
      var plan := plans[i];
      if simple && plan.modeB {
        var first := |annotations|;
        for j := 0 to |plan.sources|
          invariant |annotations| == first + j
          invariant AnnotatedUpTo(units, groups, files, annotations)
        {
          assert units[first + j] == [plan.sources[j]];
          ok, annotations := RenderUnit([plan.sources[j]], groups, files, units, annotations);
          if !ok { return; }
        }
      } else {
        assert units[|annotations|] == plan.sources;
        ok, annotations := RenderUnit(plan.sources, groups, files, units, annotations);
        if !ok { return; }
      }
    }
    assert plans[..|plans|] == plans;
    ok := true;
  }

  ghost predicate AnnotatedUpTo(units: seq<seq<Group>>, groups: seq<Group>, files: seq<bool>, done: seq<Option<seq<string>>>) {
    && |files| == |units| && |done| <= |units|
    && forall i :: 0 <= i < |done| ==>
       if files[i] then Annotatable(units[i], groups) && done[i] == Some(Sorted(Ids(units[i]))) else done[i] == None
  }

  /** One render and its annotation. */
  method RenderUnit(sources: seq<Group>, groups: seq<Group>, files: seq<bool>, ghost units: seq<seq<Group>>,
                    done: seq<Option<seq<string>>>) returns (ok: bool, done': seq<Option<seq<string>>>)
    requires AnnotatedUpTo(units, groups, files, done) && |done| < |units| && units[|done|] == sources
    ensures ok <==> (files[|done|] ==> Annotatable(sources, groups))
    ensures ok ==> |done'| == |done| + 1 && AnnotatedUpTo(units, groups, files, done')
  {
    hide Annotatable, Sorted, Ids;
    if !files[|done|] { return true, done + [None]; }
    var ids := AnnotateTargetSources(sources, groups);
    return ids.Some?, done + [ids];
  }

  lemma {:induction false} UnitsStep(simple: bool, plans: seq<RenderBucket>, i: nat)
    requires i < |plans|
    ensures Units(simple, plans[..i + 1]) == Units(simple, plans[..i]) + UnitsOf(simple, plans[i])
    ensures Units(simple, plans[..i + 1]) <= Units(simple, plans)
  {
    hide UnitsOf;
    assert plans[..i + 1][..i] == plans[..i];
    if i + 1 == |plans| {
      assert plans[..i + 1] == plans;
    } else {
      var front := plans[..|plans| - 1];
      assert front[..i + 1] == plans[..i + 1] && front[..i] == plans[..i];
      UnitsStep(simple, front, i);
    }
  }

  // ---------- The annotations partition the selection ----------

  /** Unique identifiers and each worker listed once in the whole configuration; nonempty
      trimmed identifiers, workers and well-formed worker names in each selected group. */
  ghost predicate Complete(groups: seq<Group>, wanted: Group -> bool) {
    && TrimDistinct(groups) && Distinct(Workers(groups))
    && forall g :: g in Keep(groups, wanted) ==>
       && g.identifier != "" && Trimmed(g.identifier) && g.workerNodes != []
       && forall x :: x in g.workerNodes ==> GoodWorker(x)
  }

  /** The plans carry the selection: the i-th has the groups of the i-th key. */
  ghost predicate Carries(plans: seq<RenderBucket>, filtered: seq<Group>) {
    && |plans| == |Keys(filtered)|
    && forall i :: 0 <= i < |plans| ==> Ids(plans[i].sources) == Ids(Bucket(filtered, Keys(filtered)[i]))
  }

  lemma PlannedCarries(h: Hash, plans: seq<RenderBucket>, original: seq<Group>, filtered: seq<Group>)
    requires |plans| == |Keys(filtered)|
    requires forall i :: 0 <= i < |plans| ==> PlanFor(h, plans[i], original, filtered, Keys(filtered)[i])
    ensures Carries(plans, filtered)
  {
    forall i | 0 <= i < |plans| ensures Ids(plans[i].sources) == Ids(Bucket(filtered, Keys(filtered)[i])) {
      assert PlanFor(h, plans[i], original, filtered, Keys(filtered)[i]);
    }
  }

  /** The plans still carry the selection after the OpenShift renaming, and each source
      carries its plan's new name. */
  lemma RenamedCarries(h: Hash, was: seq<RenderBucket>, now: seq<RenderBucket>, original: seq<Group>, filtered: seq<Group>)
    requires |now| == |was| == |Keys(filtered)|
    requires forall i :: 0 <= i < |was| ==> PlanFor(h, was[i], original, filtered, Keys(filtered)[i])
    requires forall j :: 0 <= j < |was| ==> Renaming.Outcome(h, was, now, j)
    ensures Carries(now, filtered)
    ensures forall j :: 0 <= j < |now| ==>
              Renaming.Stamped(now[j]) && (now[j].modeB <==> ModeB(original, filtered, Keys(filtered)[j]))
  {
    hide Renaming.Outcome, ModeB, IsMerged;
    PlannedCarries(h, was, original, filtered);
    forall j | 0 <= j < |now|
      ensures Renaming.Stamped(now[j]) && Ids(now[j].sources) == Ids(was[j].sources)
      ensures now[j].modeB <==> ModeB(original, filtered, Keys(filtered)[j])
    {
      assert PlanFor(h, was[j], original, filtered, Keys(filtered)[j]);
      Renaming.OutcomeKeepsSources(h, was, now, j);
    }
  }

  /** An identifier annotated on a unit comes from one bucket, hence from one plan. */
  ghost predicate InPlan(plans: seq<RenderBucket>, i: nat, id: string) { i < |plans| && id in Ids(plans[i].sources) }

  lemma OnePlan(plans: seq<RenderBucket>, filtered: seq<Group>, i: nat, j: nat, id: string)
    requires Carries(plans, filtered) && DistinctIds(filtered) && InPlan(plans, i, id) && InPlan(plans, j, id)
    ensures i == j
  {
    var ki, kj := Keys(filtered)[i], Keys(filtered)[j];
    var a := InBucketAt(filtered, ki, id);
    var b := InBucketAt(filtered, kj, id);
    KeysMean(filtered);
  }

  lemma InBucketAt(groups: seq<Group>, k: Key, id: string) returns (at: nat)
    requires id in Ids(Bucket(groups, k))
    ensures at < |groups| && groups[at].identifier == id && KeyFor(groups[at], at) == k
  {
    hide KeyFor, Bucket;
    BucketElements(groups, k);
    var j :| 0 <= j < |Bucket(groups, k)| && Bucket(groups, k)[j].identifier == id;
    var g := Bucket(groups, k)[j];
    assert g in Bucket(groups, k);
    at :| 0 <= at < |groups| && groups[at] == g && KeyFor(g, at) == k;
  }

  lemma SomePlan(plans: seq<RenderBucket>, filtered: seq<Group>, g: Group) returns (i: nat)
    requires Carries(plans, filtered) && g in filtered
    ensures InPlan(plans, i, g.identifier)
  {
    var at :| 0 <= at < |filtered| && filtered[at] == g;
    var k := KeyFor(g, at);
    BucketElements(filtered, k);
    KeysMean(filtered);
    assert g in Bucket(filtered, k);
    var j :| 0 <= j < |Bucket(filtered, k)| && Bucket(filtered, k)[j] == g;
    assert Ids(Bucket(filtered, k))[j] == g.identifier;
    i :| 0 <= i < |Keys(filtered)| && Keys(filtered)[i] == k;
  }

  function SourcesOf(plans: seq<RenderBucket>): seq<Group> {
    if plans == [] then [] else SourcesOf(plans[..|plans| - 1]) + plans[|plans| - 1].sources
  }

  lemma {:induction false} ConcatSingles(sources: seq<Group>)
    ensures Concat(Singles(sources)) == sources
  {
    if sources != [] {
      var n := |sources| - 1;
      assert Singles(sources)[..n] == Singles(sources[..n]);
      ConcatSingles(sources[..n]);
    }
  }

  /** Whatever the modes, the renders together have each plan's sources in order. */
  lemma {:induction false} ConcatUnits(simple: bool, plans: seq<RenderBucket>)
    ensures Concat(Units(simple, plans)) == SourcesOf(plans)
  {
    if plans != [] {
      var n := |plans| - 1;
      var plan := plans[n];
      ConcatUnits(simple, plans[..n]);
      ConcatJoin(Units(simple, plans[..n]), UnitsOf(simple, plan));
      ConcatSingles(plan.sources);
      assert [plan.sources][..0] == [] && Concat([plan.sources]) == plan.sources;
    }
  }

  lemma IdsConcat(a: seq<Group>, b: seq<Group>)
    ensures Ids(a + b) == Ids(a) + Ids(b)
  {}

  lemma {:induction false} BucketIdsDistinct(groups: seq<Group>, k: Key)
    requires DistinctIds(groups)
    ensures Distinct(Ids(Bucket(groups, k)))
  {
    if groups != [] {
      var n := |groups| - 1;
      BucketIdsDistinct(groups[..n], k);
      BucketElements(groups[..n], k);
      var front := Bucket(groups[..n], k);
      forall i | 0 <= i < |front| ensures front[i].identifier != groups[n].identifier { assert front[i] in front; }
    }
  }

  lemma {:induction false} SourceIds(plans: seq<RenderBucket>, filtered: seq<Group>, i: nat)
    requires Carries(plans, filtered) && DistinctIds(filtered) && i <= |plans|
    ensures Distinct(Ids(SourcesOf(plans[..i])))
    ensures forall id :: id in Ids(SourcesOf(plans[..i])) <==> exists j :: 0 <= j < i && InPlan(plans, j, id)
  {
    if i > 0 {
      var n := i - 1;
      SourceIds(plans, filtered, n);
      assert plans[..i][..n] == plans[..n];
      var front, last := SourcesOf(plans[..n]), plans[n].sources;
      assert SourcesOf(plans[..i]) == front + last;
      IdsConcat(front, last);
      BucketIdsDistinct(filtered, Keys(filtered)[n]);
      InPlansBefore(plans, filtered, n, Ids(front), Ids(last));
      JoinDistinct(Ids(front), Ids(last));
    }
  }

  lemma InPlansBefore(plans: seq<RenderBucket>, filtered: seq<Group>, n: nat, front: seq<string>, last: seq<string>)
    requires Carries(plans, filtered) && DistinctIds(filtered) && n < |plans| && last == Ids(plans[n].sources)
    requires forall id :: id in front <==> exists j :: 0 <= j < n && InPlan(plans, j, id)
    ensures forall id :: id in front ==> id !in last
    ensures forall id :: id in front + last <==> exists j :: 0 <= j < n + 1 && InPlan(plans, j, id)
  {
    hide Carries, DistinctIds, Ids, InPlan;
    forall id | id in front ensures id !in last { Elsewhere(plans, filtered, n, id); }
    forall id ensures id in last <==> InPlan(plans, n, id) { LastPlan(plans, n, id); }
  }

  lemma LastPlan(plans: seq<RenderBucket>, n: nat, id: string)
    requires n < |plans|
    ensures id in Ids(plans[n].sources) <==> InPlan(plans, n, id)
  {}

  lemma Elsewhere(plans: seq<RenderBucket>, filtered: seq<Group>, n: nat, id: string)
    requires Carries(plans, filtered) && DistinctIds(filtered) && n < |plans|
    requires exists j :: 0 <= j < n && InPlan(plans, j, id)
    ensures id !in Ids(plans[n].sources)
  {
    hide Carries, DistinctIds;
    var j :| 0 <= j < n && InPlan(plans, j, id);
    if id in Ids(plans[n].sources) { OnePlan(plans, filtered, j, n, id); }
  }

  /** The renders' sources are the selected groups, each exactly once. */
  lemma SourcesPartitioned(simple: bool, plans: seq<RenderBucket>, filtered: seq<Group>)
    requires Carries(plans, filtered) && DistinctIds(filtered)
    ensures Distinct(Ids(Concat(Units(simple, plans))))
    ensures multiset(Ids(Concat(Units(simple, plans)))) == multiset(Ids(filtered))
  {
    ConcatUnits(simple, plans);
    SourceIds(plans, filtered, |plans|);
    assert plans[..|plans|] == plans;
    var all := Ids(SourcesOf(plans));
    assert Distinct(Ids(filtered));
    hide Carries, Ids, DistinctIds;
    forall id ensures id in all <==> id in Ids(filtered) { SelectedId(plans, filtered, id); }
    DistinctSame(all, Ids(filtered));
  }

  lemma SelectedId(plans: seq<RenderBucket>, filtered: seq<Group>, id: string)
    requires Carries(plans, filtered)
    ensures (exists j :: 0 <= j < |plans| && InPlan(plans, j, id)) <==> id in Ids(filtered)
  {
    if j :| 0 <= j < |plans| && InPlan(plans, j, id) {
      var at := InBucketAt(filtered, Keys(filtered)[j], id);
      assert Ids(filtered)[at] == id;
    }
    if i :| 0 <= i < |filtered| && Ids(filtered)[i] == id {
      var j := SomePlan(plans, filtered, filtered[i]);
    }
  }

  // ---------- Back to the workers ----------

  lemma {:induction false} ConcatElements(units: seq<seq<Group>>, id: string)
    ensures id in Ids(Concat(units)) <==> exists u :: 0 <= u < |units| && id in Ids(units[u])
  {
    if units == [] {
      assert Concat(units) == [];
    } else {
      var n := |units| - 1;
      ConcatElements(units[..n], id);
      IdsConcat(Concat(units[..n]), units[n]);
      if u :| 0 <= u < |units| && id in Ids(units[u]) {
        if u < n { assert units[..n][u] == units[u]; }
      }
      if u :| 0 <= u < n && id in Ids(units[..n][u]) { assert units[..n][u] == units[u]; }
    }
  }

  lemma {:induction false} UnitsApart(units: seq<seq<Group>>, u: nat, v: nat, id: string)
    requires Distinct(Ids(Concat(units))) && u < v < |units| && id in Ids(units[u])
    ensures id !in Ids(units[v])
  {
    var n := |units| - 1;
    var front, last := Concat(units[..n]), units[n];
    IdsConcat(front, last);
    assert Ids(Concat(units)) == Ids(front) + Ids(last);
    if v == n {
      assert units[..n][u] == units[u];
      ConcatElements(units[..n], id);
      forall b | 0 <= b < |last| ensures Ids(last)[b] != id { NotBefore(Ids(front), Ids(last), b); }
    } else {
      forall i, j | 0 <= i < j < |front| ensures Ids(front)[i] != Ids(front)[j] {
        assert (Ids(front) + Ids(last))[i] != (Ids(front) + Ids(last))[j];
      }
      UnitsApart(units[..n], u, v, id);
    }
  }

  /** A unit's workers: those of the configured groups it names. */
  ghost predicate WorksFor(ids: seq<string>, groups: seq<Group>, x: string) {
    exists g :: g in groups && g.identifier in ids && x in g.workerNodes
  }

  /** Over a complete inventory, distinct identifiers of selected groups resolve to
      exactly those groups' workers. */
  lemma AnnotationResolves(ids: seq<string>, groups: seq<Group>, wanted: Group -> bool)
    requires Complete(groups, wanted) && ids != [] && Distinct(ids) && forall id :: id in ids ==> id in Ids(Keep(groups, wanted))
    ensures Intent(Sources(Sorted(ids)), groups) == Inventoried(Sorted(Workers(Chosen(Sorted(ids), groups))))
    ensures forall x :: x in Intent(Sources(Sorted(ids)), groups).workers <==> WorksFor(ids, groups, x)
    ensures Distinct(Intent(Sources(Sorted(ids)), groups).workers)
  {
    hide Complete, Chosen, Sorted, Resolvable, Workers, TrimSpace, TrimDistinct, Ids, Distinct, Keep, DistinctIds;
    var sorted := Sorted(ids);
    SortedElements(ids);
    CompleteDistinct(groups, wanted);
    CompleteResolvable(sorted, groups, wanted);
    NamedChosen(sorted, groups);
    var chosen := Chosen(sorted, groups);
    SomeChosen(sorted, groups, wanted);
    forall g | g in chosen ensures g.workerNodes != [] { SelectedGroup(g.identifier, groups, wanted, g); }
    assert chosen[0] in chosen;
    WorkersElements(chosen);
    SortedElements(Workers(chosen));
    ChosenWorkersDistinct(sorted, groups);
  }

  lemma CompleteDistinct(groups: seq<Group>, wanted: Group -> bool)
    requires Complete(groups, wanted)
    ensures DistinctIds(groups) && Distinct(Workers(groups)) && TrimDistinct(groups)
  {
    TrimDistinctIds(groups);
  }

  /** The configured group with a selected identifier is selected itself. */
  lemma SelectedGroup(id: string, groups: seq<Group>, wanted: Group -> bool, g: Group)
    requires Complete(groups, wanted) && DistinctIds(groups) && id in Ids(Keep(groups, wanted))
    requires g in groups && g.identifier == id
    ensures Lookup(groups, id) == Some(g) && id in Ids(groups)
    ensures id != "" && Trimmed(id) && g.workerNodes != [] && forall x :: x in g.workerNodes ==> GoodWorker(x)
  {
    hide TrimSpace, TrimDistinct, Distinct, Workers;
    var kept := Keep(groups, wanted);
    var i :| 0 <= i < |kept| && Ids(kept)[i] == id;
    assert kept[i] in kept;
    LookupNamed(groups, kept[i].identifier, kept[i]);
    LookupNamed(groups, g.identifier, g);
  }

  lemma CompleteResolvable(ids: seq<string>, groups: seq<Group>, wanted: Group -> bool)
    requires Complete(groups, wanted) && DistinctIds(groups) && Distinct(ids)
    requires forall id :: id in ids ==> id in Ids(Keep(groups, wanted))
    ensures Resolvable(ids, groups)
  {
    hide TrimSpace, TrimDistinct, Distinct, Workers, Complete, DistinctIds, Keep;
    CompleteDistinct(groups, wanted);
    forall id | id in ids ensures GoodSource(id, ids, groups) {
      var g := SelectedNamed(id, groups, wanted);
      SelectedGroup(id, groups, wanted, g);
    }
  }

  lemma SelectedNamed(id: string, groups: seq<Group>, wanted: Group -> bool) returns (g: Group)
    requires id in Ids(Keep(groups, wanted))
    ensures g in Keep(groups, wanted) && g in groups && g.identifier == id
  {
    var kept := Keep(groups, wanted);
    var i :| 0 <= i < |kept| && Ids(kept)[i] == id;
    g := kept[i];
    assert g in kept;
  }

  lemma SomeChosen(ids: seq<string>, groups: seq<Group>, wanted: Group -> bool)
    requires Complete(groups, wanted) && DistinctIds(groups)
    requires ids != [] && forall id :: id in ids ==> id in Ids(Keep(groups, wanted))
    ensures Chosen(ids, groups) != []
    ensures forall g :: g in Chosen(ids, groups) ==> g in groups && g.identifier in ids
  {
    hide Complete, Ids, Keep, DistinctIds;
    var last := ids[|ids| - 1];
    assert last in ids;
    var g := SelectedNamed(last, groups, wanted);
    SelectedGroup(last, groups, wanted, g);
    NamedChosen(ids, groups);
  }

  ghost function ScopeOf(unit: seq<Group>, groups: seq<Group>): Scope { Intent(Sources(Sorted(Ids(unit))), groups) }

  lemma {:induction false} UnitsNonempty(simple: bool, plans: seq<RenderBucket>)
    requires forall i :: 0 <= i < |plans| ==> plans[i].sources != []
    ensures forall u :: 0 <= u < |Units(simple, plans)| ==> Units(simple, plans)[u] != []
  {
    if plans != [] {
      UnitsNonempty(simple, plans[..|plans| - 1]);
    }
  }

  lemma CarriedNonempty(plans: seq<RenderBucket>, filtered: seq<Group>)
    requires Carries(plans, filtered)
    ensures forall i :: 0 <= i < |plans| ==> plans[i].sources != []
  {
    KeysMean(filtered);
    forall i | 0 <= i < |plans| ensures plans[i].sources != [] {
      assert Keys(filtered)[i] in Keys(filtered);
      assert |Ids(plans[i].sources)| == |Bucket(filtered, Keys(filtered)[i])|;
    }
  }

  lemma {:induction false} UnitDistinct(units: seq<seq<Group>>, u: nat)
    requires Distinct(Ids(Concat(units))) && u < |units|
    ensures Distinct(Ids(units[u]))
  {
    var n := |units| - 1;
    IdsConcat(Concat(units[..n]), units[n]);
    var front, last := Ids(Concat(units[..n])), Ids(units[n]);
    SplitDistinct(front, last);
    if u < n {
      UnitDistinct(units[..n], u);
      assert units[..n][u] == units[u];
    }
  }

  lemma SplitDistinct(a: seq<string>, b: seq<string>)
    requires Distinct(a + b)
    ensures Distinct(a) && Distinct(b)
  {
    assert forall i :: 0 <= i < |b| ==> (a + b)[|a| + i] == b[i];
    assert forall i :: 0 <= i < |a| ==> (a + b)[i] == a[i];
  }

  /** The sources of one render are selected groups, none twice. */
  ghost predicate SoundUnit(unit: seq<Group>, selected: seq<Group>) {
    unit != [] && Distinct(Ids(unit)) && forall id :: id in Ids(unit) ==> id in Ids(selected)
  }

  lemma UnitsSound(simple: bool, plans: seq<RenderBucket>, filtered: seq<Group>)
    requires DistinctIds(filtered) && Carries(plans, filtered)
    ensures forall u :: 0 <= u < |Units(simple, plans)| ==> SoundUnit(Units(simple, plans)[u], filtered)
  {
    var units := Units(simple, plans);
    SourcesPartitioned(simple, plans, filtered);
    CarriedNonempty(plans, filtered);
    UnitsNonempty(simple, plans);
    forall u | 0 <= u < |units| ensures SoundUnit(units[u], filtered) {
      UnitDistinct(units, u);
      forall id | id in Ids(units[u]) ensures id in Ids(filtered) {
        ConcatElements(units, id);
        assert id in multiset(Ids(Concat(units)));
      }
    }
  }

  lemma SoundIsAnnotatable(unit: seq<Group>, groups: seq<Group>, wanted: Group -> bool)
    requires Complete(groups, wanted) && SoundUnit(unit, Keep(groups, wanted))
    ensures Annotatable(unit, groups)
  {
    hide TrimSpace;
    forall i | 0 <= i < |unit| ensures Trimmed(unit[i].identifier) && unit[i].identifier != "" {
      assert Ids(unit)[i] in Ids(unit);
      var g := SelectedNamed(unit[i].identifier, groups, wanted);
    }
    forall i, j | 0 <= i < j < |unit| ensures TrimSpace(unit[i].identifier) != TrimSpace(unit[j].identifier) {
      assert Ids(unit)[i] != Ids(unit)[j];
    }
  }

  /** Every render of a hardware template is annotated with sources that resolve to an
      inventory. */
  lemma EveryUnitResolves(simple: bool, plans: seq<RenderBucket>, original: seq<Group>, wanted: Group -> bool, u: nat)
    requires Complete(original, wanted) && Carries(plans, Keep(original, wanted)) && u < |Units(simple, plans)|
    ensures Annotatable(Units(simple, plans)[u], original)
    ensures ScopeOf(Units(simple, plans)[u], original).Inventoried?
    ensures forall x :: x in ScopeOf(Units(simple, plans)[u], original).workers <==>
              WorksFor(Ids(Units(simple, plans)[u]), original, x)
    ensures Distinct(ScopeOf(Units(simple, plans)[u], original).workers)
  {
    CompleteDistinct(original, wanted);
    KeepDistinct(original, wanted);
    UnitsSound(simple, plans, Keep(original, wanted));
    var unit := Units(simple, plans)[u];
    SoundIsAnnotatable(unit, original, wanted);
    hide Complete, Intent, WorksFor, Annotatable;
    AnnotationResolves(Ids(unit), original, wanted);
  }

  lemma OneEmployer(groups: seq<Group>, a: seq<string>, b: seq<string>, x: string)
    requires Distinct(Workers(groups)) && WorksFor(a, groups, x) && WorksFor(b, groups, x)
    ensures exists id :: id in a && id in b
  {
    var g :| g in groups && g.identifier in a && x in g.workerNodes;
    var g' :| g' in groups && g'.identifier in b && x in g'.workerNodes;
    OneOwner(groups, g, g', x);
  }

  /** The renders' worker sets are pairwise disjoint ... */
  lemma WorkersApart(simple: bool, plans: seq<RenderBucket>, original: seq<Group>, wanted: Group -> bool, u: nat, v: nat,
                     x: string)
    requires Complete(original, wanted) && Carries(plans, Keep(original, wanted)) && u < v < |Units(simple, plans)|
    ensures ScopeOf(Units(simple, plans)[u], original).Inventoried? && ScopeOf(Units(simple, plans)[v], original).Inventoried?
    ensures x in ScopeOf(Units(simple, plans)[u], original).workers ==> x !in ScopeOf(Units(simple, plans)[v], original).workers
  {
    var units := Units(simple, plans);
    EveryUnitResolves(simple, plans, original, wanted, u);
    EveryUnitResolves(simple, plans, original, wanted, v);
    CompleteDistinct(original, wanted);
    KeepDistinct(original, wanted);
    SourcesPartitioned(simple, plans, Keep(original, wanted));
    hide Complete, Carries, ScopeOf, WorksFor, Annotatable, Units;
    if WorksFor(Ids(units[u]), original, x) && WorksFor(Ids(units[v]), original, x) {
      OneEmployer(original, Ids(units[u]), Ids(units[v]), x);
      var id :| id in Ids(units[u]) && id in Ids(units[v]);
      UnitsApart(units, u, v, id);
    }
  }

  /** ... and together they are exactly the selected workers. */
  lemma WorkersCovered(simple: bool, plans: seq<RenderBucket>, original: seq<Group>, wanted: Group -> bool, x: string)
    requires Complete(original, wanted) && Carries(plans, Keep(original, wanted))
    ensures forall u :: 0 <= u < |Units(simple, plans)| ==> ScopeOf(Units(simple, plans)[u], original).Inventoried?
    ensures x in Workers(Keep(original, wanted)) <==>
            exists u :: 0 <= u < |Units(simple, plans)| && x in ScopeOf(Units(simple, plans)[u], original).workers
  {
    var units, filtered := Units(simple, plans), Keep(original, wanted);
    forall u | 0 <= u < |units|
      ensures ScopeOf(units[u], original).Inventoried?
      ensures x in ScopeOf(units[u], original).workers <==> WorksFor(Ids(units[u]), original, x)
    {
      EveryUnitResolves(simple, plans, original, wanted, u);
    }
    CompleteDistinct(original, wanted);
    KeepDistinct(original, wanted);
    SourcesPartitioned(simple, plans, filtered);
    hide Complete, Carries, ScopeOf, Units, Annotatable;
    EmployedByUnits(units, original, wanted, x);
  }

  lemma EmployedByUnits(units: seq<seq<Group>>, original: seq<Group>, wanted: Group -> bool, x: string)
    requires DistinctIds(original) && multiset(Ids(Concat(units))) == multiset(Ids(Keep(original, wanted)))
    ensures x in Workers(Keep(original, wanted)) <==>
            exists u :: 0 <= u < |units| && WorksFor(Ids(units[u]), original, x)
  {
    var filtered := Keep(original, wanted);
    WorkersElements(filtered);
    hide Concat, Workers, Keep;
    forall id ensures id in Ids(filtered) <==> exists u :: 0 <= u < |units| && id in Ids(units[u]) {
      assert id in multiset(Ids(Concat(units))) <==> id in multiset(Ids(filtered));
      ConcatElements(units, id);
    }
    if x in Workers(filtered) {
      var g :| g in filtered && x in g.workerNodes;
      SelectedUnit(units, filtered, g);
      var u :| 0 <= u < |units| && g.identifier in Ids(units[u]);
      assert WorksFor(Ids(units[u]), original, x);
    }
    if u :| 0 <= u < |units| && WorksFor(Ids(units[u]), original, x) {
      var g :| g in original && g.identifier in Ids(units[u]) && x in g.workerNodes;
      assert g.identifier in Ids(filtered);
      SameGroup(original, filtered, g);
    }
  }

  lemma SelectedUnit(units: seq<seq<Group>>, filtered: seq<Group>, g: Group)
    requires forall id :: id in Ids(filtered) ==> exists u :: 0 <= u < |units| && id in Ids(units[u])
    requires g in filtered
    ensures exists u :: 0 <= u < |units| && g.identifier in Ids(units[u])
  {
    var i :| 0 <= i < |filtered| && filtered[i] == g;
    assert Ids(filtered)[i] == g.identifier;
    assert g.identifier in Ids(filtered);
  }

  lemma SameGroup(original: seq<Group>, filtered: seq<Group>, g: Group)
    requires DistinctIds(original) && g in original && g.identifier in Ids(filtered)
    requires forall f :: f in filtered ==> f in original
    ensures g in filtered
  {
    var i :| 0 <= i < |filtered| && Ids(filtered)[i] == g.identifier;
    assert filtered[i] in original;
  }

  // ---------- One render for each source, or one for all ----------

  /** In a node policy each source of a Mode B plan has a render of its own; every other
      render has all sources of its plan. */
  lemma {:induction false} UnitsByMode(simple: bool, plans: seq<RenderBucket>, u: nat) returns (i: nat)
    requires u < |Units(simple, plans)|
    ensures i < |plans|
    ensures if simple && plans[i].modeB then exists g :: g in plans[i].sources && Units(simple, plans)[u] == [g]
            else Units(simple, plans)[u] == plans[i].sources
  {
    var n := |plans| - 1;
    var front := Units(simple, plans[..n]);
    if u < |front| {
      i := UnitsByMode(simple, plans[..n], u);
    } else {
      i := n;
      if simple && plans[n].modeB {
        var g := plans[n].sources[u - |front|];
        assert g in plans[n].sources && Units(simple, plans)[u] == [g];
      }
    }
  }
}
