/** Which workers a generated resource is meant for, and whether its selector picks
    exactly those nodes. */
module TargetScope {
  import opened Wrappers
  import opened Text
  import opened Inventory

  /** The source-groups annotation of a resource. */
  datatype Annotation = Absent | Malformed | Sources(ids: seq<string>)

  datatype Scope = Refused | SelectorOnly | Inventoried(workers: seq<string>)

  // ---------- The intended workers ----------

  ghost predicate TrimDistinct(groups: seq<Group>) {
    forall i, j :: 0 <= i < j < |groups| ==> TrimSpace(groups[i].identifier) != TrimSpace(groups[j].identifier)
  }

  method ValidateIdentifiers(groups: seq<Group>) returns (ok: bool)
    ensures ok <==> TrimDistinct(groups)
  {
    hide TrimSpace;
    var seen := {};
    for i := 0 to |groups|
      invariant TrimDistinct(groups[..i])
      invariant forall id :: id in seen <==> exists j :: 0 <= j < i && TrimSpace(groups[j].identifier) == id
    {
      var id := TrimSpace(groups[i].identifier);
      if id in seen { return false; }
      seen := seen + {id};
    }
    ok := true;
  }

  /** The owner check over all configured workers. */
  method CheckOwners(groups: seq<Group>) returns (ok: bool)
    ensures ok <==> Distinct(Workers(groups))
  {
    var owned := {};
    ghost var before := [];
    for i := 0 to |groups|
      invariant before == Workers(groups[..i]) && Distinct(before)
      invariant forall x :: x in owned <==> x in before
    {
      assert groups[..i + 1][..i] == groups[..i];
      WorkersPrefix(groups, i + 1);
      var nodes := groups[i].workerNodes;
      ok, owned := Claim(nodes, owned, before);
      if !ok { return; }
      before := before + nodes;
    }
    assert groups[..|groups|] == groups;
    ok := true;
  }

  /** One group's workers put on the list, unless one is there already. */
  method Claim(nodes: seq<string>, owned: set<string>, ghost before: seq<string>) returns (ok: bool, owned': set<string>)
    requires Distinct(before) && forall x :: x in owned <==> x in before
    ensures ok <==> Distinct(before + nodes)
    ensures ok ==> forall x :: x in owned' <==> x in before + nodes
  {
    owned' := owned;
    for a := 0 to |nodes|
      invariant Distinct(before + nodes[..a]) && forall x :: x in owned' <==> x in before + nodes[..a]
    {
      var upTo := before + nodes[..a];
      assert before + nodes[..a + 1] == upTo + [nodes[a]];
      assert before + nodes == upTo + [nodes[a]] + nodes[a + 1..];
      if nodes[a] in owned' {
        Repeated(upTo, nodes[a], nodes[a + 1..]);
        return false, owned';
      }
      owned' := owned' + {nodes[a]};
    }
    assert nodes[..|nodes|] == nodes;
    ok := true;
  }

  lemma Repeated(front: seq<string>, x: string, back: seq<string>)
    requires x in front
    ensures !Distinct(front + [x] + back)
  {
    var i :| 0 <= i < |front| && front[i] == x;
    assert (front + [x] + back)[i] == (front + [x] + back)[|front|];
  }

  lemma {:induction false} WorkersPrefix(groups: seq<Group>, i: nat)
    requires i <= |groups|
    ensures Workers(groups[..i]) <= Workers(groups)
    ensures Distinct(Workers(groups)) ==> Distinct(Workers(groups[..i]))
  {
    if i < |groups| {
      WorkersPrefix(groups[..|groups| - 1], i);
      assert groups[..|groups| - 1][..i] == groups[..i];
    } else {
      assert groups[..i] == groups;
    }
  }

  /** The map from identifiers to groups; a later group would replace an earlier one. */
  function Lookup(groups: seq<Group>, id: string): (r: Option<Group>)
    ensures r.Some? <==> id in Ids(groups)
    ensures r.Some? ==> r.value in groups && r.value.identifier == id
  {
    if groups == [] then None else
      var n := |groups| - 1;
      assert Ids(groups) == Ids(groups[..n]) + [groups[n].identifier];
      if groups[n].identifier == id then Some(groups[n]) else Lookup(groups[..n], id)
  }

  /** The configured groups behind the identifiers. */
  function Chosen(ids: seq<string>, groups: seq<Group>): seq<Group> {
    if ids == [] then [] else
      var n := |ids| - 1;
      Chosen(ids[..n], groups) + match Lookup(groups, ids[n]) case None => [] case Some(g) => [g]
  }

  predicate GoodWorker(node: string) { node != "" && Trimmed(node) }

  ghost predicate GoodSource(id: string, ids: seq<string>, groups: seq<Group>) {
    && (id == "" ==> |ids| == 1 && |groups| == 1 && groups[0].identifier == "")
    && Trimmed(id)
    && match Lookup(groups, id)
       case None => false
       case Some(g) => forall node :: node in g.workerNodes ==> GoodWorker(node)
  }

  ghost predicate Resolvable(ids: seq<string>, groups: seq<Group>) {
    && TrimDistinct(groups) && Distinct(Workers(groups)) && Distinct(ids)
    && forall id :: id in ids ==> GoodSource(id, ids, groups)
  }

  ghost function IntentOf(ids: seq<string>, groups: seq<Group>): Scope {
    if !Resolvable(ids, groups) then Refused
    else if forall g :: g in Chosen(ids, groups) ==> g.workerNodes == [] then SelectorOnly
    else if exists g :: g in Chosen(ids, groups) && g.workerNodes == [] then Refused
    else Inventoried(Sorted(Workers(Chosen(ids, groups))))
  }

  /** The intent of a resource: by its annotation, or by the only group there is. */
  ghost function Intent(a: Annotation, groups: seq<Group>): Scope {
    match a
    case Malformed => Refused
    case Sources(ids) => if ids == [] then Refused else IntentOf(ids, groups)
    case Absent =>
      if |groups| == 1 then IntentOf([groups[0].identifier], groups)
      else if exists g :: g in groups && g.workerNodes != [] then Refused
      else SelectorOnly
  }

  lemma TrimDistinctIds(groups: seq<Group>)
    requires TrimDistinct(groups)
    ensures DistinctIds(groups)
  {
    hide TrimSpace;
  }

  lemma {:induction false} ChosenAreGroups(ids: seq<string>, groups: seq<Group>)
    ensures forall g :: g in Chosen(ids, groups) ==> g in groups && g.identifier in ids
  {
    if ids != [] {
      var n := |ids| - 1;
      assert ids == ids[..n] + [ids[n]];
      ChosenAreGroups(ids[..n], groups);
    }
  }

  lemma {:induction false} WorkersElements(groups: seq<Group>)
    ensures forall x :: x in Workers(groups) <==> exists g :: g in groups && x in g.workerNodes
  {
    if groups != [] {
      var n := |groups| - 1;
      assert groups == groups[..n] + [groups[n]];
      WorkersElements(groups[..n]);
    }
  }

  /** Each worker has one owner when none is listed twice. */
  lemma {:induction false} OneOwner(groups: seq<Group>, g: Group, g': Group, x: string)
    requires Distinct(Workers(groups)) && g in groups && g' in groups && x in g.workerNodes && x in g'.workerNodes
    ensures g == g'
  {
    var n := |groups| - 1;
    var front, last := groups[..n], groups[n].workerNodes;
    assert groups == front + [groups[n]] && Workers(groups) == Workers(front) + last;
    WorkersPrefix(groups, n);
    if x in last {
      var b :| 0 <= b < |last| && last[b] == x;
      NotBefore(Workers(front), last, b);
      WorkersElements(front);
      assert g !in front && g' !in front;
    } else {
      OneOwner(front, g, g', x);
    }
  }

  lemma NotBefore(front: seq<string>, last: seq<string>, b: nat)
    requires Distinct(front + last) && b < |last|
    ensures last[b] !in front
  {
    forall a | 0 <= a < |front| ensures front[a] != last[b] {
      assert (front + last)[a] != (front + last)[|front| + b];
    }
  }

  lemma {:induction false} OwnWorkersDistinct(groups: seq<Group>, g: Group)
    requires Distinct(Workers(groups)) && g in groups
    ensures Distinct(g.workerNodes)
  {
    var n := |groups| - 1;
    assert groups == groups[..n] + [groups[n]];
    var front, last := Workers(groups[..n]), groups[n].workerNodes;
    assert Workers(groups) == front + last;
    if g == groups[n] {
      forall i, j | 0 <= i < j < |last| ensures last[i] != last[j] {
        assert (front + last)[|front| + i] != (front + last)[|front| + j];
      }
    } else {
      WorkersPrefix(groups, n);
      OwnWorkersDistinct(groups[..n], g);
    }
  }

  lemma NewWorkers(ids: seq<string>, groups: seq<Group>, g: Group)
    requires Distinct(Workers(groups)) && g in groups && g.identifier !in ids
    ensures forall x :: x in Workers(Chosen(ids, groups)) ==> x !in g.workerNodes
  {
    hide Distinct, Workers, Chosen;
    ChosenAreGroups(ids, groups);
    WorkersElements(Chosen(ids, groups));
    forall x | x in Workers(Chosen(ids, groups)) ensures x !in g.workerNodes {
      var g' :| g' in Chosen(ids, groups) && x in g'.workerNodes;
      if x in g.workerNodes { OneOwner(groups, g, g', x); }
    }
  }

  /** Different identifiers bring different workers. */
  lemma {:induction false} ChosenWorkersDistinct(ids: seq<string>, groups: seq<Group>)
    requires Distinct(Workers(groups)) && Distinct(ids)
    ensures Distinct(Workers(Chosen(ids, groups)))
  {
    if ids == [] {
      assert Workers(Chosen(ids, groups)) == [];
    } else {
      var n := |ids| - 1;
      var front := ids[..n];
      assert Distinct(front) && ids[n] !in front;
      ChosenStep(front, ids[n], groups);
      assert ids == front + [ids[n]];
      hide Distinct, Workers, Chosen, Lookup;
      ChosenWorkersDistinct(front, groups);
      match Lookup(groups, ids[n])
      case None =>
      case Some(g) =>
        OwnWorkersDistinct(groups, g);
        NewWorkers(front, groups, g);
        JoinDistinct(Workers(Chosen(front, groups)), g.workerNodes);
    }
  }

  lemma ChosenStep(ids: seq<string>, id: string, groups: seq<Group>)
    ensures match Lookup(groups, id)
            case None => Chosen(ids + [id], groups) == Chosen(ids, groups)
            case Some(g) => Chosen(ids + [id], groups) == Chosen(ids, groups) + [g]
                            && Workers(Chosen(ids + [id], groups)) == Workers(Chosen(ids, groups)) + g.workerNodes
  {
    assert (ids + [id])[..|ids|] == ids;
  }

  // ---------- resolveTargetScope ----------

  /** What has been read of the identifiers so far. */
  ghost predicate ReadSoFar(done: seq<string>, ids: seq<string>, groups: seq<Group>, seen: set<string>, workers: set<string>,
                            empty: nat)
  {
    && (forall id :: id in seen <==> id in done) && Distinct(done)
    && (forall id :: id in done ==> GoodSource(id, ids, groups))
    && (forall x :: x in workers <==> x in Workers(Chosen(done, groups)))
    && Distinct(Workers(Chosen(done, groups)))
    && empty == |Empty(Chosen(done, groups))| && |Chosen(done, groups)| == |done|
  }

  function Empty(groups: seq<Group>): seq<Group> { Keep(groups, (g: Group) => g.workerNodes == []) }

  /** The checks on one referenced identifier. */
  method CheckSource(id: string, ids: seq<string>, groups: seq<Group>, seen: set<string>) returns (g: Option<Group>)
    requires TrimDistinct(groups)
    ensures g.Some? ==> id !in seen && g == Lookup(groups, id)
    ensures g.Some? ==> Trimmed(id) && (id == "" ==> |ids| == 1 && |groups| == 1 && groups[0].identifier == "")
    ensures g.None? ==> id in seen || !GoodSource(id, ids, groups)
  {
    if id == "" && (|ids| != 1 || |groups| != 1 || groups[0].identifier != "") { return None; }
    if TrimSpace(id) != id || id in seen { return None; }
    g := Lookup(groups, id);
  }

  /** The loop over one group's workers. */
  method TakeWorkers(nodes: seq<string>, workers: set<string>, ghost before: seq<string>)
    returns (ok: bool, workers': set<string>)
    requires Distinct(before) && forall x :: x in workers <==> x in before
    ensures ok <==> Distinct(before + nodes) && forall x :: x in nodes ==> GoodWorker(x)
    ensures ok ==> forall x :: x in workers' <==> x in before + nodes
  {
    hide TrimSpace;
    workers' := workers;
    for a := 0 to |nodes|
      invariant Distinct(before + nodes[..a]) && forall x :: x in workers' <==> x in before + nodes[..a]
      invariant forall x :: x in nodes[..a] ==> GoodWorker(x)
    {
      var upTo := before + nodes[..a];
      assert before + nodes[..a + 1] == upTo + [nodes[a]] && nodes[..a + 1] == nodes[..a] + [nodes[a]];
      assert before + nodes == upTo + [nodes[a]] + nodes[a + 1..];
      if TrimSpace(nodes[a]) == "" || TrimSpace(nodes[a]) != nodes[a] {
        assert !GoodWorker(nodes[a]);
        return false, workers';
      }
      if nodes[a] in workers' {
        Repeated(upTo, nodes[a], nodes[a + 1..]);
        return false, workers';
      }
      workers' := workers' + {nodes[a]};
    }
    assert nodes[..|nodes|] == nodes;
    ok := true;
  }

  lemma ReadStep(done: seq<string>, id: string, ids: seq<string>, groups: seq<Group>, seen: set<string>,
                 workers: set<string>, workers': set<string>, empty: nat)
    requires ReadSoFar(done, ids, groups, seen, workers, empty) && id !in seen && GoodSource(id, ids, groups)
    requires Distinct(Workers(Chosen(done, groups)) + Lookup(groups, id).value.workerNodes)
    requires forall x :: x in workers' <==> x in Workers(Chosen(done, groups)) + Lookup(groups, id).value.workerNodes
    ensures ReadSoFar(done + [id], ids, groups, seen + {id}, workers',
                      empty + if Lookup(groups, id).value.workerNodes == [] then 1 else 0)
  {
    assert Lookup(groups, id).Some?;
    hide ReadSoFar, Workers, Chosen, Lookup, Empty, GoodSource, Distinct;
    ReadMeans(done, ids, groups, seen, workers, empty);
    ChosenStep(done, id, groups);
    EmptyStep(Chosen(done, groups), Lookup(groups, id).value);
    MoreSeen(done, id, seen);
    var next := empty + if Lookup(groups, id).value.workerNodes == [] then 1 else 0;
    ReadFrom(done + [id], ids, groups, seen + {id}, workers', next);
  }

  lemma ReadMeans(done: seq<string>, ids: seq<string>, groups: seq<Group>, seen: set<string>, workers: set<string>, empty: nat)
    requires ReadSoFar(done, ids, groups, seen, workers, empty)
    ensures (forall id :: id in seen <==> id in done) && Distinct(done) && |Chosen(done, groups)| == |done|
    ensures forall id :: id in done ==> GoodSource(id, ids, groups)
    ensures empty == |Empty(Chosen(done, groups))|
  {
    hide Workers, Chosen, Empty, GoodSource, Distinct;
  }

  lemma ReadFrom(done: seq<string>, ids: seq<string>, groups: seq<Group>, seen: set<string>, workers: set<string>, empty: nat)
    requires (forall id :: id in seen <==> id in done) && Distinct(done) && |Chosen(done, groups)| == |done|
    requires forall id :: id in done ==> GoodSource(id, ids, groups)
    requires empty == |Empty(Chosen(done, groups))|
    requires Distinct(Workers(Chosen(done, groups))) && forall x :: x in workers <==> x in Workers(Chosen(done, groups))
    ensures ReadSoFar(done, ids, groups, seen, workers, empty)
  {
    hide Workers, Chosen, Empty, GoodSource, Distinct;
  }

  lemma EmptyStep(groups: seq<Group>, g: Group)
    ensures |Empty(groups + [g])| == |Empty(groups)| + if g.workerNodes == [] then 1 else 0
  {
    KeepAppend(groups, (g: Group) => g.workerNodes == [], g);
  }

  lemma MoreSeen(done: seq<string>, id: string, seen: set<string>)
    requires (forall x :: x in seen <==> x in done) && Distinct(done) && id !in seen
    ensures (forall x :: x in seen + {id} <==> x in done + [id]) && Distinct(done + [id])
  {}

  lemma NotResolvable(done: seq<string>, id: string, rest: seq<string>, groups: seq<Group>)
    requires id in done || !GoodSource(id, done + [id] + rest, groups)
    ensures !Resolvable(done + [id] + rest, groups)
  {
    if id in done { Repeated(done, id, rest); }
    assert id in done + [id] + rest;
  }

  lemma AllRead(ids: seq<string>, groups: seq<Group>, seen: set<string>, workers: set<string>, empty: nat)
    requires TrimDistinct(groups) && Distinct(Workers(groups)) && ReadSoFar(ids, ids, groups, seen, workers, empty)
    ensures Resolvable(ids, groups)
    ensures empty == |ids| <==> forall g :: g in Chosen(ids, groups) ==> g.workerNodes == []
    ensures empty > 0 <==> exists g :: g in Chosen(ids, groups) && g.workerNodes == []
    ensures empty <= |ids|
  {
    var chosen := Chosen(ids, groups);
    hide Chosen, GoodSource, Workers;
    KeepAll(chosen, (g: Group) => g.workerNodes == []);
    var none := Empty(chosen);
    if empty > 0 { assert none[0] in none; }
  }

  /** The workers in sorted order, out of a set that has none. */
  method SortedNodes(workers: set<string>, ghost list: seq<string>) returns (r: seq<string>)
    requires Distinct(list) && forall x :: x in workers <==> x in list
    ensures r == Sorted(list)
  {
    hide Sorted;
    r := [];
    var todo := workers;
    while todo != {}
      invariant Distinct(r) && forall x :: x in workers <==> x in r || x in todo
      invariant forall x :: x in r ==> x !in todo
    {
      var x :| x in todo;
      todo := todo - {x};
      r := r + [x];
    }
    DistinctSame(r, list);
    SortedEqual(r, list);
    r := Sorted(r);
  }

  /** The part of resolveTargetScope that looks identifiers up. */
  method ResolveIds(ids: seq<string>, groups: seq<Group>) returns (scope: Scope)
    ensures scope == IntentOf(ids, groups)
  {
    hide TrimDistinct, Distinct, Workers, GoodSource, ReadSoFar, Chosen, Lookup;
    var ok := ValidateIdentifiers(groups);
    if !ok { return Refused; }
    ok := CheckOwners(groups);
    if !ok { return Refused; }
    var seen: set<string>, workers: set<string>, empty := {}, {}, 0;
    NothingRead(ids, groups);
    for i := 0 to |ids|
      invariant ReadSoFar(ids[..i], ids, groups, seen, workers, empty)
    {
      ghost var done, rest := ids[..i], ids[i + 1..];
      assert ids == done + [ids[i]] + rest && ids[..i + 1] == done + [ids[i]];
      var g := CheckSource(ids[i], ids, groups, seen);
      if g.None? {
        SeenMeansDone(done, ids, groups, seen, workers, empty);
        NotResolvable(done, ids[i], rest, groups);
        return Refused;
      }
      NextWorkers(done, ids[i], ids, groups, seen, workers, empty);
      var workers';
      ok, workers' := TakeWorkers(g.value.workerNodes, workers, Workers(Chosen(done, groups)));
      GoodSourceMeans(ids[i], ids, groups);
      if !ok {
        NotResolvable(done, ids[i], rest, groups);
        return Refused;
      }
      ReadStep(done, ids[i], ids, groups, seen, workers, workers', empty);
      seen, workers := seen + {ids[i]}, workers';
      if g.value.workerNodes == [] { empty := empty + 1; }
    }
    assert ids[..|ids|] == ids;
    AllRead(ids, groups, seen, workers, empty);
    if empty == |ids| { return SelectorOnly; }
    if empty > 0 { return Refused; }
    SeenMeansDone(ids, ids, groups, seen, workers, empty);
    var sorted := SortedNodes(workers, Workers(Chosen(ids, groups)));
    scope := Inventoried(sorted);
  }

  lemma NothingRead(ids: seq<string>, groups: seq<Group>)
    ensures ReadSoFar([], ids, groups, {}, {}, 0)
  {
    assert Chosen([], groups) == [];
  }

  lemma SeenMeansDone(done: seq<string>, ids: seq<string>, groups: seq<Group>, seen: set<string>, workers: set<string>, empty: nat)
    requires ReadSoFar(done, ids, groups, seen, workers, empty)
    ensures (forall id :: id in seen <==> id in done) && Distinct(Workers(Chosen(done, groups)))
    ensures forall x :: x in workers <==> x in Workers(Chosen(done, groups))
  {}

  lemma NextWorkers(done: seq<string>, id: string, ids: seq<string>, groups: seq<Group>, seen: set<string>,
                    workers: set<string>, empty: nat)
    requires Distinct(Workers(groups)) && ReadSoFar(done, ids, groups, seen, workers, empty) && id !in seen
    requires Lookup(groups, id).Some?
    ensures Distinct(Workers(Chosen(done, groups))) && forall x :: x in workers <==> x in Workers(Chosen(done, groups))
    ensures Distinct(Workers(Chosen(done, groups)) + Lookup(groups, id).value.workerNodes)
  {
    ChosenStep(done, id, groups);
    assert Distinct(done + [id]);
    ChosenWorkersDistinct(done + [id], groups);
  }

  lemma GoodSourceMeans(id: string, ids: seq<string>, groups: seq<Group>)
    requires Lookup(groups, id).Some? && Trimmed(id)
    requires id == "" ==> |ids| == 1 && |groups| == 1 && groups[0].identifier == ""
    ensures GoodSource(id, ids, groups) <==> forall x :: x in Lookup(groups, id).value.workerNodes ==> GoodWorker(x)
  {
    hide GoodWorker, Lookup, Trimmed;
  }

  /** resolveTargetScope. */
  method ResolveTargetScope(a: Annotation, groups: seq<Group>) returns (scope: Scope)
    ensures scope == Intent(a, groups)
  {
    hide IntentOf;
    match a {
      case Malformed => scope := Refused;
      case Sources(ids) =>
        if ids == [] { return Refused; }
        scope := ResolveIds(ids, groups);
      case Absent =>
        if |groups| == 1 {
          scope := ResolveIds([groups[0].identifier], groups);
        } else {
          for i := 0 to |groups|
            invariant forall j :: 0 <= j < i ==> groups[j].workerNodes == []
          {
            if |groups[i].workerNodes| > 0 { return Refused; }
          }
          scope := SelectorOnly;
        }
    }
  }

  // ---------- What an annotation comes to ----------

  /** An identifier names one of the groups. */
  ghost predicate Names(id: string, groups: seq<Group>, g: Group) { g in groups && g.identifier == id }

  lemma {:induction false} LookupNamed(groups: seq<Group>, id: string, g: Group)
    requires DistinctIds(groups) && Names(id, groups, g)
    ensures Lookup(groups, id) == Some(g)
  {
    var n := |groups| - 1;
    if groups[n] != g {
      var i :| 0 <= i < |groups| && groups[i] == g;
      assert groups[..n][i] == g;
      LookupNamed(groups[..n], id, g);
    }
  }

  /** A list of identifiers is refused outright exactly when configured identifiers collide
      after trimming, a worker belongs twice, or one of them is repeated, untrimmed, unknown,
      empty beside others, or names a group with a malformed worker. */
  lemma ResolvableMeans(ids: seq<string>, groups: seq<Group>)
    ensures Resolvable(ids, groups) <==>
            && (forall i, j :: 0 <= i < j < |groups| ==> TrimSpace(groups[i].identifier) != TrimSpace(groups[j].identifier))
            && Distinct(Workers(groups))
            && (forall i, j :: 0 <= i < j < |ids| ==> ids[i] != ids[j])
            && forall id :: id in ids ==>
               && TrimSpace(id) == id && (id == "" ==> |ids| == 1 && |groups| == 1 && groups[0].identifier == "")
               && exists g :: Names(id, groups, g) && forall x :: x in g.workerNodes ==> x != "" && TrimSpace(x) == x
  {
    hide TrimSpace, Workers, Lookup;
    if TrimDistinct(groups) {
      TrimDistinctIds(groups);
      forall id, g | Names(id, groups, g) ensures Lookup(groups, id) == Some(g) { LookupNamed(groups, id, g); }
      forall id | Lookup(groups, id).Some? ensures Names(id, groups, Lookup(groups, id).value) {}
    }
  }

  /** What identifiers that resolve mean: no group with workers leaves the selection to the
      selector, some with and some without are refused, and otherwise there is an inventory. */
  lemma IntentMeans(ids: seq<string>, groups: seq<Group>)
    requires ids != []
    ensures var scope := Intent(Sources(ids), groups);
            if !Resolvable(ids, groups) then scope == Refused
            else
              && (scope == SelectorOnly <==> forall g :: g in groups && g.identifier in ids ==> g.workerNodes == [])
              && (scope.Inventoried? <==> forall g :: g in groups && g.identifier in ids ==> g.workerNodes != [])
  {
    if Resolvable(ids, groups) {
      TrimDistinctIds(groups);
      ResolvedChosen(ids, groups);
      ChosenCases(ids, groups);
      hide Chosen, Resolvable, DistinctIds, IntentOf;
    }
  }

  /** That inventory is the sorted list of the workers of the named groups. */
  lemma IntentWorkers(ids: seq<string>, groups: seq<Group>)
    requires ids != [] && Intent(Sources(ids), groups).Inventoried?
    ensures var workers := Intent(Sources(ids), groups).workers;
            IsSorted(workers) && Distinct(workers)
            && forall x :: x in workers <==> exists g :: g in groups && g.identifier in ids && x in g.workerNodes
  {
    hide Chosen, DistinctIds, Workers, Sorted, IsSorted, TrimSpace, TrimDistinct, Distinct, GoodSource;
    TrimDistinctIds(groups);
    ResolvedChosen(ids, groups);
    ChosenCases(ids, groups);
    ChosenWorkersDistinct(ids, groups);
    var chosen, scope := Chosen(ids, groups), Intent(Sources(ids), groups);
    hide Intent, IntentOf, Resolvable;
    WorkersInOrder(chosen);
    forall x ensures x in scope.workers <==> exists g :: g in groups && g.identifier in ids && x in g.workerNodes {
      Employed(chosen, groups, ids, x);
    }
  }

  lemma Employed(chosen: seq<Group>, groups: seq<Group>, ids: seq<string>, x: string)
    requires forall g :: g in chosen <==> g in groups && g.identifier in ids
    ensures (exists g :: g in chosen && x in g.workerNodes) <==> exists g :: g in groups && g.identifier in ids && x in g.workerNodes
  {}

  lemma ChosenCases(ids: seq<string>, groups: seq<Group>)
    requires Resolvable(ids, groups) && Chosen(ids, groups) != []
    ensures var scope, chosen := IntentOf(ids, groups), Chosen(ids, groups);
            && (scope == SelectorOnly <==> forall g :: g in chosen ==> g.workerNodes == [])
            && (scope.Inventoried? <==> forall g :: g in chosen ==> g.workerNodes != [])
            && (scope.Inventoried? ==> scope.workers == Sorted(Workers(chosen)))
  {
    hide Resolvable, Chosen, Workers, Sorted;
    assert Chosen(ids, groups)[0] in Chosen(ids, groups);
  }

  lemma WorkersInOrder(groups: seq<Group>)
    ensures IsSorted(Sorted(Workers(groups))) && (Distinct(Workers(groups)) ==> Distinct(Sorted(Workers(groups))))
    ensures forall x :: x in Sorted(Workers(groups)) <==> exists g :: g in groups && x in g.workerNodes
  {
    WorkersElements(groups);
    SortedElements(Workers(groups));
    hide Workers, Sorted, IsSorted;
  }

  /** The groups behind identifiers that resolve are those they name; there is one. */
  lemma ResolvedChosen(ids: seq<string>, groups: seq<Group>)
    requires Resolvable(ids, groups) && DistinctIds(groups) && ids != []
    ensures Chosen(ids, groups) != []
    ensures forall g :: g in Chosen(ids, groups) <==> g in groups && g.identifier in ids
  {
    NamedChosen(ids, groups);
    var last := ids[|ids| - 1];
    assert last in ids && GoodSource(last, ids, groups);
  }

  lemma {:induction false} NamedChosen(ids: seq<string>, groups: seq<Group>)
    requires DistinctIds(groups)
    ensures forall g :: g in Chosen(ids, groups) <==> g in groups && g.identifier in ids
  {
    if ids != [] {
      var n := |ids| - 1;
      assert ids == ids[..n] + [ids[n]];
      NamedChosen(ids[..n], groups);
      forall g | g in groups ensures Lookup(groups, g.identifier) == Some(g) { LookupNamed(groups, g.identifier, g); }
    }
  }

  /** Without an annotation the only group there is counts; with more, none may have workers. */
  lemma UnannotatedMeans(groups: seq<Group>)
    ensures Intent(Malformed, groups) == Refused && Intent(Sources([]), groups) == Refused
    ensures |groups| == 1 ==> Intent(Absent, groups) == Intent(Sources([groups[0].identifier]), groups)
    ensures |groups| != 1 ==>
              Intent(Absent, groups) == if forall g :: g in groups ==> g.workerNodes == [] then SelectorOnly else Refused
  {}
}
