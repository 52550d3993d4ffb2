/** Distinct shared-resource names for OpenShift buckets that share a GPU. */
module Renaming {
  import opened Text
  import opened Identifiers
  import opened Inventory
  import opened RenderPlan

  function Names(plans: seq<RenderBucket>): (r: seq<string>)
    ensures |r| == |plans| && forall i :: 0 <= i < |r| ==> r[i] == plans[i].merged.identifier
  {
    seq(|plans|, i requires 0 <= i < |plans| => plans[i].merged.identifier)
  }

  ghost predicate Unique(names: seq<string>, i: nat)
    requires i < |names|
  {
    forall j :: 0 <= j < |names| && j != i ==> names[j] != names[i]
  }

  function Renamed(plan: RenderBucket, id: string): RenderBucket {
    plan.(merged := plan.merged.(identifier := id, mergedIdentifier := id), sources := Stamp(plan.sources, id))
  }

  /** Each source carries its bucket's name. */
  ghost predicate Stamped(plan: RenderBucket) {
    forall s :: s in plan.sources ==> s.mergedIdentifier == plan.merged.identifier
  }

  /** The n-th name tried for a plan. */
  function Try(h: Hash, plan: RenderBucket, n: nat): string {
    Candidate(h, plan.merged.identifier, |EastWest(plan.merged.pfs)|, n)
  }

  /** A candidate all of whose predecessors are taken. */
  ghost predicate NextFree(h: Hash, plan: RenderBucket, taken: set<string>, id: string) {
    exists n: nat :: Try(h, plan, n) == id && Exhausted(h, plan, taken, n)
  }

  /** The first `count` candidates are all taken. */
  ghost predicate Exhausted(h: Hash, plan: RenderBucket, taken: set<string>, count: nat) {
    forall m :: 0 <= m < count ==> Try(h, plan, m) in taken
  }

  /** The suffix search, given up after `budget` names. */
  method SearchName(h: Hash, plan: RenderBucket, used: set<string>, budget: nat) returns (found: bool, id: string)
    ensures found ==> id !in used && NextFree(h, plan, used, id)
    ensures !found ==> Exhausted(h, plan, used, budget)
  {
    hide Candidate;
    var rails := |EastWest(plan.merged.pfs)|;
    var n := 0;
    id := Candidate(h, plan.merged.identifier, rails, n);
    while id in used && n < budget
      invariant id == Try(h, plan, n) && n <= budget
      invariant forall m :: 0 <= m < n ==> Try(h, plan, m) in used
    {
      n := n + 1;
      id := Candidate(h, plan.merged.identifier, rails, n);
    }
    found := id !in used;
  }

  /** How often each name occurs. */
  method CountNames(plans: array<RenderBucket>) returns (counts: map<string, nat>)
    ensures forall i :: 0 <= i < plans.Length ==> plans[i].merged.identifier in counts
    ensures forall i :: 0 <= i < plans.Length ==> (counts[plans[i].merged.identifier] == 1 <==> Unique(Names(plans[..]), i))
  {
    hide Unique;
    counts := map[];
    var names := Names(plans[..]);
    for i := 0 to plans.Length
      invariant forall id :: id in counts <==> id in names[..i]
      invariant forall id :: id in counts ==> counts[id] == multiset(names[..i])[id]
    {
      assert names[..i + 1] == names[..i] + [names[i]];
      var id := plans[i].merged.identifier;
      counts := counts[id := (if id in counts then counts[id] else 0) + 1];
    }
    assert names[..plans.Length] == names;
    forall i | 0 <= i < plans.Length ensures multiset(names)[names[i]] == 1 <==> Unique(names, i) { CountedOnce(names, i); }
  }

  lemma CountedOnce(names: seq<string>, i: nat)
    requires i < |names|
    ensures multiset(names)[names[i]] == 1 <==> Unique(names, i)
  {
    var front, back := names[..i], names[i + 1..];
    assert names == front + [names[i]] + back;
    if Unique(names, i) {
      assert names[i] !in front && names[i] !in back;
    } else {
      var j :| 0 <= j < |names| && j != i && names[j] == names[i];
      assert if j < i then front[j] == names[i] else back[j - i - 1] == names[i];
      assert names[i] in multiset(front) || names[i] in multiset(back);
    }
  }

  /** The plans whose name is final once the loop has reached `i`. */
  ghost function Settled(names: seq<string>, i: nat): set<int> {
    set j | 0 <= j < |names| && (j < i || Unique(names, j))
  }

  /** The plans outside `done` are as they were; those in it have different names. */
  ghost predicate Progress(was: seq<RenderBucket>, now: seq<RenderBucket>, used: set<string>, done: set<int>) {
    && |now| == |was|
    && (forall j :: 0 <= j < |was| ==> Turn(was, now, done, j))
    && (forall x :: x in used <==> exists j :: 0 <= j < |now| && j in done && now[j].merged.identifier == x)
    && (forall j, k :: 0 <= j < k < |now| && j in done && k in done ==> now[j].merged.identifier != now[k].merged.identifier)
  }

  ghost predicate Turn(was: seq<RenderBucket>, now: seq<RenderBucket>, done: set<int>, j: nat)
    requires j < |was| == |now|
  {
    now[j] == if j !in done || Unique(Names(was), j) then was[j] else Renamed(was[j], now[j].merged.identifier)
  }

  method UniqueNames(plans: array<RenderBucket>, counts: map<string, nat>) returns (used: set<string>)
    requires forall i :: 0 <= i < plans.Length ==> plans[i].merged.identifier in counts
    requires forall i :: 0 <= i < plans.Length ==> (counts[plans[i].merged.identifier] == 1 <==> Unique(Names(plans[..]), i))
    ensures forall x :: x in used <==> exists j :: 0 <= j < plans.Length && Unique(Names(plans[..]), j) && plans[j].merged.identifier == x
  {
    used := {};
    for i := 0 to plans.Length
      invariant forall x :: x in used <==> exists j :: 0 <= j < i && Unique(Names(plans[..]), j) && plans[j].merged.identifier == x
    {
      if counts[plans[i].merged.identifier] == 1 { used := used + {plans[i].merged.identifier}; }
    }
  }

  /** One plan's turn, when its name is shared. */
  lemma ProgressRenamed(was: seq<RenderBucket>, now: seq<RenderBucket>, used: set<string>, done: set<int>, i: nat, id: string)
    requires i < |was| && i !in done && Progress(was, now, used, done) && !Unique(Names(was), i) && id !in used
    ensures Progress(was, now[i := Renamed(was[i], id)], used + {id}, done + {i})
  {
    hide Unique, Stamp, Names, Turn;
    var next := now[i := Renamed(was[i], id)];
    forall j | 0 <= j < |was| ensures Turn(was, next, done + {i}, j) { TurnKept(was, now, done, i, id, j); }
    assert next[i].merged.identifier == id;
  }

  lemma TurnKept(was: seq<RenderBucket>, now: seq<RenderBucket>, done: set<int>, i: nat, id: string, j: nat)
    requires i < |was| == |now| && j < |was| && !Unique(Names(was), i) && Turn(was, now, done, j)
    ensures Turn(was, now[i := Renamed(was[i], id)], done + {i}, j)
  {
    hide Unique, Stamp, Names;
  }

  lemma SettledNext(names: seq<string>, i: nat)
    requires i < |names|
    ensures Settled(names, i + 1) == Settled(names, i) + {i}
    ensures i in Settled(names, i) <==> Unique(names, i)
  {
    hide Unique;
  }

  /** At the start only the unique names are settled. */
  lemma ProgressStart(was: seq<RenderBucket>, used: set<string>)
    requires forall x :: x in used <==> exists j :: 0 <= j < |was| && Unique(Names(was), j) && was[j].merged.identifier == x
    ensures Progress(was, was, used, Settled(Names(was), 0))
  {
    var names := Names(was);
    var done := Settled(names, 0);
    assert forall j :: 0 <= j < |was| ==> names[j] == was[j].merged.identifier;
    forall j, k | 0 <= j < k < |was| && j in done && k in done ensures was[j].merged.identifier != was[k].merged.identifier {
      assert Unique(names, j);
    }
  }

  // ---------- Why the search ends ----------

  /** A set of values taken from a sequence is no larger than the sequence. */
  lemma {:induction false} ElementsBound(s: set<string>, t: seq<string>)
    requires forall x :: x in s ==> x in t
    ensures |s| <= |t|
  {
    if t == [] {
      assert s == {};
    } else {
      var n := |t| - 1;
      var rest := s - {t[n]};
      forall x | x in rest ensures x in t[..n] {
        var i :| 0 <= i < |t| && t[i] == x;
        assert t[..n][i] == x;
      }
      ElementsBound(rest, t[..n]);
      assert s <= rest + {t[n]};
      Smaller(s, rest + {t[n]});
    }
  }

  lemma {:induction false} Smaller(a: set<string>, b: set<string>)
    requires a <= b
    ensures |a| <= |b|
  {
    if x :| x in a {
      Smaller(a - {x}, b - {x});
    }
  }

  /** Two of the first `count` candidates agree. */
  ghost predicate Collides(h: Hash, plan: RenderBucket, count: nat) {
    exists m, n :: 0 <= m < n < count && Try(h, plan, m) == Try(h, plan, n)
  }

  /** Pigeonhole: different names that are all taken are no more than the taken ones. */
  lemma {:induction false} DistinctFit(names: seq<string>, taken: set<string>)
    requires Distinct(names) && forall i :: 0 <= i < |names| ==> names[i] in taken
    ensures |names| <= |taken|
  {
    if names != [] {
      var n := |names| - 1;
      DistinctFit(names[..n], taken - {names[n]});
    }
  }

  function Tries(h: Hash, plan: RenderBucket, count: nat): (r: seq<string>)
    ensures |r| == count && forall n :: 0 <= n < count ==> r[n] == Try(h, plan, n)
  {
    seq(count, n requires 0 <= n < count => Try(h, plan, n))
  }

  lemma NoCollision(h: Hash, plan: RenderBucket, count: nat, taken: set<string>)
    requires Exhausted(h, plan, taken, count) && |taken| < count
    ensures Collides(h, plan, count)
  {
    hide Try;
    var tries := Tries(h, plan, count);
    if !Collides(h, plan, count) {
      assert Distinct(tries);
      DistinctFit(tries, taken);
    }
  }

  /** Fewer names are taken than there are plans, so as many distinct candidates as
      plans cannot all be taken. */
  lemma SearchEnds(h: Hash, was: seq<RenderBucket>, now: seq<RenderBucket>, used: set<string>, done: set<int>, i: nat, budget: nat)
    requires i < |was| && i !in done && Progress(was, now, used, done)
    requires Exhausted(h, was[i], used, budget) && budget >= |was|
    ensures Collides(h, was[i], |was|)
  {
    TakenByOthers(was, now, used, done, i);
    hide Collides, Try, Progress;
    assert Exhausted(h, was[i], used, |was|);
    NoCollision(h, was[i], |was|, used);
  }

  lemma TakenByOthers(was: seq<RenderBucket>, now: seq<RenderBucket>, used: set<string>, done: set<int>, i: nat)
    requires i < |was| && i !in done && Progress(was, now, used, done)
    ensures |used| < |was|
  {
    hide Turn;
    var names := Names(now);
    var others := names[..i] + names[i + 1..];
    forall x | x in used ensures x in others {
      var j :| 0 <= j < |now| && j in done && now[j].merged.identifier == x;
      assert if j < i then others[j] == x else others[j - 1] == x;
    }
    ElementsBound(used, others);
  }

  /** Candidates that fit the length limit never collide. */
  lemma FittingNamesDoNotCollide(h: Hash, plan: RenderBucket, count: nat)
    requires forall n :: 0 <= n < count ==>
               |Normalize(Attempt(plan.merged.identifier, |EastWest(plan.merged.pfs)|, n))| <= MAX_LENGTH
    ensures !Collides(h, plan, count)
  {
    forall m: nat, n: nat | m < n < count ensures Try(h, plan, m) != Try(h, plan, n) {
      FittingCandidatesDiffer(h, plan.merged.identifier, |EastWest(plan.merged.pfs)|, m, n);
    }
  }

  // ---------- disambiguateOCPSameGPUBuckets ----------

  ghost predicate AllDifferent(plans: seq<RenderBucket>) {
    forall j, k :: 0 <= j < k < |plans| ==> plans[j].merged.identifier != plans[k].merged.identifier
  }

  /** A plan keeps its unique name, or is renamed to a candidate whose predecessors are
      all names of plans. */
  ghost predicate Outcome(h: Hash, was: seq<RenderBucket>, now: seq<RenderBucket>, j: nat)
    requires j < |was| == |now|
  {
    if Unique(Names(was), j) then now[j] == was[j]
    else
      && now[j] == Renamed(was[j], now[j].merged.identifier)
      && NextFree(h, was[j], (set x | x in Names(now)), now[j].merged.identifier)
  }

  lemma NotYet(was: seq<RenderBucket>, now: seq<RenderBucket>, used: set<string>, done: set<int>, i: nat)
    requires i < |was| && Progress(was, now, used, done) && (i in done ==> Unique(Names(was), i))
    ensures |now| == |was| && now[i] == was[i]
  {
    hide Unique, Names, Renamed;
    assert Turn(was, now, done, i);
  }

  lemma StillNext(h: Hash, plan: RenderBucket, taken: set<string>, more: set<string>, id: string)
    requires NextFree(h, plan, taken, id) && taken <= more
    ensures NextFree(h, plan, more, id)
  {
    hide Try;
    var n: nat :| Try(h, plan, n) == id && Exhausted(h, plan, taken, n);
    assert Exhausted(h, plan, more, n);
  }

  /** The invariant of the renaming loop. */
  ghost predicate Loop(h: Hash, was: seq<RenderBucket>, now: seq<RenderBucket>, used: set<string>, i: nat) {
    Progress(was, now, used, Settled(Names(was), i)) && AllNext(h, was, now, used, i)
  }

  ghost predicate AllNext(h: Hash, was: seq<RenderBucket>, now: seq<RenderBucket>, used: set<string>, i: nat)
    requires |now| == |was|
  {
    forall j :: 0 <= j < i && j < |was| && !Unique(Names(was), j) ==> NextFree(h, was[j], used, now[j].merged.identifier)
  }

  lemma OneMoreNext(h: Hash, was: seq<RenderBucket>, now: seq<RenderBucket>, used: set<string>, i: nat)
    requires i < |was| == |now| && AllNext(h, was, now, used, i)
    requires Unique(Names(was), i) || NextFree(h, was[i], used, now[i].merged.identifier)
    ensures AllNext(h, was, now, used, i + 1)
  {
    hide Unique, NextFree, Names;
  }

  lemma LoopStart(h: Hash, was: seq<RenderBucket>, used: set<string>)
    requires forall x :: x in used <==> exists j :: 0 <= j < |was| && Unique(Names(was), j) && was[j].merged.identifier == x
    ensures Loop(h, was, was, used, 0)
  {
    hide Unique, Progress, Settled;
    ProgressStart(was, used);
  }

  /** A turn finds its plan unchanged; one with a unique name has nothing to do. */
  lemma LoopTurn(h: Hash, was: seq<RenderBucket>, now: seq<RenderBucket>, used: set<string>, i: nat)
    requires i < |was| && Loop(h, was, now, used, i)
    ensures |now| == |was| && now[i] == was[i] && Progress(was, now, used, Settled(Names(was), i))
    ensures Unique(Names(was), i) ==> Loop(h, was, now, used, i + 1)
    ensures !Unique(Names(was), i) ==> i !in Settled(Names(was), i)
  {
    hide Unique, Settled, NextFree, AllNext, Names, Turn;
    SettledNext(Names(was), i);
    NotYet(was, now, used, Settled(Names(was), i), i);
    if Unique(Names(was), i) {
      OneMoreNext(h, was, now, used, i);
      assert Settled(Names(was), i) + {i} == Settled(Names(was), i);
    }
  }

  lemma LoopRenamed(h: Hash, was: seq<RenderBucket>, now: seq<RenderBucket>, used: set<string>, i: nat, id: string)
    requires i < |was| && Loop(h, was, now, used, i) && !Unique(Names(was), i)
    requires id !in used && NextFree(h, was[i], used, id)
    ensures |now| == |was| && Loop(h, was, now[i := Renamed(was[i], id)], used + {id}, i + 1)
  {
    hide Unique, Progress, Settled, NextFree, Names;
    SettledNext(Names(was), i);
    LoopTurn(h, was, now, used, i);
    ProgressRenamed(was, now, used, Settled(Names(was), i), i, id);
    forall j | 0 <= j < i && !Unique(Names(was), j) ensures NextFree(h, was[j], used + {id}, now[j].merged.identifier) {
      StillNext(h, was[j], used, used + {id}, now[j].merged.identifier);
    }
    StillNext(h, was[i], used, used + {id}, id);
    RenamedName(was[i], id);
  }

  lemma Finished(h: Hash, was: seq<RenderBucket>, now: seq<RenderBucket>, used: set<string>)
    requires Loop(h, was, now, used, |was|)
    ensures AllDifferent(now) && forall j :: 0 <= j < |was| ==> Outcome(h, was, now, j)
  {
    hide Unique, Renamed, NextFree;
    var names := set x | x in Names(now);
    forall x | x in used ensures x in names {
      var j :| 0 <= j < |now| && now[j].merged.identifier == x;
      assert Names(now)[j] == x;
    }
    forall j | 0 <= j < |was| ensures Outcome(h, was, now, j) {
      assert Turn(was, now, Settled(Names(was), |was|), j);
      if !Unique(Names(was), j) { StillNext(h, was[j], used, names, now[j].merged.identifier); }
    }
  }

  /** `budget` bounds the names tried for one plan, which the source does not; the search
      runs out of it only if it is smaller than the number of plans or if two of a plan's
      first candidates agree. */
  method DisambiguateOCPSameGPUBuckets(h: Hash, plans: array<RenderBucket>, budget: nat) returns (ended: bool)
    modifies plans
    ensures ended ==> AllDifferent(plans[..])
    ensures ended ==> forall j :: 0 <= j < plans.Length ==> Outcome(h, old(plans[..]), plans[..], j)
    ensures !ended && budget >= plans.Length ==>
              exists j :: 0 <= j < plans.Length && !Unique(Names(old(plans[..])), j) && Collides(h, old(plans[j]), plans.Length)
  {
    hide Unique, Renamed, Names, Loop, Outcome, Collides, Exhausted, NextFree, Progress, Settled, AllDifferent, Try;
    ghost var was := plans[..];
    var counts := CountNames(plans);
    var used := UniqueNames(plans, counts);
    LoopStart(h, was, used);
    for i := 0 to plans.Length
      invariant Loop(h, was, plans[..], used, i)
    {
      LoopTurn(h, was, plans[..], used, i);
      if counts[plans[i].merged.identifier] != 1 {
        ghost var now := plans[..];
        var found, id := SearchName(h, plans[i], used, budget);
        if !found {
          if budget >= plans.Length { SearchEnds(h, was, now, used, Settled(Names(was), i), i, budget); }
          return false;
        }
        LoopRenamed(h, was, now, used, i, id);
        plans[i] := Renamed(plans[i], id);
        used := used + {id};
        assert plans[..] == now[i := Renamed(was[i], id)];
      }
    }
    Finished(h, was, plans[..], used);
    ended := true;
  }

  lemma RenamedName(plan: RenderBucket, id: string)
    ensures Renamed(plan, id).merged.identifier == id
  {}

  /** Renaming leaves each plan's sources the same groups and keeps them stamped. */
  lemma OutcomeKeepsSources(h: Hash, was: seq<RenderBucket>, now: seq<RenderBucket>, j: nat)
    requires j < |was| == |now| && Outcome(h, was, now, j) && Stamped(was[j])
    ensures Stamped(now[j]) && Ids(now[j].sources) == Ids(was[j].sources) && now[j].modeB == was[j].modeB
    ensures now[j].merged.pfs == was[j].merged.pfs && now[j].merged.workerNodes == was[j].merged.workerNodes
    ensures var id := now[j].merged.identifier;
            && (was[j].merged.mergedIdentifier == was[j].merged.identifier ==>
                  now[j].merged == was[j].merged.(identifier := id, mergedIdentifier := id))
            && |now[j].sources| == |was[j].sources|
            && forall i :: 0 <= i < |was[j].sources| ==> now[j].sources[i] == was[j].sources[i].(mergedIdentifier := id)
  {
    hide Unique, NextFree;
  }
}
