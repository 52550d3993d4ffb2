/** Teardown against a cluster that answers arbitrarily and recreates objects at will:
    listing, deletion requests, waiting, sweeping until nothing is left. */
module Clean {
  import opened Wrappers
  import opened Kubernetes
  import opened Text

  /** `namespace` is empty for a cluster-scoped object. */
  datatype Ref = Ref(gvk: GVK, namespace: string, name: string)

  datatype Version = Version(name: string, served: bool, storage: bool)

  datatype CRD = CRD(name: string, namespaced: bool, group: string, kind: string, versions: seq<Version>)

  datatype Listing = Failed | NotServed | Items(names: seq<string>)

  /** `Gone` covers a missing object and a kind that is no longer served. */
  datatype DeleteAnswer = Deleted | AlreadyGone | Refused

  datatype GetAnswer = Present | Gone | Broken

  datatype Event =
    | ListedCrds(crds: Option<seq<CRD>>)
    | ListedKind(gvk: GVK, namespace: string, listing: Listing)
    | Deleting(ref: Ref, answer: DeleteAnswer)
    | Getting(target: Ref, found: GetAnswer)
    | Paused(ended: bool)
    | Uninstalled(removed: Option<bool>)

  const NIC_CLUSTER_POLICY := GVK("mellanox.com", "v1alpha1", "NicClusterPolicy")

  const CLUSTER_KINDS: seq<GVK> := [GVK("mellanox.com", "v1alpha1", "HostDeviceNetwork"),
                                    GVK("mellanox.com", "v1alpha1", "IPoIBNetwork"),
                                    GVK("mellanox.com", "v1alpha1", "MacvlanNetwork"),
                                    GVK("mellanox.com", "v1alpha1", "NicNodePolicy"),
                                    NIC_CLUSTER_POLICY]

  /** `patience` is the arbitrary number of listings and pauses after which the context
      ends; the code never reads it. */
  class Server {
    ghost var trace: seq<Event>
    var patience: nat

    constructor ()
      ensures trace == []
    {
      trace := [];
      patience := *;
    }

    method ListCrds() returns (crds: Option<seq<CRD>>)
      modifies this
      ensures trace == old(trace) + [ListedCrds(crds)]
      ensures patience <= old(patience) && (crds.Some? ==> patience < old(patience))
    {
      crds := *;
      if patience == 0 { crds := None; } else { patience := patience - 1; }
      trace := trace + [ListedCrds(crds)];
    }

    method ListKind(gvk: GVK, namespace: string) returns (listing: Listing)
      modifies `trace
      ensures trace == old(trace) + [ListedKind(gvk, namespace, listing)]
    {
      listing := *;
      trace := trace + [ListedKind(gvk, namespace, listing)];
    }

    method Delete(ref: Ref) returns (answer: DeleteAnswer)
      modifies `trace
      ensures trace == old(trace) + [Deleting(ref, answer)]
    {
      answer := *;
      trace := trace + [Deleting(ref, answer)];
    }

    method Get(ref: Ref) returns (answer: GetAnswer)
      modifies `trace
      ensures trace == old(trace) + [Getting(ref, answer)]
    {
      answer := *;
      trace := trace + [Getting(ref, answer)];
    }

    method Pause() returns (ended: bool)
      modifies this
      ensures trace == old(trace) + [Paused(ended)]
      ensures patience <= old(patience) && (!ended ==> patience < old(patience))
    {
      ended := *;
      if patience == 0 { ended := true; } else { patience := patience - 1; }
      trace := trace + [Paused(ended)];
    }

    method Uninstall() returns (removed: Option<bool>)
      modifies `trace
      ensures trace == old(trace) + [Uninstalled(removed)]
    {
      removed := *;
      trace := trace + [Uninstalled(removed)];
    }
  }

  // ---------- Listing ----------

  /** servedStorageVersion. */
  function ServedVersion(versions: seq<Version>, storageOnly: bool): string {
    if versions == [] then "" else
    if versions[0].served && (storageOnly ==> versions[0].storage) then versions[0].name
    else ServedVersion(versions[1..], storageOnly)
  }

  function VersionOf(crd: CRD): string {
    var stored := ServedVersion(crd.versions, true);
    if exists v :: v in crd.versions && v.served && v.storage then stored else ServedVersion(crd.versions, false)
  }

  /** The namespaced kinds to list, in order of the definitions' names. */
  function KindsOf(crds: seq<CRD>): seq<GVK> {
    if crds == [] then [] else
      var n := |crds| - 1;
      KindsOf(crds[..n]) +
      if crds[n].namespaced && VersionOf(crds[n]) != "" then [GVK(crds[n].group, VersionOf(crds[n]), crds[n].kind)] else []
  }

  function ByName(crds: seq<CRD>): seq<CRD> { SortedBy(crds, (c: CRD) => c.name) }

  function RefsOf(e: Event): seq<Ref> {
    if e.ListedKind? && e.listing.Items?
    then seq(|e.listing.names|, i requires 0 <= i < |e.listing.names| => Ref(e.gvk, e.namespace, e.listing.names[i]))
    else []
  }

  function SortKey(r: Ref): string {
    r.gvk.group + "/" + r.gvk.version + ", Kind=" + r.gvk.kind + "/" + r.namespace + "/" + r.name
  }

  /** All that a stretch of listings found. */
  function Collected(events: seq<Event>): seq<Ref> {
    if events == [] then [] else Collected(events[..|events| - 1]) + RefsOf(events[|events| - 1])
  }

  /** Likewise with each kind's objects in order of their names. */
  function CollectedSorted(events: seq<Event>): seq<Ref> {
    if events == [] then [] else
      CollectedSorted(events[..|events| - 1]) + SortedBy(RefsOf(events[|events| - 1]), (r: Ref) => r.name)
  }

  ghost predicate OnlyLists(events: seq<Event>) { forall e :: e in events ==> e.ListedCrds? || e.ListedKind? }

  /** Each of the kinds listed once, in order, without a failure. */
  ghost predicate ListsKinds(events: seq<Event>, kinds: seq<GVK>, namespace: string) {
    && |events| == |kinds|
    && forall i :: 0 <= i < |kinds| ==>
       events[i].ListedKind? && events[i].gvk == kinds[i] && events[i].namespace == namespace && !events[i].listing.Failed?
  }

  ghost predicate NamespacedListing(events: seq<Event>, namespace: string, refs: seq<Ref>) {
    && events != [] && events[0].ListedCrds? && events[0].crds.Some?
    && ListsKinds(events[1..], KindsOf(ByName(events[0].crds.value)), namespace)
    && refs == SortedBy(Collected(events[1..]), SortKey)
  }

  ghost predicate ClusterListing(events: seq<Event>, refs: seq<Ref>) {
    ListsKinds(events, CLUSTER_KINDS, "") && refs == CollectedSorted(events)
  }

  /** The listing stopped at its first failure: of the definitions, or of the next kind. */
  ghost predicate NamespacedFailed(events: seq<Event>, namespace: string) {
    || events == [ListedCrds(None)]
    || (&& |events| > 1 && events[0].ListedCrds? && events[0].crds.Some?
        && ListsUpToFailure(events[1..], KindsOf(ByName(events[0].crds.value)), namespace))
  }

  ghost predicate ListsUpToFailure(events: seq<Event>, kinds: seq<GVK>, namespace: string) {
    var n := |events| - 1;
    && 0 <= n < |kinds| && ListsKinds(events[..n], kinds[..n], namespace) && events[n] == ListedKind(kinds[n], namespace, Failed)
  }

  /** The last answer is one that ends a clean. */
  ghost predicate Ends(t: seq<Event>) {
    t != [] &&
    match t[|t| - 1]
    case ListedCrds(crds) => crds.None?
    case ListedKind(_, _, listing) => listing.Failed?
    case Deleting(_, answer) => answer.Refused?
    case Getting(_, found) => found.Broken?
    case Paused(ended) => ended
    case Uninstalled(removed) => removed.None?
  }

  lemma KindsAppend(crds: seq<CRD>, i: nat)
    requires i < |crds|
    ensures KindsOf(crds[..i + 1]) == KindsOf(crds[..i]) +
            if crds[i].namespaced && VersionOf(crds[i]) != "" then [GVK(crds[i].group, VersionOf(crds[i]), crds[i].kind)] else []
  {
    assert crds[..i + 1][..i] == crds[..i];
  }

  lemma CollectedAppend(events: seq<Event>, e: Event)
    ensures Collected(events + [e]) == Collected(events) + RefsOf(e)
    ensures CollectedSorted(events + [e]) == CollectedSorted(events) + SortedBy(RefsOf(e), (r: Ref) => r.name)
  {
    assert (events + [e])[..|events|] == events;
  }

  /** The listings so far: of the kinds, with everything they found. */
  ghost predicate ListedSoFar(lists: seq<Event>, kinds: seq<GVK>, namespace: string, refs: seq<Ref>, sorted: bool) {
    ListsKinds(lists, kinds, namespace) && refs == if sorted then CollectedSorted(lists) else Collected(lists)
  }

  function FoundIn(e: Event, sorted: bool): seq<Ref> {
    if sorted then SortedBy(RefsOf(e), (r: Ref) => r.name) else RefsOf(e)
  }

  /** One listing; a kind that is not served has no objects. */
  method ListOne(s: Server, gvk: GVK, namespace: string, ghost lists: seq<Event>, ghost kinds: seq<GVK>, refs: seq<Ref>,
                 sorted: bool) returns (ok: bool, refs': seq<Ref>, ghost e: Event)
    requires ListedSoFar(lists, kinds, namespace, refs, sorted)
    modifies s`trace
    ensures s.trace == old(s.trace) + [e] && e.ListedKind?
    ensures !ok ==> e == ListedKind(gvk, namespace, Failed)
    ensures ok ==> ListedSoFar(lists + [e], kinds + [gvk], namespace, refs', sorted)
  {
    hide RefsOf, Collected, CollectedSorted, ListsKinds;
    var listing := s.ListKind(gvk, namespace);
    var event := ListedKind(gvk, namespace, listing);
    e := event;
    CollectedAppend(lists, event);
    if !listing.Failed? { KindListed(lists, kinds, namespace, event); }
    ok, refs' := !listing.Failed?, refs + FoundIn(event, sorted);
  }

  lemma KindListed(lists: seq<Event>, kinds: seq<GVK>, namespace: string, e: Event)
    requires ListsKinds(lists, kinds, namespace) && e.ListedKind? && e.namespace == namespace && !e.listing.Failed?
    ensures ListsKinds(lists + [e], kinds + [e.gvk], namespace)
  {}

  method ListNamespaced(s: Server, namespace: string) returns (ok: bool, refs: seq<Ref>, ghost events: seq<Event>)
    modifies s
    ensures s.trace == old(s.trace) + events && OnlyLists(events)
    ensures s.patience <= old(s.patience) && (ok ==> s.patience < old(s.patience))
    ensures if ok then NamespacedListing(events, namespace, refs) else NamespacedFailed(events, namespace) && Ends(s.trace)
  {
    hide VersionOf, SortKey, ListedSoFar, KindsOf, Collected, ListsKinds, ListsUpToFailure, NamespacedFailed, ByName;
    refs := [];
    var answer := s.ListCrds();
    events := [ListedCrds(answer)];
    if answer.None? {
      CrdsFailed(namespace);
      return false, [], events;
    }
    var crds := ByName(answer.value);
    ghost var lists: seq<Event> := [];
    NothingListed(crds, namespace);
    for i := 0 to |crds|
      invariant events == [ListedCrds(answer)] + lists && s.trace == old(s.trace) + events && OnlyLists(events)
      invariant s.patience < old(s.patience)
      invariant ListedSoFar(lists, KindsOf(crds[..i]), namespace, refs, false)
    {
      KindsAppend(crds, i);
      assert KindsOf(crds[..i]) + [] == KindsOf(crds[..i]);
      var crd := crds[i];
      if crd.namespaced {
        var version := VersionOf(crd);
        if version != "" {
          ghost var e;
          ghost var refs0 := refs;
          var gvk := GVK(crd.group, version, crd.kind);
          ok, refs, e := ListOne(s, gvk, namespace, lists, KindsOf(crds[..i]), refs, false);
          if !ok {
            ListingStops(answer, lists, e, namespace, i, refs0);
            events := events + [e];
            return false, [], events;
          }
          lists := lists + [e];
          events := events + [e];
        }
      }
    }
    assert crds[..|crds|] == crds && events[1..] == lists;
    AllListed(lists, KindsOf(crds), namespace, refs, false);
    ok, refs := true, SortedBy(refs, SortKey);
  }

  lemma StopsListing(lists: seq<Event>, e: Event, kinds: seq<GVK>, namespace: string)
    requires |lists| < |kinds| && ListsKinds(lists, kinds[..|lists|], namespace) && e == ListedKind(kinds[|lists|], namespace, Failed)
    ensures ListsUpToFailure(lists + [e], kinds, namespace)
  {
    assert (lists + [e])[..|lists|] == lists;
  }

  lemma CrdsFailed(namespace: string)
    ensures NamespacedFailed([ListedCrds(None)], namespace)
  {}

  /** The listing of the i-th definition's kind failed. */
  lemma ListingStops(answer: Option<seq<CRD>>, lists: seq<Event>, e: Event, namespace: string, i: nat, refs: seq<Ref>)
    requires answer.Some? && i < |ByName(answer.value)|
    requires var crds := ByName(answer.value);
             && ListedSoFar(lists, KindsOf(crds[..i]), namespace, refs, false) && crds[i].namespaced && VersionOf(crds[i]) != ""
             && e == ListedKind(GVK(crds[i].group, VersionOf(crds[i]), crds[i].kind), namespace, Failed)
    ensures NamespacedFailed([ListedCrds(answer)] + lists + [e], namespace)
  {
    hide VersionOf, ByName, KindsOf, ListsUpToFailure, Collected;
    var crds := ByName(answer.value);
    KindsPrefix(crds, i);
    StopsListing(lists, e, KindsOf(crds), namespace);
    assert ([ListedCrds(answer)] + lists + [e])[1..] == lists + [e];
  }

  /** The kinds of the first definitions come first. */
  lemma {:induction false} KindsPrefix(crds: seq<CRD>, i: nat)
    requires i <= |crds|
    ensures KindsOf(crds[..i]) <= KindsOf(crds)
    ensures i < |crds| && crds[i].namespaced && VersionOf(crds[i]) != "" ==>
              var kinds := KindsOf(crds[..i]);
              |kinds| < |KindsOf(crds)| && KindsOf(crds)[|kinds|] == GVK(crds[i].group, VersionOf(crds[i]), crds[i].kind)
    decreases |crds| - i
  {
    hide VersionOf;
    if i == |crds| {
      assert crds[..i] == crds;
    } else {
      KindsPrefix(crds, i + 1);
      KindsAppend(crds, i);
    }
  }

  lemma NothingListed(crds: seq<CRD>, namespace: string)
    ensures ListedSoFar([], KindsOf(crds[..0]), namespace, [], false) && ListedSoFar([], [], namespace, [], true)
  {}

  lemma AllListed(lists: seq<Event>, kinds: seq<GVK>, namespace: string, refs: seq<Ref>, sorted: bool)
    requires ListedSoFar(lists, kinds, namespace, refs, sorted)
    ensures ListsKinds(lists, kinds, namespace) && refs == if sorted then CollectedSorted(lists) else Collected(lists)
  {}

  lemma ListedOnce(lists: seq<Event>, kinds: seq<GVK>, namespace: string)
    requires ListsKinds(lists, kinds, namespace)
    ensures |lists| == |kinds|
  {}

  method ListClusterScoped(s: Server) returns (ok: bool, refs: seq<Ref>, ghost events: seq<Event>)
    modifies s`trace
    ensures s.trace == old(s.trace) + events && OnlyLists(events)
    ensures if ok then ClusterListing(events, refs) else ListsUpToFailure(events, CLUSTER_KINDS, "") && Ends(s.trace)
  {
    hide ListedSoFar, ListsKinds, CollectedSorted, ListsUpToFailure;
    var kinds := CLUSTER_KINDS;
    refs, events := [], [];
    NothingListed([], "");
    for i := 0 to |kinds|
      invariant s.trace == old(s.trace) + events && OnlyLists(events)
      invariant ListedSoFar(events, kinds[..i], "", refs, true)
    {
      ghost var e;
      assert kinds[..i + 1] == kinds[..i] + [kinds[i]];
      AllListed(events, kinds[..i], "", refs, true);
      ListedOnce(events, kinds[..i], "");
      ok, refs, e := ListOne(s, kinds[i], "", events, kinds[..i], refs, true);
      if !ok { StopsListing(events, e, kinds, ""); }
      events := events + [e];
      if !ok { return false, [], events; }
    }
    assert kinds[..|kinds|] == kinds;
    AllListed(events, kinds, "", refs, true);
    ok := true;
  }

  // ---------- One pass: all requests, then the wait ----------

  /** One request for each object in order, up to the first refusal. */
  ghost predicate Requests(deletes: seq<Event>, refs: seq<Ref>) {
    && |deletes| <= |refs|
    && (forall i :: 0 <= i < |deletes| ==> deletes[i].Deleting? && deletes[i].ref == refs[i])
    && (forall i :: 0 <= i < |deletes| - 1 ==> !deletes[i].answer.Refused?)
    && (|deletes| < |refs| ==> deletes != [] && deletes[|deletes| - 1].answer.Refused?)
  }

  ghost predicate AllRequested(deletes: seq<Event>, refs: seq<Ref>) {
    && |deletes| == |refs|
    && forall i :: 0 <= i < |deletes| ==> deletes[i].Deleting? && deletes[i].ref == refs[i] && !deletes[i].answer.Refused?
  }

  /** How many requests were granted. */
  function Granted(events: seq<Event>): nat {
    if events == [] then 0 else
      var n := |events| - 1;
      Granted(events[..n]) + if events[n].Deleting? && events[n].answer.Deleted? then 1 else 0
  }

  ghost predicate OnlyWaits(waits: seq<Event>, refs: seq<Ref>) {
    forall e :: e in waits ==> e.Paused? || (e.Getting? && e.target in refs)
  }

  /** A round of reads that found nothing any more. */
  ghost predicate RoundGone(round: seq<Event>, refs: seq<Ref>) {
    |round| == |refs| && forall i :: 0 <= i < |refs| ==> round[i] == Getting(refs[i], Gone)
  }

  ghost predicate EndsGone(waits: seq<Event>, refs: seq<Ref>) {
    |waits| >= |refs| && RoundGone(waits[|waits| - |refs|..], refs)
  }

  /** A round of reads in order that stopped at `answer`, all before it being gone. */
  ghost predicate RoundStops(round: seq<Event>, refs: seq<Ref>, answer: GetAnswer) {
    var n := |round| - 1;
    0 <= n < |refs| && RoundGone(round[..n], refs[..n]) && round[n] == Getting(refs[n], answer)
  }

  /** Rounds that found something left, each followed by a pause that was not cut short. */
  ghost predicate Waiting(waits: seq<Event>, refs: seq<Ref>) {
    waits == [] || exists k :: 0 <= k < |waits| && Waiting(waits[..k], refs) && WaitedRound(waits[k..], refs, false)
  }

  ghost predicate WaitedRound(waits: seq<Event>, refs: seq<Ref>, ended: bool) {
    waits != [] && RoundStops(waits[..|waits| - 1], refs, Present) && waits[|waits| - 1] == Paused(ended)
  }

  /** A wait ends well in a round that found nothing, badly in one that could not be read
      or in the end of the context, and otherwise goes on. */
  ghost predicate WaitRun(waits: seq<Event>, refs: seq<Ref>, ok: bool) {
    exists k :: 0 <= k <= |waits| && Waiting(waits[..k], refs)
      && if ok then RoundGone(waits[k..], refs) else RoundStops(waits[k..], refs, Broken) || WaitedRound(waits[k..], refs, true)
  }

  lemma RoundOnlyReads(round: seq<Event>, refs: seq<Ref>, answer: GetAnswer)
    requires RoundGone(round, refs) || RoundStops(round, refs, answer)
    ensures OnlyWaits(round, refs)
  {
    if RoundStops(round, refs, answer) {
      var n := |round| - 1;
      forall e | e in round ensures e.Getting? && e.target in refs {
        var i :| 0 <= i < |round| && round[i] == e;
        if i < n { assert round[..n][i] == e && refs[..n][i] == refs[i]; }
      }
    }
  }

  lemma WaitsJoin(waits: seq<Event>, k: nat, refs: seq<Ref>)
    requires k <= |waits| && OnlyWaits(waits[..k], refs) && OnlyWaits(waits[k..], refs)
    ensures OnlyWaits(waits, refs)
  {
    assert waits == waits[..k] + waits[k..];
  }

  lemma WaitedOnlyReads(waits: seq<Event>, refs: seq<Ref>, ended: bool)
    requires WaitedRound(waits, refs, ended)
    ensures OnlyWaits(waits, refs)
  {
    RoundOnlyReads(waits[..|waits| - 1], refs, Present);
    WaitsJoin(waits, |waits| - 1, refs);
  }

  lemma {:induction false} WaitingOnlyReads(waits: seq<Event>, refs: seq<Ref>)
    requires Waiting(waits, refs)
    ensures OnlyWaits(waits, refs)
    decreases |waits|
  {
    hide WaitedRound, OnlyWaits;
    if waits != [] {
      var k :| 0 <= k < |waits| && Waiting(waits[..k], refs) && WaitedRound(waits[k..], refs, false);
      WaitingOnlyReads(waits[..k], refs);
      WaitedOnlyReads(waits[k..], refs, false);
      WaitsJoin(waits, k, refs);
    } else {
      NoWaits(refs);
    }
  }

  /** A wait reads nothing but its targets; a good one ends in a round that found none. */
  lemma WaitMeans(waits: seq<Event>, refs: seq<Ref>, ok: bool)
    requires WaitRun(waits, refs, ok)
    ensures OnlyWaits(waits, refs)
    ensures ok ==> EndsGone(waits, refs)
  {
    hide Waiting, OnlyWaits, WaitedRound, RoundStops;
    var k :| 0 <= k <= |waits| && Waiting(waits[..k], refs)
      && if ok then RoundGone(waits[k..], refs) else RoundStops(waits[k..], refs, Broken) || WaitedRound(waits[k..], refs, true);
    WaitingOnlyReads(waits[..k], refs);
    if !ok && WaitedRound(waits[k..], refs, true) {
      WaitedOnlyReads(waits[k..], refs, true);
    } else {
      RoundOnlyReads(waits[k..], refs, Broken);
    }
    WaitsJoin(waits, k, refs);
  }

  method RequestAll(s: Server, refs: seq<Ref>) returns (ok: bool, deleted: nat, ghost deletes: seq<Event>)
    modifies s`trace
    ensures s.trace == old(s.trace) + deletes
    ensures Requests(deletes, refs) && (ok <==> AllRequested(deletes, refs)) && deleted == Granted(deletes)
  {
    deleted, deletes := 0, [];
    for i := 0 to |refs|
      invariant s.trace == old(s.trace) + deletes && |deletes| == i && deleted == Granted(deletes)
      invariant AllRequested(deletes, refs[..i])
    {
      var answer := s.Delete(refs[i]);
      assert (deletes + [Deleting(refs[i], answer)])[..i] == deletes;
      deletes := deletes + [Deleting(refs[i], answer)];
      if answer.Refused? {
        assert deletes[i].answer.Refused?;
        return false, deleted, deletes;
      }
      if answer.Deleted? { deleted := deleted + 1; }
    }
    assert refs[..|refs|] == refs;
    ok := true;
  }

  /** One round of the poll, up to the first object that is not gone. */
  method PollRound(s: Server, refs: seq<Ref>) returns (gone: bool, broken: bool, ghost round: seq<Event>)
    modifies s`trace
    ensures s.trace == old(s.trace) + round
    ensures if gone then RoundGone(round, refs) else RoundStops(round, refs, if broken then Broken else Present)
  {
    round := [];
    for i := 0 to |refs|
      invariant s.trace == old(s.trace) + round && RoundGone(round, refs[..i])
    {
      var answer := s.Get(refs[i]);
      assert (round + [Getting(refs[i], answer)])[..i] == round;
      round := round + [Getting(refs[i], answer)];
      if answer.Present? { return false, false, round; }
      if answer.Broken? { return false, true, round; }
    }
    assert refs[..|refs|] == refs;
    gone, broken := true, false;
  }

  /** wait.PollUntilContextCancel with an immediate first round. */
  method WaitGone(s: Server, refs: seq<Ref>) returns (ok: bool, ghost waits: seq<Event>)
    modifies s
    ensures s.trace == old(s.trace) + waits && s.patience <= old(s.patience)
    ensures WaitRun(waits, refs, ok) && (!ok ==> Ends(waits))
  {
    hide RoundGone, RoundStops, Waiting, WaitRun;
    waits := [];
    NothingWaited(refs);
    while true
      invariant s.trace == old(s.trace) + waits && Waiting(waits, refs) && s.patience <= old(s.patience)
      decreases s.patience
    {
      ghost var round;
      var gone, broken;
      gone, broken, round := PollRound(s, refs);
      if gone || broken {
        WaitDone(waits, round, refs, gone);
        waits := waits + round;
        return gone, waits;
      }
      var ended := s.Pause();
      WaitedOnce(waits, round, refs, ended);
      waits := waits + round + [Paused(ended)];
      if ended { return false, waits; }
    }
  }

  lemma NothingWaited(refs: seq<Ref>)
    ensures Waiting([], refs)
  {}

  lemma WaitDone(waits: seq<Event>, round: seq<Event>, refs: seq<Ref>, gone: bool)
    requires Waiting(waits, refs) && if gone then RoundGone(round, refs) else RoundStops(round, refs, Broken)
    ensures WaitRun(waits + round, refs, gone) && (!gone ==> Ends(waits + round))
  {
    hide Waiting, RoundGone;
    var all := waits + round;
    assert all[..|waits|] == waits && all[|waits|..] == round;
  }

  lemma WaitedOnce(waits: seq<Event>, round: seq<Event>, refs: seq<Ref>, ended: bool)
    requires Waiting(waits, refs) && RoundStops(round, refs, Present)
    ensures var all := waits + round + [Paused(ended)];
            if ended then WaitRun(all, refs, false) && Ends(all) else Waiting(all, refs)
  {
    hide RoundStops;
    var all := waits + round + [Paused(ended)];
    var rest := all[|waits|..];
    assert all[..|waits|] == waits && rest == round + [Paused(ended)] && rest[..|rest| - 1] == round;
    assert WaitedRound(rest, refs, ended);
  }

  /** What a delete and its wait come to: a refusal and no wait, or all requests and a wait
      that ends as `ok` says. No objects, no wait. */
  ghost predicate WaitAfter(deletes: seq<Event>, waits: seq<Event>, refs: seq<Ref>, ok: bool) {
    if AllRequested(deletes, refs) then (if refs == [] then ok && waits == [] else WaitRun(waits, refs, ok))
    else !ok && waits == []
  }

  method DeleteAllAndWait(s: Server, refs: seq<Ref>)
    returns (ok: bool, deleted: nat, ghost deletes: seq<Event>, ghost waits: seq<Event>)
    modifies s
    ensures s.trace == old(s.trace) + deletes + waits && s.patience <= old(s.patience)
    ensures Requests(deletes, refs) && WaitAfter(deletes, waits, refs, ok) && deleted == Granted(deletes)
    ensures !ok ==> Ends(s.trace)
  {
    deleted, deletes, waits := 0, [], [];
    if |refs| == 0 { return true, 0, [], []; }
    hide AllRequested, Granted, Requests, WaitRun;
    ok, deleted, deletes := RequestAll(s, refs);
    if !ok {
      RefusedLast(deletes, refs);
      return;
    }
    ok, waits := WaitGone(s, refs);
  }

  lemma RefusedLast(deletes: seq<Event>, refs: seq<Ref>)
    requires Requests(deletes, refs) && !AllRequested(deletes, refs)
    ensures deletes != [] && deletes[|deletes| - 1].Deleting? && deletes[|deletes| - 1].answer.Refused?
  {}

  lemma NoWaits(refs: seq<Ref>)
    ensures OnlyWaits([], refs)
  {}

  // ---------- The sweep ----------

  /** One pass: what was listed, the requests sent, the reads and pauses of the wait. */
  datatype Pass = Pass(namespaced: seq<Event>, own: seq<Ref>, clustered: seq<Event>, shared: seq<Ref>,
                       deletes: seq<Event>, waits: seq<Event>)

  function Targets(p: Pass): seq<Ref> { p.own + p.shared }

  function EventsOf(p: Pass): seq<Event> { p.namespaced + p.clustered + p.deletes + p.waits }

  function Flat(passes: seq<Pass>): seq<Event> {
    if passes == [] then [] else Flat(passes[..|passes| - 1]) + EventsOf(passes[|passes| - 1])
  }

  /** Both listings succeeded before the first request, and every request was sent before
      the first read of the wait. */
  ghost predicate PassRun(p: Pass, namespace: string, ok: bool) {
    && NamespacedListing(p.namespaced, namespace, p.own) && ClusterListing(p.clustered, p.shared)
    && Requests(p.deletes, Targets(p)) && WaitAfter(p.deletes, p.waits, Targets(p), ok)
  }

  ghost predicate GoodPass(p: Pass, namespace: string) { PassRun(p, namespace, true) || PassRun(p, namespace, false) }

  /** All requests went through and the wait ended well. */
  ghost predicate FinishedPass(p: Pass) { AllRequested(p.deletes, Targets(p)) && WaitAfter(p.deletes, p.waits, Targets(p), true) }

  /** In a finished pass a last round of reads found nothing. */
  lemma FinishedMeans(p: Pass)
    requires FinishedPass(p)
    ensures AllRequested(p.deletes, Targets(p)) && OnlyWaits(p.waits, Targets(p)) && EndsGone(p.waits, Targets(p))
  {
    hide WaitRun, AllRequested, Targets;
    NoWaits(Targets(p));
    if Targets(p) != [] { WaitMeans(p.waits, Targets(p), true); }
  }

  lemma PassWaits(p: Pass, namespace: string)
    requires GoodPass(p, namespace)
    ensures OnlyWaits(p.waits, Targets(p)) && (p.waits != [] ==> AllRequested(p.deletes, Targets(p)))
  {
    hide WaitRun, AllRequested, Targets, NamespacedListing, ClusterListing, Requests, OnlyWaits;
    NoWaits(Targets(p));
    if WaitRun(p.waits, Targets(p), true) { WaitMeans(p.waits, Targets(p), true); }
    if WaitRun(p.waits, Targets(p), false) { WaitMeans(p.waits, Targets(p), false); }
  }

  ghost predicate GoodPasses(passes: seq<Pass>, namespace: string) {
    && (forall i :: 0 <= i < |passes| ==> GoodPass(passes[i], namespace))
    && forall i :: 0 <= i < |passes| - 1 ==> FinishedPass(passes[i])
  }

  ghost predicate AllFinished(passes: seq<Pass>) { forall i :: 0 <= i < |passes| ==> FinishedPass(passes[i]) }

  /** A final pair of listings that found nothing. */
  ghost predicate FoundNothing(tail: seq<Event>, namespace: string) {
    exists k :: 0 <= k <= |tail| && NamespacedListing(tail[..k], namespace, []) && ClusterListing(tail[k..], [])
  }

  lemma {:induction false} GrantedConcat(a: seq<Event>, b: seq<Event>)
    ensures Granted(a + b) == Granted(a) + Granted(b)
  {
    if b == [] {
      assert a + b == a;
    } else {
      var n := |b| - 1;
      assert (a + b)[..|a + b| - 1] == a + b[..n];
      GrantedConcat(a, b[..n]);
    }
  }

  lemma GrantedOne(ref: Ref, answer: DeleteAnswer)
    ensures Granted([Deleting(ref, answer)]) == if answer == Deleted then 1 else 0
  {
    assert [Deleting(ref, answer)][..0] == [];
  }

  lemma {:induction false} NothingGranted(events: seq<Event>)
    requires forall e :: e in events ==> !e.Deleting?
    ensures Granted(events) == 0
  {
    if events != [] { NothingGranted(events[..|events| - 1]); }
  }

  lemma GrantedInPass(passes: seq<Pass>, p: Pass, namespace: string)
    requires GoodPass(p, namespace) && OnlyLists(p.namespaced) && OnlyLists(p.clustered)
    ensures Flat(passes + [p]) == Flat(passes) + EventsOf(p)
    ensures Granted(Flat(passes + [p])) == Granted(Flat(passes)) + Granted(p.deletes)
  {
    assert (passes + [p])[..|passes|] == passes;
    hide NamespacedListing, ClusterListing, Requests, AllRequested, WaitRun;
    PassWaits(p, namespace);
    GrantedConcat(Flat(passes), EventsOf(p));
    GrantedConcat(p.namespaced + p.clustered + p.deletes, p.waits);
    GrantedConcat(p.namespaced + p.clustered, p.deletes);
    GrantedConcat(p.namespaced, p.clustered);
    NothingGranted(p.namespaced);
    NothingGranted(p.clustered);
    NothingGranted(p.waits);
  }

  /** The listings stopped at the first failure. */
  ghost predicate ListBothFailed(first: seq<Event>, second: seq<Event>, namespace: string) {
    if second == [] then NamespacedFailed(first, namespace)
    else (exists own :: NamespacedListing(first, namespace, own)) && ListsUpToFailure(second, CLUSTER_KINDS, "")
  }

  ghost predicate ListingFailed(tail: seq<Event>, namespace: string) {
    exists k :: 0 <= k <= |tail| && ListBothFailed(tail[..k], tail[k..], namespace)
  }

  lemma FailedListing(first: seq<Event>, second: seq<Event>, namespace: string)
    requires ListBothFailed(first, second, namespace)
    ensures first + second != [] && ListingFailed(first + second, namespace)
  {
    hide NamespacedListing, ListsUpToFailure;
    var tail := first + second;
    assert tail[..|first|] == first && tail[|first|..] == second;
    NotListed(first, namespace);
  }

  lemma NotListed(first: seq<Event>, namespace: string)
    ensures first == [] ==> !NamespacedFailed(first, namespace) && forall own :: !NamespacedListing(first, namespace, own)
  {}

  /** Both listings, namespaced first. */
  method ListBoth(s: Server, namespace: string)
    returns (ok: bool, own: seq<Ref>, shared: seq<Ref>, ghost first: seq<Event>, ghost second: seq<Event>)
    modifies s
    ensures s.trace == old(s.trace) + first + second
    ensures OnlyLists(first) && OnlyLists(second) && OnlyLists(first + second)
    ensures s.patience <= old(s.patience) && (ok ==> s.patience < old(s.patience))
    ensures if ok then NamespacedListing(first, namespace, own) && ClusterListing(second, shared)
            else Ends(s.trace) && ListBothFailed(first, second, namespace)
  {
    hide NamespacedListing, ClusterListing, NamespacedFailed, Ends;
    shared, second := [], [];
    ok, own, first := ListNamespaced(s, namespace);
    if !ok { return; }
    ok, shared, second := ListClusterScoped(s);
  }

  /** The requests and the wait of one pass. */
  method RunPass(s: Server, namespace: string, own: seq<Ref>, shared: seq<Ref>, ghost first: seq<Event>,
                 ghost second: seq<Event>) returns (ok: bool, count: nat, ghost p: Pass)
    requires NamespacedListing(first, namespace, own) && ClusterListing(second, shared)
    modifies s
    ensures p.namespaced == first && p.own == own && p.clustered == second && p.shared == shared
    ensures s.trace == old(s.trace) + p.deletes + p.waits && s.patience <= old(s.patience)
    ensures PassRun(p, namespace, ok) && GoodPass(p, namespace) && (ok ==> FinishedPass(p)) && count == Granted(p.deletes)
    ensures !ok ==> Ends(s.trace)
  {
    hide NamespacedListing, ClusterListing, Requests, AllRequested, WaitRun, Ends;
    ghost var deletes, waits;
    ok, count, deletes, waits := DeleteAllAndWait(s, own + shared);
    p := Pass(first, own, second, shared, deletes, waits);
  }

  /** The sweep so far. */
  ghost predicate Swept(passes: seq<Pass>, namespace: string, deleted: nat) {
    GoodPasses(passes, namespace) && AllFinished(passes) && deleted == Granted(Flat(passes))
  }

  lemma SweepStep(passes: seq<Pass>, namespace: string, deleted: nat, p: Pass)
    requires Swept(passes, namespace, deleted) && GoodPass(p, namespace) && OnlyLists(p.namespaced) && OnlyLists(p.clustered)
    ensures Flat(passes + [p]) == Flat(passes) + EventsOf(p)
    ensures GoodPasses(passes + [p], namespace) && deleted + Granted(p.deletes) == Granted(Flat(passes + [p]))
    ensures FinishedPass(p) ==> Swept(passes + [p], namespace, deleted + Granted(p.deletes))
  {
    hide GoodPass, FinishedPass, Granted, Flat, EventsOf, GoodPasses, AllFinished, OnlyLists;
    GrantedInPass(passes, p, namespace);
    OneMorePass(passes, namespace, p);
  }

  lemma OneMorePass(passes: seq<Pass>, namespace: string, p: Pass)
    requires GoodPasses(passes, namespace) && AllFinished(passes) && GoodPass(p, namespace)
    ensures GoodPasses(passes + [p], namespace) && (FinishedPass(p) ==> AllFinished(passes + [p]))
  {
    hide GoodPass, FinishedPass;
  }

  lemma SweepStart(namespace: string)
    ensures Swept([], namespace, 0) && Flat([]) == []
  {}

  /** deleteNetworkOperatorCustomResources. `passes` are the passes it made, `tail` the
      listings after the last of them. */
  method DeleteCustomResources(s: Server, namespace: string)
    returns (ok: bool, deleted: nat, ghost passes: seq<Pass>, ghost tail: seq<Event>)
    modifies s
    ensures s.trace == old(s.trace) + Flat(passes) + tail && OnlyLists(tail)
    ensures GoodPasses(passes, namespace) && (tail != [] ==> AllFinished(passes))
    ensures deleted == Granted(Flat(passes))
    ensures ok ==> passes != [] && AllFinished(passes) && FoundNothing(tail, namespace)
    ensures !ok ==> Ends(s.trace) && if tail == [] then passes != [] && PassRun(passes[|passes| - 1], namespace, false)
                                     else ListingFailed(tail, namespace)
  {
    hide NamespacedListing, ClusterListing, GoodPass, PassRun, FinishedPass, Ends, ListBothFailed, ListingFailed, FoundNothing, Swept, Granted, Flat, OnlyLists, GoodPasses, AllFinished;
    deleted, passes, tail := 0, [], [];
    SweepStart(namespace);
    SweptMeans([], namespace, 0);
    NoLists();
    ghost var first, second, p;
    var own, shared, count;
    ok, own, shared, first, second := ListBoth(s, namespace);
    if !ok {
      FailedListing(first, second, namespace);
      tail := first + second;
      return;
    }
    ok, count, p := RunPass(s, namespace, own, shared, first, second);
    SweepStep([], namespace, 0, p);
    deleted, passes := count, [] + [p];
    if !ok { return; }
    while true
      invariant s.trace == old(s.trace) + Flat(passes) && Swept(passes, namespace, deleted)
      invariant passes != [] && tail == []
      decreases s.patience
    {
      SweptMeans(passes, namespace, deleted);
      ok, own, shared, first, second := ListBoth(s, namespace);
      if !ok {
        FailedListing(first, second, namespace);
        tail := first + second;
        return;
      }
      var remaining := own + shared;
      if |remaining| == 0 {
        tail := first + second;
        assert own == [] && shared == [];
        NothingFound(first, second, namespace);
        return;
      }
      ok, count, p := RunPass(s, namespace, own, shared, first, second);
      SweepStep(passes, namespace, deleted, p);
      deleted, passes := deleted + count, passes + [p];
      if !ok { return; }
    }
  }

  lemma NothingFound(first: seq<Event>, second: seq<Event>, namespace: string)
    requires NamespacedListing(first, namespace, []) && ClusterListing(second, [])
    ensures FoundNothing(first + second, namespace)
  {
    hide NamespacedListing, ClusterListing;
    var tail := first + second;
    assert tail[..|first|] == first && tail[|first|..] == second;
  }

  lemma SweptMeans(passes: seq<Pass>, namespace: string, deleted: nat)
    requires Swept(passes, namespace, deleted)
    ensures GoodPasses(passes, namespace) && AllFinished(passes) && deleted == Granted(Flat(passes))
  {}

  lemma NoLists()
    ensures OnlyLists([])
  {}

  // ---------- What every run keeps ----------

  lemma {:induction false} CollectedFrom(events: seq<Event>, r: Ref) returns (j: nat)
    requires r in Collected(events) || r in CollectedSorted(events)
    ensures j < |events| && r in RefsOf(events[j])
  {
    var n := |events| - 1;
    if r in RefsOf(events[n]) {
      j := n;
    } else {
      SortedByElements(RefsOf(events[n]), (r: Ref) => r.name);
      j := CollectedFrom(events[..n], r);
    }
  }

  /** Each target of a pass was found by one of its own listings. */
  lemma TargetListed(p: Pass, namespace: string, r: Ref) returns (j: nat)
    requires GoodPass(p, namespace) && r in Targets(p)
    ensures j < |p.namespaced + p.clustered| && r in RefsOf((p.namespaced + p.clustered)[j])
  {
    hide RefsOf, Collected, CollectedSorted, ListsKinds, Requests, AllRequested, WaitAfter;
    if r in p.own {
      SortedByElements(Collected(p.namespaced[1..]), SortKey);
      j := CollectedFrom(p.namespaced[1..], r);
      j := j + 1;
    } else {
      j := CollectedFrom(p.clustered, r);
      j := j + |p.namespaced|;
    }
  }

  lemma OnlyListings(p: Pass, namespace: string)
    requires GoodPass(p, namespace)
    ensures OnlyLists(p.namespaced) && OnlyLists(p.clustered)
  {
    forall e | e in p.namespaced ensures e.ListedCrds? || e.ListedKind? {
      var i :| 0 <= i < |p.namespaced| && p.namespaced[i] == e;
      assert i > 0 ==> e == p.namespaced[1..][i - 1];
    }
  }

  /** Only what was listed is deleted: every request in a run comes after a listing, of the
      same pass, that found its object, with no read of a wait in between. */
  lemma {:induction false} OnlyListedIsDeleted(passes: seq<Pass>, namespace: string, k: nat) returns (j: nat)
    requires GoodPasses(passes, namespace) && k < |Flat(passes)| && Flat(passes)[k].Deleting?
    ensures j < k && Flat(passes)[k].ref in RefsOf(Flat(passes)[j])
    ensures forall i :: j <= i < k ==> !Flat(passes)[i].Getting? && !Flat(passes)[i].Paused?
  {
    hide RefsOf, NamespacedListing, ClusterListing, AllRequested, FinishedPass, WaitAfter;
    var n := |passes| - 1;
    var front, p := Flat(passes[..n]), passes[n];
    if k < |front| {
      j := OnlyListedIsDeleted(passes[..n], namespace, k);
    } else {
      assert GoodPass(p, namespace);
      OnlyListings(p, namespace);
      var lists := p.namespaced + p.clustered;
      DeleteInPass(p, namespace, k - |front|);
      var at := TargetListed(p, namespace, EventsOf(p)[k - |front|].ref);
      j := |front| + at;
      assert Flat(passes)[j] == EventsOf(p)[at] == lists[at];
      forall i | j <= i < k ensures !Flat(passes)[i].Getting? && !Flat(passes)[i].Paused? {
        assert Flat(passes)[i] == EventsOf(p)[i - |front|];
      }
    }
  }

  /** A request stands behind the listings of its pass and before its wait. */
  lemma DeleteInPass(p: Pass, namespace: string, k: nat)
    requires GoodPass(p, namespace) && OnlyLists(p.namespaced) && OnlyLists(p.clustered)
    requires k < |EventsOf(p)| && EventsOf(p)[k].Deleting?
    ensures |p.namespaced + p.clustered| <= k && EventsOf(p)[k].ref in Targets(p)
    ensures forall i :: 0 <= i <= k ==> !EventsOf(p)[i].Getting? && !EventsOf(p)[i].Paused?
  {
    hide NamespacedListing, ClusterListing, AllRequested, WaitRun;
    PassWaits(p, namespace);
    var lists := p.namespaced + p.clustered;
    assert forall i :: 0 <= i < |lists| ==> EventsOf(p)[i] == lists[i] && lists[i] in lists;
    assert forall e :: e in lists ==> !e.Deleting? && !e.Getting? && !e.Paused?;
    var before := lists + p.deletes;
    assert forall i :: |before| <= i < |EventsOf(p)| ==> EventsOf(p)[i] == p.waits[i - |before|] && p.waits[i - |before|] in p.waits;
    assert forall i :: |lists| <= i < |before| ==> EventsOf(p)[i] == p.deletes[i - |lists|];
  }

  /** The cluster-scoped NicClusterPolicy. */
  predicate IsRootPolicy(r: Ref) { r.gvk == NIC_CLUSTER_POLICY && r.namespace == "" }

  lemma {:induction false} NoRootPolicies(events: seq<Event>)
    requires forall e :: e in events ==> forall r :: r in RefsOf(e) ==> !IsRootPolicy(r)
    ensures forall r :: r in Collected(events) || r in CollectedSorted(events) ==> !IsRootPolicy(r)
  {
    forall r | r in Collected(events) || r in CollectedSorted(events) ensures !IsRootPolicy(r) {
      var j := CollectedFrom(events, r);
      assert events[j] in events;
    }
  }

  lemma PassListings(p: Pass, namespace: string)
    requires GoodPass(p, namespace)
    ensures NamespacedListing(p.namespaced, namespace, p.own) && ClusterListing(p.clustered, p.shared)
  {}

  /** The cluster-wide targets: first everything else, then the NicClusterPolicies. */
  lemma SharedSplit(events: seq<Event>, shared: seq<Ref>) returns (early: seq<Ref>, late: seq<Ref>)
    requires ClusterListing(events, shared)
    ensures shared == early + late
    ensures (forall r :: r in early ==> !IsRootPolicy(r)) && forall r :: r in late ==> IsRootPolicy(r)
  {
    hide RefsOf, IsRootPolicy;
    var n := |events| - 1;
    OtherKinds(events, events[..n]);
    NoRootPolicies(events[..n]);
    SortedByElements(RefsOf(events[n]), (r: Ref) => r.name);
    early, late := CollectedSorted(events[..n]), SortedBy(RefsOf(events[n]), (r: Ref) => r.name);
  }

  lemma OwnAreNoRoots(events: seq<Event>, namespace: string, own: seq<Ref>)
    requires NamespacedListing(events, namespace, own) && namespace != ""
    ensures forall r :: r in own ==> !IsRootPolicy(r)
  {
    hide Collected, RefsOf, IsRootPolicy, SortKey, KindsOf, ByName;
    OwnRefs(events, namespace);
    NoRootPolicies(events[1..]);
    SortedByElements(Collected(events[1..]), SortKey);
  }

  /** The targets: first everything else, then the cluster-scoped NicClusterPolicies. */
  lemma RootPoliciesBehind(p: Pass, namespace: string) returns (early: seq<Ref>, late: seq<Ref>)
    requires GoodPass(p, namespace) && namespace != ""
    ensures Targets(p) == early + late
    ensures (forall r :: r in early ==> !IsRootPolicy(r)) && forall r :: r in late ==> IsRootPolicy(r)
  {
    PassListings(p, namespace);
    hide GoodPass, NamespacedListing, ClusterListing, IsRootPolicy;
    OwnAreNoRoots(p.namespaced, namespace, p.own);
    early, late := SharedSplit(p.clustered, p.shared);
    early := p.own + early;
  }

  /** Requests for the NicClusterPolicy come after all other requests of a pass. */
  lemma RootPoliciesLast(p: Pass, namespace: string, i: nat, j: nat)
    requires GoodPass(p, namespace) && namespace != ""
    requires i < j < |p.deletes| && IsRootPolicy(p.deletes[i].ref)
    ensures IsRootPolicy(p.deletes[j].ref)
  {
    hide GoodPass, IsRootPolicy, Targets;
    RequestsMatch(p, namespace);
    var early, late := RootPoliciesBehind(p, namespace);
    assert forall x :: 0 <= x < |early| ==> early[x] in early && Targets(p)[x] == early[x];
    assert i >= |early|;
    assert late[j - |early|] in late;
  }

  lemma RequestsMatch(p: Pass, namespace: string)
    requires GoodPass(p, namespace)
    ensures |p.deletes| <= |Targets(p)|
    ensures forall i :: 0 <= i < |p.deletes| ==> p.deletes[i].Deleting? && p.deletes[i].ref == Targets(p)[i]
  {
    hide NamespacedListing, ClusterListing, WaitAfter;
  }

  lemma OtherKinds(events: seq<Event>, others: seq<Event>)
    requires ListsKinds(events, CLUSTER_KINDS, "") && others == events[..|events| - 1]
    ensures forall e :: e in others ==> forall r :: r in RefsOf(e) ==> !IsRootPolicy(r)
    ensures forall r :: r in RefsOf(events[|events| - 1]) ==> IsRootPolicy(r)
  {
    forall e | e in others ensures forall r :: r in RefsOf(e) ==> !IsRootPolicy(r) {
      var i :| 0 <= i < |others| && others[i] == e;
      assert e.gvk == CLUSTER_KINDS[i] && e.gvk.kind != "NicClusterPolicy";
    }
  }

  lemma OwnRefs(events: seq<Event>, namespace: string)
    requires events != [] && namespace != "" && (exists kinds :: ListsKinds(events[1..], kinds, namespace))
    ensures forall e :: e in events[1..] ==> forall r :: r in RefsOf(e) ==> !IsRootPolicy(r)
  {}

  // ---------- cleanWithUninstaller ----------

  /** `removed` is None when the chart was not touched. */
  datatype Result = Result(customResourcesDeleted: nat, helmReleaseRemoved: Option<bool>)

  /** The chart is uninstalled last, once, and only after a final pair of listings found
      nothing; a clean that succeeds always ends that way or keeps the chart. */
  method CleanWithUninstaller(s: Server, namespace: string, keepHelmChart: bool, hasConfig: bool)
    returns (ok: bool, result: Result, ghost passes: seq<Pass>, ghost tail: seq<Event>, ghost uninstall: seq<Event>)
    modifies s
    ensures s.trace == old(s.trace) + Flat(passes) + tail + uninstall && OnlyLists(tail) && GoodPasses(passes, namespace)
    ensures namespace == "" ==> !ok && s.trace == old(s.trace)
    ensures uninstall == [] || (|uninstall| == 1 && uninstall[0].Uninstalled? && !keepHelmChart)
    ensures ok || uninstall != [] ==> AllFinished(passes) && FoundNothing(tail, namespace)
    ensures ok || uninstall != [] ==> result.customResourcesDeleted == Granted(Flat(passes))
    ensures ok && !keepHelmChart ==> uninstall == [Uninstalled(result.helmReleaseRemoved)] && result.helmReleaseRemoved.Some?
    ensures !ok && uninstall != [] ==> uninstall == [Uninstalled(None)]
    ensures !ok && uninstall == [] && (keepHelmChart || hasConfig) ==> result == Result(0, None)
    ensures ok && keepHelmChart ==> uninstall == [] && result.helmReleaseRemoved.None?
    ensures !ok ==>
              || namespace == "" || Ends(s.trace)
              || (!keepHelmChart && !hasConfig && uninstall == [] && AllFinished(passes) && FoundNothing(tail, namespace))
  {
    hide GoodPasses, AllFinished, FoundNothing, Granted, OnlyLists, Flat;
    result, passes, tail, uninstall := Result(0, None), [], [], [];
    SweepStart(namespace);
    SweptMeans([], namespace, 0);
    NoLists();
    if namespace == "" { return false, result, passes, tail, uninstall; }
    var deleted;
    ok, deleted, passes, tail := DeleteCustomResources(s, namespace);
    if !ok { return; }
    result := Result(deleted, None);
    if keepHelmChart { return; }
    if !hasConfig { return false, result, passes, tail, uninstall; }
    var removed := s.Uninstall();
    uninstall := [Uninstalled(removed)];
    ok, result := removed.Some?, Result(deleted, removed);
  }

  // ---------- What is asked for and what is requested ----------

  lemma {:induction false} ServedAt(versions: seq<Version>, storageOnly: bool, i: nat)
    requires i < |versions| && versions[i].served && (storageOnly ==> versions[i].storage)
    requires forall j :: 0 <= j < i ==> !(versions[j].served && (storageOnly ==> versions[j].storage))
    ensures ServedVersion(versions, storageOnly) == versions[i].name
  {
    if i > 0 { ServedAt(versions[1..], storageOnly, i - 1); }
  }

  lemma {:induction false} NoneServed(versions: seq<Version>, storageOnly: bool)
    requires forall v :: v in versions ==> !v.served
    ensures ServedVersion(versions, storageOnly) == ""
  {
    if versions != [] { NoneServed(versions[1..], storageOnly); }
  }

  /** The version a definition is asked for in: the first that is served and stored, or the
      first that is served when none is both. */
  ghost predicate AskedVersion(crd: CRD, i: nat) {
    && i < |crd.versions| && crd.versions[i].served
    && if exists v :: v in crd.versions && v.served && v.storage
       then crd.versions[i].storage && forall j :: 0 <= j < i ==> !(crd.versions[j].served && crd.versions[j].storage)
       else forall j :: 0 <= j < i ==> !crd.versions[j].served
  }

  lemma VersionMeans(crd: CRD)
    ensures forall i: nat :: AskedVersion(crd, i) ==> VersionOf(crd) == crd.versions[i].name
    ensures (forall v :: v in crd.versions ==> !v.served) ==> VersionOf(crd) == ""
  {
    forall i: nat | AskedVersion(crd, i) ensures VersionOf(crd) == crd.versions[i].name {
      assert crd.versions[i] in crd.versions;
      ServedAt(crd.versions, exists v :: v in crd.versions && v.served && v.storage, i);
    }
    if forall v :: v in crd.versions ==> !v.served { NoneServed(crd.versions, false); }
  }

  lemma {:induction false} KindsMean(crds: seq<CRD>)
    ensures forall k :: k in KindsOf(crds) <==>
              exists c :: c in crds && c.namespaced && VersionOf(c) != "" && k == GVK(c.group, VersionOf(c), c.kind)
  {
    hide VersionOf;
    if crds != [] {
      var n := |crds| - 1;
      assert crds == crds[..n] + [crds[n]];
      KindsMean(crds[..n]);
    }
  }

  /** A listing asks for every served namespaced kind of the cluster in its namespace ... */
  lemma NamespacedKindAsked(events: seq<Event>, namespace: string, refs: seq<Ref>, c: CRD, i: nat)
    requires NamespacedListing(events, namespace, refs) && c in events[0].crds.value && c.namespaced
    requires AskedVersion(c, i) && c.versions[i].name != ""
    ensures exists e :: e in events && e.ListedKind? && e.gvk == GVK(c.group, c.versions[i].name, c.kind) && e.namespace == namespace
  {
    VersionMeans(c);
    var version := c.versions[i].name;
    hide VersionOf, AskedVersion, Collected, SortKey, KindsOf;
    var crds := events[0].crds.value;
    var sorted, lists := ByName(crds), events[1..];
    SortedByElements(crds, (c: CRD) => c.name);
    KindsMean(sorted);
    var kind := GVK(c.group, version, c.kind);
    assert c in sorted && kind in KindsOf(sorted);
    var k :| 0 <= k < |KindsOf(sorted)| && KindsOf(sorted)[k] == kind;
    assert lists[k] == events[k + 1];
  }

  /** ... and for no cluster-scoped one. */
  lemma OnlyNamespacedAsked(events: seq<Event>, namespace: string, refs: seq<Ref>, e: Event)
    requires NamespacedListing(events, namespace, refs) && e in events && e.ListedKind?
    ensures e.namespace == namespace
    ensures exists c :: c in events[0].crds.value && c.namespaced && e.gvk.group == c.group && e.gvk.kind == c.kind
  {
    hide VersionOf, Collected, SortKey, KindsOf;
    var crds := events[0].crds.value;
    var sorted, lists := ByName(crds), events[1..];
    SortedByElements(crds, (c: CRD) => c.name);
    KindsMean(sorted);
    var k :| 0 <= k < |events| && events[k] == e;
    assert lists[k - 1] == e && KindsOf(sorted)[k - 1] in KindsOf(sorted);
  }

  /** Cluster-wide it asks for exactly the five kinds of the operator, its root policy last. */
  lemma ClusterKindsAsked(events: seq<Event>, refs: seq<Ref>)
    requires ClusterListing(events, refs)
    ensures |events| == 5
    ensures forall e :: e in events ==> (e.ListedKind? && e.namespace == "" && e.gvk.group == "mellanox.com" && e.gvk.version == "v1alpha1")
    ensures events[0].gvk.kind == "HostDeviceNetwork" && events[1].gvk.kind == "IPoIBNetwork"
    ensures events[2].gvk.kind == "MacvlanNetwork" && events[3].gvk.kind == "NicNodePolicy" && events[4].gvk.kind == "NicClusterPolicy"
  {
    hide CollectedSorted;
  }

  lemma {:induction false} FoundIsCollected(events: seq<Event>, j: nat, r: Ref)
    requires j < |events| && r in RefsOf(events[j])
    ensures r in Collected(events) && r in CollectedSorted(events)
  {
    hide RefsOf;
    var n := |events| - 1;
    if j < n { FoundIsCollected(events[..n], j, r); }
    SortedByElements(RefsOf(events[n]), (r: Ref) => r.name);
  }

  /** Whatever a listing of a pass found is a target of the pass. */
  lemma FoundIsTarget(p: Pass, namespace: string, e: Event, r: Ref)
    requires GoodPass(p, namespace) && e in p.namespaced + p.clustered && r in RefsOf(e)
    ensures r in Targets(p)
  {
    hide Collected, CollectedSorted, ListsKinds, Requests, WaitAfter;
    if e in p.namespaced {
      var j :| 0 <= j < |p.namespaced| && p.namespaced[j] == e;
      hide RefsOf;
      FoundIsCollected(p.namespaced[1..], j - 1, r);
      SortedByElements(Collected(p.namespaced[1..]), SortKey);
      assert r in p.own;
    } else {
      var j :| 0 <= j < |p.clustered| && p.clustered[j] == e;
      hide RefsOf;
      FoundIsCollected(p.clustered, j, r);
      assert r in p.shared;
    }
  }

  /** Its deletion is requested, unless an earlier request was refused. */
  lemma FoundIsRequested(p: Pass, namespace: string, gvk: GVK, at: string, names: seq<string>, name: string)
    requires GoodPass(p, namespace) && name in names && ListedKind(gvk, at, Items(names)) in p.namespaced + p.clustered
    ensures AllRequested(p.deletes, Targets(p)) ==> exists d :: d in p.deletes && d.Deleting? && d.ref == Ref(gvk, at, name)
  {
    hide GoodPass, Targets;
    var e, r := ListedKind(gvk, at, Items(names)), Ref(gvk, at, name);
    var i :| 0 <= i < |names| && names[i] == name;
    assert RefsOf(e)[i] == r;
    FoundIsTarget(p, namespace, e, r);
    var k :| 0 <= k < |Targets(p)| && Targets(p)[k] == r;
    if AllRequested(p.deletes, Targets(p)) { assert p.deletes[k] in p.deletes; }
  }

  /** Within a pass the namespaced requests go by kind, namespace and name. */
  lemma OwnInOrder(p: Pass, namespace: string, i: nat, j: nat)
    requires GoodPass(p, namespace) && i < j < |p.own|
    ensures var a, b := p.own[i], p.own[j];
            Leq(a.gvk.group + "/" + a.gvk.version + ", Kind=" + a.gvk.kind + "/" + a.namespace + "/" + a.name,
                b.gvk.group + "/" + b.gvk.version + ", Kind=" + b.gvk.kind + "/" + b.namespace + "/" + b.name)
  {
    PassListings(p, namespace);
    var found := Collected(p.namespaced[1..]);
    SortedByKeys(found, SortKey);
    hide GoodPass, Collected, ListsKinds, KindsOf, Sorted, Leq;
    assert KeysOf(p.own, SortKey)[i] == SortKey(p.own[i]) && KeysOf(p.own, SortKey)[j] == SortKey(p.own[j]);
    SortedIsSorted(KeysOf(found, SortKey), i, j);
  }

  lemma SortedIsSorted(keys: seq<string>, i: nat, j: nat)
    requires i < j < |Sorted(keys)|
    ensures Leq(Sorted(keys)[i], Sorted(keys)[j])
  {
    hide Leq;
  }
}
