/** The whole deploy: checks, staged effects, policies in sequence, the remaining
    manifests, and their verification. */
module Phases {
  import opened Wrappers
  import opened Kubernetes
  import opened Cluster
  import opened Poll
  import opened PollSafety
  import opened PollOutcomes
  import opened Deploy

  datatype Options = Options(ocp: bool, dryRun: bool, overwriteExisting: bool, skipHelmChart: bool,
                             valuesPresent: bool, helmMetadata: bool)

  /** What a deploy is asked to do, and how: the NicClusterPolicy if any followed by the
      NicNodePolicies, and everything else. */
  datatype Plan = Plan(policy: Option<Manifest>, boot: seq<Manifest>, others: seq<Manifest>, opts: Options) {
    ghost predicate Distinct() {
      && (forall i, j :: 0 <= i < j < |boot| ==> boot[i] != boot[j])
      && (forall i, j :: 0 <= i < j < |others| ==> others[i] != others[j])
      && (forall i, j :: 0 <= i < |boot| && 0 <= j < |others| ==> boot[i] != others[j])
    }
  }

  // ---------- The law every effect obeys ----------

  predicate ManagesChart(opts: Options) {
    !opts.ocp && !opts.skipHelmChart && opts.valuesPresent && opts.helmMetadata
  }

  /** The checks before the first effect, all passed, in their order. */
  ghost function Checks(opts: Options, policy: Option<Manifest>): seq<Event> {
    [Checked(PoolCIDRs, true), Checked(BundleScopes, true)]
    + (if opts.ocp then [Checked(OcpOperators, true)] else [])
    + [Ownership(policy, true)]
    + (if opts.overwriteExisting && !opts.ocp then [Checked(SecondaryRemovals, true)] else [])
  }

  /** The staged effects, all granted, in their order: the chart, then the preflight check
      with the remediation of what it found, then the OpenShift settings. */
  ghost function Stages(opts: Options, preflight: bool): seq<Event> { Chart(opts) + Preparation(opts, preflight) }

  ghost function Chart(opts: Options): seq<Event> { if ManagesChart(opts) then [Staged(HelmInstall, opts.dryRun, true)] else [] }

  ghost function Preparation(opts: Options, preflight: bool): seq<Event> {
    (if preflight then [Checked(Preflight, true)] else [Checked(Preflight, false), Staged(StrayRemediation, opts.dryRun, true)])
    + (if opts.ocp then [Staged(OcpConfiguration, opts.dryRun, true)] else [])
  }

  ghost function Prelude(p: Plan, preflight: bool): seq<Event> { Checks(p.opts, p.policy) + Stages(p.opts, preflight) }

  /** Only overwriting remediates a failed preflight; OpenShift takes no chart values. */
  ghost predicate Allowed(opts: Options, preflight: bool) {
    (preflight || opts.overwriteExisting) && !(opts.ocp && opts.valuesPresent)
  }

  /** Everything that comes before the first manifest was granted. */
  ghost predicate Cleared(t: seq<Event>, p: Plan) {
    exists preflight :: Allowed(p.opts, preflight) && Prelude(p, preflight) <= t
  }

  /** `e` is the refusal of what `granted` grants. */
  ghost predicate Denies(e: Event, granted: Event) {
    match granted
    case Checked(gate, ok) => ok && e == Checked(gate, false)
    case Ownership(policy, ok) => ok && e == Ownership(policy, false)
    case Staged(stage, dryRun, ok) => ok && e == Staged(stage, dryRun, false)
    case _ => false
  }

  /** A staged effect comes at its place in the prelude, all before it granted. */
  ghost predicate Opens(t: seq<Event>, i: nat, p: Plan)
    requires i < |t|
  {
    exists preflight :: Allowed(p.opts, preflight) && i < |Prelude(p, preflight)|
      && t[..i] == Prelude(p, preflight)[..i] && (t[i] == Prelude(p, preflight)[i] || Denies(t[i], Prelude(p, preflight)[i]))
  }

  /** The server accepted `m`; the most a dry run can say. */
  ghost predicate Accepted(t: seq<Event>, m: Manifest) {
    exists i :: 0 <= i < |t| && t[i].Apply? && t[i].sent == m && t[i].receipt.Applied?
  }

  ghost predicate Landed(t: seq<Event>, p: Plan, m: Manifest) {
    if p.opts.dryRun then Accepted(t, m) else Reconciled(t, m)
  }

  ghost predicate BootLanded(t: seq<Event>, p: Plan, n: nat)
    requires n <= |p.boot|
  {
    forall j :: 0 <= j < n ==> Landed(t, p, p.boot[j])
  }

  lemma StaysLanded(u: seq<Event>, t: seq<Event>, p: Plan, m: Manifest)
    requires u <= t && Landed(u, p, m)
    requires forall i :: |u| <= i < |t| && t[i].Apply? ==> t[i].sent != m
    ensures Landed(t, p, m)
  {
    if p.opts.dryRun {
      var i :| 0 <= i < |u| && u[i].Apply? && u[i].sent == m && u[i].receipt.Applied?;
      assert t[i] == u[i];
    } else {
      StaysReconciled(u, t, m);
    }
  }

  /** Policies land one after the other; the rest waits for all of them and for
      the API check. */
  ghost predicate InTurn(before: seq<Event>, m: Manifest, p: Plan) {
    || (exists k: nat :: k < |p.boot| && p.boot[k] == m && BootLanded(before, p, k))
    || (m in p.others && BootLanded(before, p, |p.boot|) && Checked(SpectrumXApi, true) in before)
  }

  ghost predicate Lawful(t: seq<Event>, i: nat, p: Plan)
    requires i < |t|
  {
    && (t[i].Staged? ==> Opens(t, i, p))
    && (t[i].Apply? ==>
          && Cleared(t[..i], p) && Guarded(t, i) && t[i].sent in p.boot + p.others
          && InTurn(t[..i], t[i].sent, p) && (p.opts.dryRun ==> t[i].dryRun))
  }

  ghost predicate AllLawful(t: seq<Event>, p: Plan) {
    forall i :: 0 <= i < |t| ==> Lawful(t, i, p)
  }

  lemma ClearedGrows(u: seq<Event>, t: seq<Event>, p: Plan)
    requires u <= t && Cleared(u, p)
    ensures Cleared(t, p)
  {
    hide Prelude, Allowed;
    var preflight :| Allowed(p.opts, preflight) && Prelude(p, preflight) <= u;
    assert Prelude(p, preflight) <= t;
  }

  lemma LawfulGrows(u: seq<Event>, t: seq<Event>, p: Plan, i: nat)
    requires u <= t && i < |u| && Lawful(u, i, p)
    ensures Lawful(t, i, p)
  {
    assert t[..i] == u[..i] && t[i] == u[i];
    if i > 0 { assert t[i - 1] == u[i - 1]; }
  }

  /** `m` may be written now: it is the next policy, or one of the others at last. */
  ghost predicate Due(t: seq<Event>, m: Manifest, p: Plan, done: nat)
    requires done <= |p.boot|
  {
    && BootLanded(t, p, done)
    && ((done < |p.boot| && p.boot[done] == m)
        || (done == |p.boot| && m in p.others && Checked(SpectrumXApi, true) in t))
  }

  lemma DueWriteIsLawful(u: seq<Event>, t: seq<Event>, p: Plan, m: Manifest, done: nat, i: nat)
    requires u <= t && Cleared(u, p) && p.Distinct() && done <= |p.boot| && Due(u, m, p, done)
    requires WritesOnly(t, |u|, m, p.opts.dryRun) && NoStages(t, |u|) && |u| <= i < |t|
    ensures Lawful(t, i, p)
  {
    hide Landed, Cleared, Opens;
    var before := t[..i];
    assert u <= before;
    ClearedGrows(u, before, p);
    if t[i].Apply? {
      forall j | 0 <= j < done ensures Landed(before, p, p.boot[j]) { StaysLanded(u, before, p, p.boot[j]); }
      assert InTurn(before, m, p);
    }
  }

  /** A stretch of the trace that only writes what is due keeps the law, and undoes
      no reconciliation of anything else. */
  lemma StretchIsLawful(u: seq<Event>, t: seq<Event>, p: Plan, m: Manifest, done: nat)
    requires u <= t && AllLawful(u, p) && Cleared(u, p) && p.Distinct()
    requires done <= |p.boot| && Due(u, m, p, done)
    requires WritesOnly(t, |u|, m, p.opts.dryRun) && NoStages(t, |u|)
    ensures AllLawful(t, p) && Cleared(t, p)
    ensures forall q :: q != m && Landed(u, p, q) ==> Landed(t, p, q)
  {
    forall q | q != m && Landed(u, p, q) ensures Landed(t, p, q) { StaysLanded(u, t, p, q); }
    ClearedGrows(u, t, p);
    forall i | 0 <= i < |t| ensures Lawful(t, i, p) {
      if i < |u| { LawfulGrows(u, t, p, i); } else { DueWriteIsLawful(u, t, p, m, done, i); }
    }
  }

  // ---------- Why a deploy may fail ----------

  /** The last answer is one that ends a deploy: a refusal, a rejected write, a final error
      verdict, a live object out of scope, or the end of the context or of a window. */
  ghost predicate Ends(t: seq<Event>) {
    t != [] &&
    match t[|t| - 1]
    case CtxErr(done) => done || (|t| > 1 && t[|t| - 2].LiveScope? && t[|t| - 2].answer == OutOfScope)
    case DesiredScope(_, ok) => !ok
    case Ownership(_, ok) => !ok
    case Validate(m, verdict, _) => verdict.Error? && (!verdict.retryable || RetryableErrorWindow(m.gvk) == 0)
    case Apply(_, _, receipt) => !receipt.Applied?
    case Wait(winner, _) => winner != Tick
    case Checked(_, ok) => !ok
    case Staged(_, _, ok) => !ok
    case LiveScope(_, _) => false
    case Get(_, _) => false
  }

  lemma PollFailureEnds(m: Manifest, gate: string, t: seq<Event>, start: nat)
    requires start <= |t|
    requires var pc := Run(Config(m, RetryableErrorWindow(m.gvk)), gate, t, start).pc; pc.Done? && pc.outcome != Ok
    ensures Ends(t)
  {
    hide Run, RetryableErrorWindow;
    var c := Config(m, RetryableErrorWindow(m.gvk));
    RunStart(c, gate, t, start);
    assert t[..|t|] == t;
    EndsExactly(c, gate, t, start, Run(c, gate, t, start).pc.outcome);
    if t[|t| - 1].Validate? { AskedInScope(c, gate, t, start, |t| - 1); }
  }

  lemma ApplyFailureEnds(m: Manifest, dryRun: bool, t: seq<Event>, lo: nat, outcome: Outcome)
    requires ApplyRun(m, dryRun, t, lo, outcome) && outcome != Ok
    ensures Ends(t)
  {
    hide Run, RetryableErrorWindow, IsNicClusterPolicy;
    var w := lo + if IsNicClusterPolicy(m) then 2 else 1;
    if !(outcome == NotOwned && |t| == lo + 2 && t[lo + 1] == Ownership(Some(m), false)) && t[w].receipt.Applied? {
      PollFailureEnds(m, FirstGate(m, t[lo].read, t[w].receipt), t, w + 1);
    }
  }

  // ---------- Checks before the first effect ----------

  /** The events follow `granted` up to a refusal of its next one, and stop there. */
  ghost predicate StoppedIn(t: seq<Event>, granted: seq<Event>) {
    t != [] && |t| <= |granted| && t[..|t| - 1] == granted[..|t| - 1] && Denies(t[|t| - 1], granted[|t| - 1])
  }

  ghost predicate StageRun(t: seq<Event>, opts: Options, granted: seq<Event>, ok: bool) {
    if ok then t == granted
    else StoppedIn(t, granted) && !(opts.overwriteExisting && t[|t| - 1] == Checked(Preflight, false))
  }

  lemma StopsHere(u: seq<Event>, t: seq<Event>, granted: seq<Event>)
    requires |u| < |granted| && u == granted[..|u|] && u <= t && |t| == |u| + 1 && Denies(t[|u|], granted[|u|])
    ensures StoppedIn(t, granted)
  {
    assert t[..|t| - 1] == u;
  }

  method CheckBeforeEffects(client: Client, policy: Unstructured?, opts: Options) returns (ok: bool)
    requires client.trace == []
    modifies client`trace
    ensures var checks := Checks(opts, if policy == null then None else Some(policy.content));
            if ok then client.trace == checks && !(opts.ocp && opts.valuesPresent)
            else
              || (opts.ocp && opts.valuesPresent && client.trace == [Checked(PoolCIDRs, true), Checked(BundleScopes, true)])
              || (StoppedIn(client.trace, checks) && (opts.ocp && opts.valuesPresent ==> |client.trace| <= 2))
  {
    hide StoppedIn;
    ghost var checks := Checks(opts, if policy == null then None else Some(policy.content));
    ok := client.Check(PoolCIDRs);
    if !ok { StopsHere([], client.trace, checks); return; }
    ghost var before := client.trace;
    ok := client.Check(BundleScopes);
    if !ok { StopsHere(before, client.trace, checks); return; }
    if opts.ocp {
      if opts.valuesPresent { return false; }
      before := client.trace;
      ok := client.Check(OcpOperators);
      if !ok { StopsHere(before, client.trace, checks); return; }
    }
    before := client.trace;
    ok := client.CheckOwnership(policy);
    if !ok { StopsHere(before, client.trace, checks); return; }
    if opts.overwriteExisting && !opts.ocp {
      before := client.trace;
      ok := client.Check(SecondaryRemovals);
      if !ok { StopsHere(before, client.trace, checks); }
    }
  }

  // ---------- Phase 0: the chart, preflight remediation, OpenShift settings ----------

  /** runPreflightPhase and the OpenShift settings after it. */
  method RunPreflight(client: Client, opts: Options) returns (ok: bool, ghost preflight: bool)
    modifies client`trace
    ensures old(client.trace) <= client.trace && (preflight || opts.overwriteExisting)
    ensures StageRun(client.trace[|old(client.trace)|..], opts, Preparation(opts, preflight), ok)
  {
    hide StoppedIn;
    ghost var n := |client.trace|;
    preflight := true;
    ok := client.Check(Preflight);
    assert client.trace[n..] == [Checked(Preflight, ok)];
    if !ok {
      if !opts.overwriteExisting {
        StopsHere([], client.trace[n..], Preparation(opts, true));
        return;
      }
      preflight := false;
      ok := client.Stage(StrayRemediation, opts.dryRun);
      assert client.trace[n..] == [Checked(Preflight, false), Staged(StrayRemediation, opts.dryRun, ok)];
      if !ok {
        StopsHere([Checked(Preflight, false)], client.trace[n..], Preparation(opts, false));
        return;
      }
    }
    if opts.ocp {
      ghost var before := client.trace[n..];
      ok := client.Stage(OcpConfiguration, opts.dryRun);
      assert client.trace[n..] == before + [Staged(OcpConfiguration, opts.dryRun, ok)];
      if !ok { StopsHere(before, client.trace[n..], Preparation(opts, preflight)); }
    }
  }

  /** The staged effects, all granted or up to the first refusal. A failed preflight is a
      refusal only when nothing is overwritten. */
  method StageCluster(client: Client, opts: Options) returns (ok: bool, ghost preflight: bool)
    modifies client`trace
    ensures old(client.trace) <= client.trace && (preflight || opts.overwriteExisting)
    ensures StageRun(client.trace[|old(client.trace)|..], opts, Stages(opts, preflight), ok)
  {
    hide StoppedIn, Preparation;
    ghost var start := |client.trace|;
    preflight := true;
    if ManagesChart(opts) {
      ok := client.Stage(HelmInstall, opts.dryRun);
      assert client.trace[start..] == [Staged(HelmInstall, opts.dryRun, ok)];
      if !ok {
        StopsHere([], client.trace[start..], Stages(opts, true));
        return;
      }
    }
    ghost var n := |client.trace|;
    ok, preflight := RunPreflight(client, opts);
    assert client.trace[start..] == Chart(opts) + client.trace[n..];
    StageRunAfter(Chart(opts), client.trace[n..], opts, Preparation(opts, preflight), ok);
  }

  lemma StageRunAfter(first: seq<Event>, rest: seq<Event>, opts: Options, granted: seq<Event>, ok: bool)
    requires StageRun(rest, opts, granted, ok)
    ensures StageRun(first + rest, opts, first + granted, ok)
  {
    if !ok { assert (first + rest)[..|first + rest| - 1] == first + rest[..|rest| - 1]; }
  }

  lemma StoppedEnds(t: seq<Event>, n: nat, granted: seq<Event>)
    requires n <= |t| && StoppedIn(t[n..], granted)
    ensures Ends(t)
  {}

  lemma StagesAreLawful(u: seq<Event>, t: seq<Event>, p: Plan, preflight: bool, ok: bool)
    requires u == Checks(p.opts, p.policy) && Allowed(p.opts, preflight)
    requires u <= t && StageRun(t[|u|..], p.opts, Stages(p.opts, preflight), ok)
    ensures AllLawful(t, p)
    ensures if ok then Cleared(t, p) else Ends(t)
  {
    hide Stages, Checks, Allowed, Lawful, StageRun;
    var whole := Prelude(p, preflight);
    StageRunIn(u, t, p.opts, Stages(p.opts, preflight), ok);
    forall i | 0 <= i < |t| ensures Lawful(t, i, p) { OpenedLawfully(t, p, preflight, i); }
  }

  /** A stage run behind the checks is the prelude, or stops in it. */
  lemma StageRunIn(u: seq<Event>, t: seq<Event>, opts: Options, granted: seq<Event>, ok: bool)
    requires u <= t && StageRun(t[|u|..], opts, granted, ok)
    ensures if ok then t == u + granted else Ends(t) && StoppedIn(t, u + granted)
  {
    var rest := t[|u|..];
    assert t == u + rest;
    if !ok {
      StoppedEnds(t, |u|, granted);
      assert t[..|t| - 1] == u + rest[..|rest| - 1];
    }
  }

  lemma OpenedLawfully(t: seq<Event>, p: Plan, preflight: bool, i: nat)
    requires Allowed(p.opts, preflight) && i < |t|
    requires var whole := Prelude(p, preflight); t == whole || StoppedIn(t, whole)
    ensures Lawful(t, i, p)
  {
    hide Allowed;
    var whole := Prelude(p, preflight);
    NoWritesInPrelude(p, preflight, i);
    hide Prelude;
    assert |t| <= |whole|;
    if t == whole {
      assert t[..i] == whole[..i];
    } else {
      var n := |t| - 1;
      assert t[..i] == t[..n][..i] && whole[..i] == whole[..n][..i];
      if i < n { assert t[i] == t[..n][i] && whole[i] == whole[..n][i]; }
    }
    assert Opens(t, i, p);
  }

  lemma NoWritesInPrelude(p: Plan, preflight: bool, i: nat)
    ensures i < |Prelude(p, preflight)| ==> !Prelude(p, preflight)[i].Apply?
  {}

  // ---------- Phases 1 and 2: policies, one after the other ----------

  ghost predicate Progress(t: seq<Event>, p: Plan, n: nat) {
    n <= |p.boot| && AllLawful(t, p) && Cleared(t, p) && BootLanded(t, p, n)
  }

  lemma PolicyLanded(u: seq<Event>, t: seq<Event>, p: Plan, k: nat, landed: bool)
    requires u <= t && p.Distinct() && k < |p.boot| && Progress(u, p, k)
    requires WritesOnly(t, |u|, p.boot[k], p.opts.dryRun) && NoStages(t, |u|)
    requires landed ==> Landed(t, p, p.boot[k])
    ensures Progress(t, p, if landed then k + 1 else k)
  {
    hide AllLawful, Cleared, Landed;
    StretchIsLawful(u, t, p, p.boot[k], k);
  }

  /** One policy: applied and polled before the next one is due. */
  method LandPolicy(client: Client, desired: Unstructured, ghost p: Plan, dryRun: bool, ghost k: nat) returns (ok: bool)
    requires p.Distinct() && p.opts.dryRun == dryRun && Progress(client.trace, p, k)
    requires k < |p.boot| && p.boot[k] == desired.content && !HasTargetScope(desired.content)
    modifies client
    ensures old(client.trace) <= client.trace && Progress(client.trace, p, if ok then k + 1 else k)
    ensures !ok ==> Ends(client.trace)
  {
    var outcome := ApplyAndWait(client, desired, dryRun);
    ok := outcome == Ok;
    ApplyRunPromises(desired.content, dryRun, client.trace, |old(client.trace)|, outcome);
    if !ok { ApplyFailureEnds(desired.content, dryRun, client.trace, |old(client.trace)|, outcome); }
    PolicyLanded(old(client.trace), client.trace, p, k, ok);
  }

  method ApplyPolicies(client: Client, policy: Unstructured?, nodes: seq<Unstructured>, dryRun: bool, ghost p: Plan)
    returns (ok: bool)
    requires p.Distinct() && p.opts.dryRun == dryRun && Progress(client.trace, p, 0)
    requires forall m :: m in p.boot ==> !HasTargetScope(m)
    requires var off := if policy == null then 0 else 1;
             |p.boot| == off + |nodes| && (policy != null ==> p.boot[0] == policy.content)
             && forall i :: 0 <= i < |nodes| ==> p.boot[off + i] == nodes[i].content
    modifies client
    ensures old(client.trace) <= client.trace && AllLawful(client.trace, p)
    ensures if ok then Progress(client.trace, p, |p.boot|) else Ends(client.trace)
  {
    hide AllLawful, Cleared, BootLanded, Ends;
    ghost var off := if policy == null then 0 else 1;
    if policy != null {
      ok := LandPolicy(client, policy, p, dryRun, 0);
      if !ok { return; }
    }
    for i := 0 to |nodes|
      invariant old(client.trace) <= client.trace && Progress(client.trace, p, off + i)
    {
      ok := LandPolicy(client, nodes[i], p, dryRun, off + i);
      if !ok { return; }
    }
    return true;
  }

  // ---------- Phase 3: the remaining manifests ----------

  datatype Status = Written(gate: string) | Deferred | Failed

  /** `m` was really written, not again since, and `gate` is what its poll must see
      superseded. */
  ghost predicate Pending(t: seq<Event>, m: Manifest, gate: string) {
    exists r: nat, w: nat :: PendingAt(t, m, gate, r, w)
  }

  ghost predicate PendingAt(t: seq<Event>, m: Manifest, gate: string, r: nat, w: nat) {
    && r < w < |t| && t[r].Get? && t[r].target == m
    && t[w].Apply? && t[w].sent == m && !t[w].dryRun && t[w].receipt.Applied?
    && (forall k :: w < k < |t| ==> !(t[k].Apply? && t[k].sent == m))
    && gate == FirstGate(m, t[r].read, t[w].receipt)
  }

  lemma StaysPending(u: seq<Event>, t: seq<Event>, m: Manifest, gate: string)
    requires u <= t && Pending(u, m, gate)
    requires forall i :: |u| <= i < |t| && t[i].Apply? ==> t[i].sent != m
    ensures Pending(t, m, gate)
  {
    var r: nat, w: nat :| PendingAt(u, m, gate, r, w);
    assert t[r] == u[r] && t[w] == u[w] && forall k :: w < k < |u| ==> t[k] == u[k];
    assert PendingAt(t, m, gate, r, w);
  }

  /** An NV-IPAM pool on OpenShift, whose API comes with the policy of the same bundle. */
  ghost predicate Awaited(m: Manifest, opts: Options, policyPresent: bool) {
    opts.ocp && policyPresent && m.gvk.group == "nv-ipam.nvidia.com" && m.gvk.version == "v1alpha1" && m.gvk.kind == "IPPool"
  }

  predicate AwaitsNvIpam(m: Manifest, opts: Options, policyPresent: bool) {
    opts.ocp && policyPresent && m.gvk == GVK("nv-ipam.nvidia.com", "v1alpha1", "IPPool")
  }

  lemma RetriedWrites(u: seq<Event>, t: seq<Event>, n: nat, m: Manifest)
    requires n <= |u| && u <= t && WritesOnly(u, n, m, false) && NoStages(u, n) && ScopedWrites(t, |u|, m)
    requires !IsNicClusterPolicy(m)
    ensures WritesOnly(t, n, m, false) && NoStages(t, n)
  {
    forall i | n <= i < |t| ensures !t[i].Staged? && (t[i].Apply? ==> t[i].sent == m && Guarded(t, i)) {
      if i < |u| {
        assert t[i] == u[i];
        if i > 0 { assert t[i - 1] == u[i - 1]; }
      } else {
        assert ScopedWrite(t, i, m);
      }
    }
  }

  /** The scope check and the first write, pods retried. */
  method ApplyGuarded(client: Client, obj: Unstructured, dryRun: bool)
    returns (applied: Unstructured, receipt: Receipt, stopped: bool)
    requires !IsNicClusterPolicy(obj.content)
    modifies client
    ensures old(client.trace) < client.trace && fresh(applied)
    ensures WritesOnly(client.trace, |old(client.trace)|, obj.content, dryRun) && NoStages(client.trace, |old(client.trace)|)
    ensures var last := client.trace[|client.trace| - 1];
            if stopped then !receipt.Applied? && !last.Apply? && Ends(client.trace)
            else last == Apply(obj.content, dryRun, receipt)
    ensures receipt.Applied? ==> applied.generation == receipt.generation && applied.resourceVersion == receipt.resourceVersion
  {
    ghost var n, m := |client.trace|, obj.content;
    applied := obj.DeepCopy();
    var ok := client.InspectDesiredScope(obj);
    if !ok { return applied, Rejected, true; }
    ghost var before := client.trace;
    receipt, stopped := ApplyWithRetry(client, applied, dryRun);
    forall i | n <= i < |client.trace|
      ensures !client.trace[i].Staged?
        && (client.trace[i].Apply? ==> client.trace[i].sent == m && client.trace[i].dryRun == dryRun && Guarded(client.trace, i))
    {
      if i < |before| { assert client.trace[i] == before[i]; }
      if HasTargetScope(m) { assert client.trace[n] == before[n] == DesiredScope(m, true); }
    }
  }

  /** One manifest of phase 3. A missing NV-IPAM API is retried for real, or, in a
      dry run, deferred; every other failure ends the deploy. */
  method ApplyOther(client: Client, obj: Unstructured, opts: Options, policyPresent: bool) returns (status: Status)
    requires !IsNicClusterPolicy(obj.content)
    modifies client
    ensures old(client.trace) < client.trace
    ensures WritesOnly(client.trace, |old(client.trace)|, obj.content, opts.dryRun) && NoStages(client.trace, |old(client.trace)|)
    ensures var first, last := client.trace[|old(client.trace)|], client.trace[|client.trace| - 1];
            && first.Get? && first.target == obj.content
            && match status
               case Written(gate) =>
                 && last.Apply? && last.sent == obj.content && last.dryRun == opts.dryRun && last.receipt.Applied?
                 && gate == FirstGate(obj.content, first.read, last.receipt)
               case Deferred => opts.dryRun && Awaited(obj.content, opts, policyPresent) && last == Apply(obj.content, true, NoMatch)
               case Failed => Ends(client.trace) && (Awaited(obj.content, opts, policyPresent) && last.Apply? ==> last.receipt.Rejected?)
  {
    ghost var n, m := |client.trace|, obj.content;
    var preApplyGen := 0;
    var pre := client.Read(obj);
    if pre.Found? { preApplyGen := pre.generation; }
    ghost var before := client.trace;
    var applied, receipt, stopped := ApplyGuarded(client, obj, opts.dryRun);
    assert client.trace[n] == before[n];
    if !receipt.Applied? {
      if stopped || !(AwaitsNvIpam(obj.content, opts, policyPresent) && receipt.NoMatch?) {
        return Failed;
      }
      if opts.dryRun { return Deferred; }
      before := client.trace;
      var retried := RetryDependentAPI(client, obj);
      RetriedWrites(before, client.trace, n, m);
      assert client.trace[n] == before[n];
      if retried == null { return Failed; }
      applied := retried;
    }
    status := Written(if applied.generation > preApplyGen && NeedsObservationGate(obj.content.gvk) then applied.resourceVersion else "");
  }

  // ---------- Phases 3 and 4: write the rest, then verify the rest ----------

  /** All policies have landed and the API check passed. */
  ghost predicate Open(t: seq<Event>, p: Plan) {
    Progress(t, p, |p.boot|) && Checked(SpectrumXApi, true) in t
  }

  lemma StaysOpen(u: seq<Event>, t: seq<Event>, p: Plan, m: Manifest)
    requires u <= t && p.Distinct() && m in p.others && Open(u, p)
    requires WritesOnly(t, |u|, m, p.opts.dryRun) && NoStages(t, |u|)
    ensures Open(t, p)
    ensures forall q :: q != m && Landed(u, p, q) ==> Landed(t, p, q)
    ensures forall q, g :: q != m && Pending(u, q, g) ==> Pending(t, q, g)
  {
    StretchIsLawful(u, t, p, m, |p.boot|);
    forall q, g | q != m && Pending(u, q, g) ensures Pending(t, q, g) { StaysPending(u, t, q, g); }
    var i :| 0 <= i < |u| && u[i] == Checked(SpectrumXApi, true);
    assert t[i] == u[i];
  }

  /** appliedManifest: a desired object with the gate of its own write. */
  datatype AppliedManifest = AppliedManifest(desired: Unstructured, gate: string)

  /** Of the others, those before `n` are reconciled and the rest written and pending. */
  ghost predicate Verified(t: seq<Event>, p: Plan, gates: seq<AppliedManifest>, n: nat) {
    && |gates| == |p.others|
    && (forall j :: 0 <= j < n && j < |p.others| ==> Landed(t, p, p.others[j]))
    && (forall j :: n <= j < |p.others| ==> Pending(t, p.others[j], gates[j].gate))
  }

  /** A dry run left out an object whose API only comes with the policy. */
  ghost predicate SomeDeferred(t: seq<Event>, p: Plan, policyPresent: bool) {
    exists m :: m in p.others && Awaited(m, p.opts, policyPresent) && Apply(m, true, NoMatch) in t
  }

  method ApplyOthers(client: Client, objs: seq<Unstructured>, opts: Options, policyPresent: bool, ghost p: Plan)
    returns (ok: bool, applied: seq<AppliedManifest>, deferred: bool)
    requires p.Distinct() && p.opts == opts && Open(client.trace, p)
    requires |objs| == |p.others| && forall j :: 0 <= j < |objs| ==> objs[j].content == p.others[j]
    requires forall m :: m in p.others ==> !IsNicClusterPolicy(m)
    modifies client
    ensures old(client.trace) <= client.trace
    ensures Open(client.trace, p)
    ensures ok && !opts.dryRun ==> !deferred && Verified(client.trace, p, applied, 0)
                                   && forall j :: 0 <= j < |objs| ==> applied[j].desired == objs[j]
    ensures ok && opts.dryRun && !deferred ==> forall m :: m in p.others ==> Landed(client.trace, p, m)
    ensures !ok ==> Ends(client.trace)
    ensures deferred ==> opts.dryRun && SomeDeferred(client.trace, p, policyPresent)
  {
    hide AllLawful, Cleared, BootLanded, Ends, Reconciled, WritesOnly, NoStages, Open, AwaitsNvIpam;
    applied, deferred := [], false;
    for i := 0 to |objs|
      invariant old(client.trace) <= client.trace && Open(client.trace, p)
      invariant opts.dryRun || (!deferred && |applied| == i)
      invariant opts.dryRun || forall j :: 0 <= j < i ==> applied[j].desired == objs[j] && Pending(client.trace, p.others[j], applied[j].gate)
      invariant opts.dryRun && !deferred ==> forall j :: 0 <= j < i ==> Landed(client.trace, p, p.others[j])
      invariant deferred ==> opts.dryRun && SomeDeferred(client.trace, p, policyPresent)
    {
      ghost var before := client.trace;
      var status := ApplyOther(client, objs[i], opts, policyPresent);
      StaysOpen(before, client.trace, p, p.others[i]);
      assert forall e :: e in before ==> e in client.trace;
      match status {
        case Failed => return false, applied, deferred;
        case Deferred =>
          assert client.trace[|client.trace| - 1] in client.trace;
          deferred := true;
        case Written(gate) =>
          applied := applied + [AppliedManifest(objs[i], gate)];
          if opts.dryRun {
            assert client.trace[|client.trace| - 1].Apply?;
            assert Accepted(client.trace, p.others[i]);
          } else { assert PendingAt(client.trace, p.others[i], gate, |before|, |client.trace| - 1);
          }
      }
    }
    ok := true;
  }

  /** One manifest of phase 4, polled behind the gate of its own phase 3 write. */
  method VerifyOther(client: Client, am: AppliedManifest) returns (ok: bool)
    requires Pending(client.trace, am.desired.content, am.gate)
    modifies client
    ensures old(client.trace) <= client.trace
    ensures WritesOnly(client.trace, |old(client.trace)|, am.desired.content, false) && NoStages(client.trace, |old(client.trace)|)
    ensures if ok then Reconciled(client.trace, am.desired.content) else Ends(client.trace)
  {
    ghost var start, m := |client.trace|, am.desired.content;
    ghost var r: nat, w: nat :| PendingAt(client.trace, m, am.gate, r, w);
    var outcome := PollUntilTerminal(client, am.desired, am.gate, RetryableErrorWindow(am.desired.content.gvk));
    ghost var c, t := Config(m, RetryableErrorWindow(m.gvk)), client.trace;
    assert t[w] == old(client.trace)[w] && t[r] == old(client.trace)[r];
    PollRunPromises(c, am.gate, t, start);
    ok := outcome == Ok;
    if ok {
      assert t[..|t|] == t;
      assert PolledRun(t, m, r, w, start, |t|);
    } else {
      PollFailureEnds(m, am.gate, t, start);
    }
  }

  method VerifyOthers(client: Client, applied: seq<AppliedManifest>, ghost p: Plan) returns (ok: bool)
    requires p.Distinct() && !p.opts.dryRun && Open(client.trace, p) && Verified(client.trace, p, applied, 0)
    requires forall j :: 0 <= j < |applied| ==> applied[j].desired.content == p.others[j]
    modifies client
    ensures Open(client.trace, p)
    ensures if ok then Verified(client.trace, p, applied, |p.others|) else Ends(client.trace)
  {
    hide AllLawful, Cleared, BootLanded, Ends, Reconciled, Pending;
    for i := 0 to |applied|
      invariant Open(client.trace, p) && Verified(client.trace, p, applied, i)
    {
      ghost var before := client.trace;
      ok := VerifyOther(client, applied[i]);
      StaysOpen(before, client.trace, p, p.others[i]);
      if !ok { return; }
    }
    ok := true;
  }

  // ---------- The deploy ----------

  /** applyBundleWithInstaller over the objects selected from the bundle. Whatever the
      cluster answers, every effect in the trace is lawful: a staged effect comes at its
      place after everything before it was granted; a write comes after the whole prelude
      was granted, is guarded, comes in its turn, sends the desired object itself and, in a
      dry run, persists nothing. Success outside a dry run means every object was written
      and then polled to success behind its own gate; a failure ends with the answer that
      caused it, unless OpenShift was given chart values or a dry run left something out. */
  method DeployBundle(client: Client, policy: Unstructured?, nodes: seq<Unstructured>, others: seq<Unstructured>,
                      opts: Options, ghost p: Plan)
    returns (ok: bool)
    requires client.trace == []
    requires p.opts == opts && p.Distinct()
    requires p.policy == (if policy == null then None else Some(policy.content))
    requires var off := if policy == null then 0 else 1;
             |p.boot| == off + |nodes| && (policy != null ==> p.boot[0] == policy.content)
             && forall i :: 0 <= i < |nodes| ==> p.boot[off + i] == nodes[i].content
    requires |others| == |p.others| && forall j :: 0 <= j < |others| ==> others[j].content == p.others[j]
    requires forall m :: m in p.boot ==> !HasTargetScope(m)
    requires forall m :: m in p.others ==> !IsNicClusterPolicy(m)
    modifies client
    ensures AllLawful(client.trace, p)
    ensures ok ==> Cleared(client.trace, p) && Checked(SpectrumXApi, true) in client.trace
                   && forall m :: m in p.boot + p.others ==> Landed(client.trace, p, m)
    ensures !ok ==>
              || Ends(client.trace)
              || (opts.ocp && opts.valuesPresent && client.trace == [Checked(PoolCIDRs, true), Checked(BundleScopes, true)])
              || (opts.dryRun && SomeDeferred(client.trace, p, policy != null))
  {
    hide AllLawful, Cleared, Ends, Checks, Stages, StoppedIn, StageRun, Landed, Pending;
    ok := CheckBeforeEffects(client, policy, opts);
    ghost var before := client.trace;
    ChecksRefused(before, p);
    if !ok { return; }
    ghost var preflight;
    ok, preflight := StageCluster(client, opts);
    StagesAreLawful(before, client.trace, p, preflight, ok);
    if !ok { return; }
    ok := ApplyPolicies(client, policy, nodes, opts.dryRun, p);
    if !ok { return; }
    before := client.trace;
    ok := client.Check(SpectrumXApi);
    CheckIsLawful(before, client.trace, p);
    assert client.trace[|before|] == Checked(SpectrumXApi, ok);
    if !ok { CheckEnds(client.trace); return; }
    var applied, deferred;
    ok, applied, deferred := ApplyOthers(client, others, opts, policy != null, p);
    if !ok { return; }
    if opts.dryRun {
      if !deferred { EverythingLanded(client.trace, p); }
      return !deferred;
    }
    ok := VerifyOthers(client, applied, p);
    if ok { EverythingLanded(client.trace, p); }
  }

  lemma CheckEnds(t: seq<Event>)
    requires t != [] && t[|t| - 1].Checked? && !t[|t| - 1].ok
    ensures Ends(t)
  {}

  lemma CheckIsLawful(u: seq<Event>, t: seq<Event>, p: Plan)
    requires AllLawful(u, p) && Cleared(u, p) && |t| == |u| + 1 && u <= t && t[|u|].Checked?
    ensures AllLawful(t, p) && Cleared(t, p)
    ensures forall q :: Landed(u, p, q) ==> Landed(t, p, q)
  {
    ClearedGrows(u, t, p);
    forall q | Landed(u, p, q) ensures Landed(t, p, q) { StaysLanded(u, t, p, q); }
    forall i | 0 <= i < |u| ensures Lawful(t, i, p) { LawfulGrows(u, t, p, i); }
  }

  /** The checks take no effect; where they stop, the last was refused. */
  lemma ChecksRefused(t: seq<Event>, p: Plan)
    requires var checks := Checks(p.opts, p.policy);
             t == checks || t == [Checked(PoolCIDRs, true), Checked(BundleScopes, true)] || StoppedIn(t, checks)
    ensures AllLawful(t, p)
    ensures StoppedIn(t, Checks(p.opts, p.policy)) ==> Ends(t)
  {
    var checks := Checks(p.opts, p.policy);
    assert forall e :: e in checks ==> !e.Staged? && !e.Apply?;
    hide Checks, Lawful;
    forall i | 0 <= i < |t| ensures !t[i].Staged? && !t[i].Apply? {
      if StoppedIn(t, checks) {
        var n := |t| - 1;
        assert checks[i] in checks;
        if i < n { assert t[i] == t[..n][i] == checks[..n][i]; }
      }
    }
    forall i | 0 <= i < |t| ensures Lawful(t, i, p) { QuietIsLawful(t, p, i); }
    if StoppedIn(t, checks) {
      assert t[0..] == t;
      StoppedEnds(t, 0, checks);
    }
  }

  lemma QuietIsLawful(t: seq<Event>, p: Plan, i: nat)
    requires i < |t| && !t[i].Staged? && !t[i].Apply?
    ensures Lawful(t, i, p)
  {}

  lemma EverythingLanded(t: seq<Event>, p: Plan)
    requires Open(t, p) && forall j :: 0 <= j < |p.others| ==> Landed(t, p, p.others[j])
    ensures forall m :: m in p.boot + p.others ==> Landed(t, p, m)
  {
    hide AllLawful, Cleared, Landed;
    forall m | m in p.boot + p.others ensures Landed(t, p, m) {
      var i :| 0 <= i < |p.boot + p.others| && (p.boot + p.others)[i] == m;
      if i >= |p.boot| { assert p.others[i - |p.boot|] == m; }
    }
  }

  // ---------- What comes before what ----------

  /** All that must have been granted before a manifest may be written, and before a
      deploy may succeed. */
  ghost predicate Prepared(t: seq<Event>, p: Plan) {
    && Checked(PoolCIDRs, true) in t && Checked(BundleScopes, true) in t && Ownership(p.policy, true) in t
    && (p.opts.ocp ==> !p.opts.valuesPresent && Checked(OcpOperators, true) in t && Staged(OcpConfiguration, p.opts.dryRun, true) in t)
    && (p.opts.overwriteExisting && !p.opts.ocp ==> Checked(SecondaryRemovals, true) in t)
    && (!p.opts.ocp && !p.opts.skipHelmChart && p.opts.valuesPresent && p.opts.helmMetadata ==>
          Staged(HelmInstall, p.opts.dryRun, true) in t)
    && (|| Checked(Preflight, true) in t
        || (p.opts.overwriteExisting && Checked(Preflight, false) in t && Staged(StrayRemediation, p.opts.dryRun, true) in t))
  }

  lemma ClearedMeans(t: seq<Event>, p: Plan)
    requires Cleared(t, p)
    ensures Prepared(t, p)
  {
    var preflight :| Allowed(p.opts, preflight) && Prelude(p, preflight) <= t;
    var checks, stages := Checks(p.opts, p.policy), Stages(p.opts, preflight);
    ChecksHave(p.opts, p.policy);
    StagesHave(p.opts, preflight);
    assert forall e :: e in checks ==> e in checks + stages;
    assert forall e :: e in checks + stages ==> e in t;
  }

  lemma ChecksHave(opts: Options, policy: Option<Manifest>)
    ensures var checks := Checks(opts, policy);
            && Checked(PoolCIDRs, true) in checks && Checked(BundleScopes, true) in checks && Ownership(policy, true) in checks
            && (opts.ocp ==> Checked(OcpOperators, true) in checks)
            && (opts.overwriteExisting && !opts.ocp ==> Checked(SecondaryRemovals, true) in checks)
    ensures forall e :: e in Checks(opts, policy) ==> !e.Staged? && (e.Checked? ==> e.gate != Preflight)
  {}

  lemma StagesHave(opts: Options, preflight: bool)
    ensures var stages := Stages(opts, preflight);
            && (opts.ocp ==> Staged(OcpConfiguration, opts.dryRun, true) in stages)
            && (ManagesChart(opts) ==> Staged(HelmInstall, opts.dryRun, true) in stages)
            && (if preflight then Checked(Preflight, true) in stages
                else Checked(Preflight, false) in stages && Staged(StrayRemediation, opts.dryRun, true) in stages)
            && forall e :: e in stages && e.Staged? ==> e.ok && e.dryRun == opts.dryRun
  {}

  /** Staged effects of a prelude: granted, in the mode of the deploy, after the checks. */
  lemma StagedInPrelude(p: Plan, preflight: bool, i: nat)
    requires i < |Prelude(p, preflight)| && Prelude(p, preflight)[i].Staged?
    ensures var e, n := Prelude(p, preflight)[i], |Checks(p.opts, p.policy)|;
            e.ok && e.dryRun == p.opts.dryRun && n <= i && e == Stages(p.opts, preflight)[i - n]
  {
    ChecksHave(p.opts, p.policy);
    StagesHave(p.opts, preflight);
    hide Checks, Stages;
    var checks, stages := Checks(p.opts, p.policy), Stages(p.opts, preflight);
    forall k | 0 <= k < |checks| ensures !Prelude(p, preflight)[k].Staged? { assert checks[k] in checks; }
    assert stages[i - |checks|] in stages;
  }

  /** Every write comes after all that had to be granted, and no staged effect before it
      failed. */
  lemma WritesArePrepared(t: seq<Event>, p: Plan, i: nat)
    requires AllLawful(t, p) && i < |t| && t[i].Apply?
    ensures Prepared(t[..i], p)
    ensures forall j :: 0 <= j < i && t[j].Staged? ==> t[j].ok && t[j].dryRun == p.opts.dryRun
  {
    assert Lawful(t, i, p);
    ClearedMeans(t[..i], p);
    var preflight :| Allowed(p.opts, preflight) && Prelude(p, preflight) <= t[..i];
    hide Prelude, Prepared;
    forall j | 0 <= j < i && t[j].Staged? ensures t[j].ok && t[j].dryRun == p.opts.dryRun {
      assert Lawful(t, j, p);
      StagedWithin(t, p, preflight, j);
      StagedInPrelude(p, preflight, j);
    }
  }

  /** No effect is staged after a whole prelude. */
  lemma StagedWithin(t: seq<Event>, p: Plan, preflight: bool, j: nat)
    requires j < |t| && t[j].Staged? && Lawful(t, j, p) && Prelude(p, preflight) <= t
    ensures j < |Prelude(p, preflight)| && t[j] == Prelude(p, preflight)[j]
  {
    var other :| Allowed(p.opts, other) && j < |Prelude(p, other)| && t[..j] == Prelude(p, other)[..j]
      && (t[j] == Prelude(p, other)[j] || Denies(t[j], Prelude(p, other)[j]));
    var a, b := Prelude(p, preflight), Prelude(p, other);
    var k := |Checks(p.opts, p.policy)| + |Chart(p.opts)|;
    PreflightAt(p, preflight);
    PreflightAt(p, other);
    hide Prelude;
    assert j > k ==> t[..j][k] == t[k] == a[k] && b[..j][k] == b[k];
  }

  /** Where preludes may differ. */
  lemma PreflightAt(p: Plan, preflight: bool)
    ensures var k, a := |Checks(p.opts, p.policy)| + |Chart(p.opts)|, Prelude(p, preflight);
            && k < |a| && a[k] == Checked(Preflight, preflight)
            && |a| == k + (if preflight then 1 else 2) + (if p.opts.ocp then 1 else 0)
  {}

  /** A staged effect follows all the checks; the chart comes before the preflight check,
      the remediation after its failure, the OpenShift settings after it was settled. */
  lemma StagesInOrder(t: seq<Event>, p: Plan, i: nat)
    requires AllLawful(t, p) && i < |t| && t[i].Staged?
    ensures CheckedBefore(t[..i], p) && t[i].dryRun == p.opts.dryRun && StagedAfter(t, p.opts, i)
  {
    assert Lawful(t, i, p);
    hide Checks, Stages, StagedAfter, CheckedBefore, Lawful, Prelude, AllLawful;
    var preflight := PlaceInPrelude(t, p, i);
    StagedInPrelude(p, preflight, i);
    PreludeUpTo(p, preflight, i);
    ChecksCome(t[..i], p);
    StagePlaced(t, p, preflight, i, i - |Checks(p.opts, p.policy)|);
  }

  ghost predicate CheckedBefore(u: seq<Event>, p: Plan) {
    && Checked(PoolCIDRs, true) in u && Checked(BundleScopes, true) in u && Ownership(p.policy, true) in u
    && (p.opts.ocp ==> Checked(OcpOperators, true) in u)
    && (p.opts.overwriteExisting && !p.opts.ocp ==> Checked(SecondaryRemovals, true) in u)
  }

  lemma ChecksCome(u: seq<Event>, p: Plan)
    requires Checks(p.opts, p.policy) <= u
    ensures CheckedBefore(u, p)
  {
    ChecksHave(p.opts, p.policy);
    hide Checks;
    assert forall e :: e in Checks(p.opts, p.policy) ==> e in u;
  }

  lemma PlaceInPrelude(t: seq<Event>, p: Plan, i: nat) returns (preflight: bool)
    requires i < |t| && Lawful(t, i, p) && t[i].Staged?
    ensures Allowed(p.opts, preflight) && i < |Prelude(p, preflight)| && t[..i] == Prelude(p, preflight)[..i]
    ensures var e := Prelude(p, preflight)[i]; e.Staged? && e.stage == t[i].stage && e.dryRun == t[i].dryRun
  {
    hide Prelude, Cleared;
    preflight :| Allowed(p.opts, preflight) && i < |Prelude(p, preflight)| && t[..i] == Prelude(p, preflight)[..i]
      && (t[i] == Prelude(p, preflight)[i] || Denies(t[i], Prelude(p, preflight)[i]));
  }

  lemma PreludeUpTo(p: Plan, preflight: bool, i: nat)
    requires |Checks(p.opts, p.policy)| <= i <= |Prelude(p, preflight)|
    ensures Prelude(p, preflight)[..i] == Checks(p.opts, p.policy) + Stages(p.opts, preflight)[..i - |Checks(p.opts, p.policy)|]
  {
    hide Checks, Stages;
  }

  lemma StagePlaced(t: seq<Event>, p: Plan, preflight: bool, i: nat, k: nat)
    requires i < |t| && t[i].Staged? && Allowed(p.opts, preflight) && k < |Stages(p.opts, preflight)|
    requires t[..i] == Checks(p.opts, p.policy) + Stages(p.opts, preflight)[..k]
    requires Stages(p.opts, preflight)[k].Staged? && Stages(p.opts, preflight)[k].stage == t[i].stage
    ensures StagedAfter(t, p.opts, i)
  {
    ChecksHave(p.opts, p.policy);
    StageAt(p.opts, preflight, k);
    hide Checks, Stages;
    var checks, stages := Checks(p.opts, p.policy), Stages(p.opts, preflight);
    if k > 0 { assert t[..i][i - 1] == stages[k - 1]; } else { assert t[..i] == checks; }
  }

  /** The place of a staged effect among the others. */
  ghost predicate StagedAfter(t: seq<Event>, opts: Options, i: nat)
    requires i < |t| && t[i].Staged?
  {
    match t[i].stage
    case HelmInstall =>
      && !opts.ocp && !opts.skipHelmChart && opts.valuesPresent && opts.helmMetadata
      && Checked(Preflight, true) !in t[..i] && Checked(Preflight, false) !in t[..i]
    case StrayRemediation => opts.overwriteExisting && i > 0 && t[i - 1] == Checked(Preflight, false)
    case OcpConfiguration =>
      opts.ocp && i > 0 && t[i - 1] in {Checked(Preflight, true), Staged(StrayRemediation, opts.dryRun, true)}
  }

  lemma StageAt(opts: Options, preflight: bool, k: nat)
    requires k < |Stages(opts, preflight)| && Stages(opts, preflight)[k].Staged?
    ensures var stages := Stages(opts, preflight);
            && stages[k].dryRun == opts.dryRun
            && match stages[k].stage
               case HelmInstall => ManagesChart(opts) && k == 0
               case StrayRemediation => !preflight && k > 0 && stages[k - 1] == Checked(Preflight, false)
               case OcpConfiguration =>
                 && opts.ocp && k > 0
                 && stages[k - 1] == if preflight then Checked(Preflight, true) else Staged(StrayRemediation, opts.dryRun, true)
  {}
}
