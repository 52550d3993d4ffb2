/** The phases of a deploy. Every effect, and every check it relies on, is in the
    trace; the contracts say where the writes of each phase may stand in it. */
module Deploy {
  import Text
  import opened Wrappers
  import opened Kubernetes
  import opened Cluster
  import opened Poll
  import opened PollSafety
  import opened PollOutcomes

  // ---------- What a trace promises ----------

  /** A write is directly preceded by the check its kind requires. */
  ghost predicate Guarded(t: seq<Event>, i: nat)
    requires i < |t|
  {
    t[i].Apply? ==>
      && (HasTargetScope(t[i].sent) ==> 0 < i && t[i - 1] == DesiredScope(t[i].sent, true))
      && (IsNicClusterPolicy(t[i].sent) ==> 0 < i && t[i - 1] == Ownership(Some(t[i].sent), true))
  }

  /** From `lo` on, every write sends exactly `m`, is guarded, and in a dry run
      persists nothing. */
  ghost predicate WritesOnly(t: seq<Event>, lo: nat, m: Manifest, dryRun: bool) {
    forall i :: lo <= i < |t| && t[i].Apply? ==> t[i].sent == m && Guarded(t, i) && (dryRun ==> t[i].dryRun)
  }

  ghost predicate NoStages(t: seq<Event>, lo: nat) {
    forall i :: lo <= i < |t| ==> !t[i].Staged?
  }

  /** `m` was really written, its last verdict is success, and it was not written again. */
  ghost predicate Healthy(t: seq<Event>, m: Manifest) {
    exists a: nat, v: nat :: a < v < |t|
      && t[a].Apply? && t[a].sent == m && !t[a].dryRun && t[a].receipt.Applied?
      && t[v].Validate? && t[v].target == m && t[v].verdict == Success
      && forall k :: v < k < |t| ==> !(t[k].Apply? && t[k].sent == m)
  }

  ghost function FirstGate(m: Manifest, before: Read, receipt: Receipt): string {
    GateAfter(m.gvk, if before.Found? then before.generation else 0, receipt)
  }

  /** A poll run over `m`, gated on its real write at `w` relative to the read at
      `r`, with no write of `m` in between, ended in success. */
  ghost predicate PolledRun(t: seq<Event>, m: Manifest, r: nat, w: nat, start: nat, end: nat) {
    && r < w < start <= end <= |t|
    && t[r].Get? && t[r].target == m
    && t[w].Apply? && t[w].sent == m && !t[w].dryRun && t[w].receipt.Applied?
    && (forall k :: w < k < start ==> !(t[k].Apply? && t[k].sent == m))
    && Run(Config(m, RetryableErrorWindow(m.gvk)), FirstGate(m, t[r].read, t[w].receipt), t[..end], start).pc == Done(Ok)
  }

  ghost predicate Polled(t: seq<Event>, m: Manifest) {
    exists r: nat, w: nat, start: nat, end: nat :: PolledRun(t, m, r, w, start, end)
  }

  /** `m` was written, polled to success, and left alone since. */
  ghost predicate Reconciled(t: seq<Event>, m: Manifest) { Healthy(t, m) && Polled(t, m) }

  lemma PolledGrows(u: seq<Event>, t: seq<Event>, m: Manifest)
    requires u <= t && Polled(u, m)
    ensures Polled(t, m)
  {
    var r: nat, w: nat, start: nat, end: nat :| PolledRun(u, m, r, w, start, end);
    assert t[..end] == u[..end] && t[r] == u[r] && t[w] == u[w];
    assert forall k :: w < k < start ==> t[k] == u[k];
    assert PolledRun(t, m, r, w, start, end);
  }

  lemma StaysReconciled(u: seq<Event>, t: seq<Event>, m: Manifest)
    requires u <= t && Reconciled(u, m)
    requires forall i :: |u| <= i < |t| && t[i].Apply? ==> t[i].sent != m
    ensures Reconciled(t, m)
  {
    PolledGrows(u, t, m);
    var a: nat, v: nat :| a < v < |u|
      && u[a].Apply? && u[a].sent == m && !u[a].dryRun && u[a].receipt.Applied?
      && u[v].Validate? && u[v].target == m && u[v].verdict == Success
      && forall k :: v < k < |u| ==> !(u[k].Apply? && u[k].sent == m);
    assert t[a] == u[a] && t[v] == u[v];
    assert forall k :: v < k < |u| ==> t[k] == u[k];
  }

  // ---------- applyAndWait ----------

  /** The exact shape of one applyAndWait: a read of the old generation, the
      ownership check for a NicClusterPolicy, one write, one poll run gated on the
      write's resourceVersion when the generation moved. */
  ghost predicate ApplyRun(m: Manifest, dryRun: bool, t: seq<Event>, lo: nat, outcome: Outcome) {
    var w := lo + if IsNicClusterPolicy(m) then 2 else 1;
    && lo < |t| && t[lo].Get? && t[lo].target == m
    && if IsNicClusterPolicy(m) && |t| == lo + 2 && t[lo + 1] == Ownership(Some(m), false) then outcome == NotOwned
       else
         && w < |t| && (IsNicClusterPolicy(m) ==> t[w - 1] == Ownership(Some(m), true))
         && t[w].Apply? && t[w].sent == m && t[w].dryRun == dryRun
         && if !t[w].receipt.Applied? then outcome == ApplyFailed && |t| == w + 1
            else if dryRun then outcome == Ok && |t| == w + 1
            else Run(Config(m, RetryableErrorWindow(m.gvk)), FirstGate(m, t[lo].read, t[w].receipt), t, w + 1).pc == Done(outcome)
  }

  method ApplyAndWait(client: Client, desired: Unstructured, dryRun: bool) returns (outcome: Outcome)
    modifies client
    ensures old(client.trace) <= client.trace
    ensures ApplyRun(desired.content, dryRun, client.trace, |old(client.trace)|, outcome)
  {
    hide Run, IsNicClusterPolicy, NeedsObservationGate, RetryableErrorWindow;
    var preApplyGen := 0;
    var pre := client.Read(desired);
    if pre.Found? { preApplyGen := pre.generation; }
    if IsNicClusterPolicy(desired.content) {
      var owned := client.CheckOwnership(desired);
      if !owned { return NotOwned; }
    }
    var applied := desired.DeepCopy();
    var receipt := client.ServerSideApply(applied, dryRun);
    if !receipt.Applied? { return ApplyFailed; }
    if dryRun { return Ok; }
    var awaitObservationAfterRV := "";
    if applied.generation > preApplyGen && NeedsObservationGate(desired.content.gvk) {
      awaitObservationAfterRV := applied.resourceVersion;
    }
    outcome := PollUntilTerminal(client, desired, awaitObservationAfterRV, RetryableErrorWindow(desired.content.gvk));
  }

  /** A poll run only writes its object, guarded, and its success makes an object
      that had been applied healthy. */
  lemma PollRunPromises(c: Config, gate: string, t: seq<Event>, start: nat)
    requires start <= |t| && Run(c, gate, t, start).pc.Done?
    ensures WritesOnly(t, start, c.desired, false) && NoStages(t, start)
    ensures Run(c, gate, t, start).pc == Done(Ok)
            && (exists a: nat :: a < start && t[a].Apply? && t[a].sent == c.desired && !t[a].dryRun && t[a].receipt.Applied?)
            ==> Healthy(t, c.desired)
  {
    forall i | start <= i < |t| && t[i].Apply?
      ensures t[i].sent == c.desired && Guarded(t, i)
    {
      WritesAreGuarded(c, gate, t, start, i);
    }
    forall i | start <= i < |t| ensures !t[i].Staged? { StepAt(c, gate, t, start, i); }
    SuccessIsTheLastVerdict(c, gate, t, start);
  }

  lemma ApplyRunPromises(m: Manifest, dryRun: bool, t: seq<Event>, lo: nat, outcome: Outcome)
    requires ApplyRun(m, dryRun, t, lo, outcome) && !HasTargetScope(m)
    ensures WritesOnly(t, lo, m, dryRun) && NoStages(t, lo)
    ensures outcome == Ok && !dryRun ==> Reconciled(t, m)
  {
    hide Run;
    var w := lo + if IsNicClusterPolicy(m) then 2 else 1;
    forall i | lo <= i < |t| && i <= w ensures !t[i].Staged? && (t[i].Apply? ==> i == w && Guarded(t, i)) {
      assert i == lo || i == lo + 1 || i == lo + 2;
    }
    if w < |t| && t[w].Apply? && t[w].receipt.Applied? && !dryRun {
      PollRunPromises(Config(m, RetryableErrorWindow(m.gvk)), FirstGate(m, t[lo].read, t[w].receipt), t, w + 1);
      if outcome == Ok {
        assert t[..|t|] == t;
        assert PolledRun(t, m, lo, w, w + 1, |t|);
      }
    }
  }

  /** What success is worth: after a write that moved the generation of a kind whose
      status lives on the object, some read showed a resourceVersion newer than that
      write, or than the latest re-apply, exactly when no gate read failed in the last
      pass. */
  lemma PolledMeansObserved(t: seq<Event>, m: Manifest, r: nat, w: nat, start: nat, end: nat)
    requires PolledRun(t, m, r, w, start, end)
    ensures var (from, rv) := LatestGate(FirstGate(m, t[r].read, t[w].receipt), t[..end], start);
            && w < from <= end
            && (rv != "" ==> (Superseded(t[..end], from, rv) <==> !ReadFailedThisPass(t[..end], start)))
  {
    SuccessIsObserved(Config(m, RetryableErrorWindow(m.gvk)), FirstGate(m, t[r].read, t[w].receipt), t[..end], start);
  }

  // ---------- By kind ----------

  /** A hardware policy or pool of any version is written only directly after its scope
      check passed, a NicClusterPolicy only directly after its ownership check. */
  lemma KindsAreGuarded(t: seq<Event>, i: nat)
    requires i < |t| && t[i].Apply? && Guarded(t, i)
    ensures var sent := t[i].sent;
            && (sent.gvk.group == "sriovnetwork.openshift.io" && sent.gvk.kind == "SriovNetworkNodePolicy" ==>
                  0 < i && t[i - 1] == DesiredScope(sent, true))
            && (sent.gvk.group == "nv-ipam.nvidia.com" && sent.gvk.kind == "IPPool" ==>
                  0 < i && t[i - 1] == DesiredScope(sent, true))
            && (sent.gvk.group == "mellanox.com" && sent.gvk.kind == "NicClusterPolicy" ==>
                  0 < i && t[i - 1] == Ownership(Some(sent), true))
  {}

  /** The gate of a run whose last apply, if any, is at `k`. */
  lemma {:induction false} LatestGateIs(gate: string, t: seq<Event>, start: nat, k: nat)
    requires start <= |t| && k < |t| && forall j :: k < j < |t| && start <= j ==> !t[j].Apply?
    ensures k < start ==> LatestGate(gate, t, start) == (start, gate)
    ensures k >= start && t[k].Apply? && t[k].receipt.Applied? ==>
              LatestGate(gate, t, start) == (k + 1, GateAfter(t[k].sent.gvk, 0, t[k].receipt))
  {
    var n := |t| - 1;
    if |t| > start && k < n {
      assert forall j :: k < j < n ==> t[..n][j] == t[j];
      LatestGateIs(gate, t[..n], start, k);
    } else if k == n && start <= n {
      assert t[..|t|] == t;
    }
  }

  const SELF_REPORTING: set<GVK> := {
    GVK("mellanox.com", "v1alpha1", "NicClusterPolicy"), GVK("mellanox.com", "v1alpha1", "NicNodePolicy"),
    GVK("mellanox.com", "v1alpha1", "HostDeviceNetwork"), GVK("mellanox.com", "v1alpha1", "IPoIBNetwork"),
    GVK("mellanox.com", "v1alpha1", "MacvlanNetwork"), GVK("spectrumx.nvidia.com", "v1alpha2", "SpectrumXRailPoolConfig"),
    GVK("configuration.net.nvidia.com", "v1alpha1", "NicConfigurationTemplate"),
    GVK("configuration.net.nvidia.com", "v1alpha1", "NicFirmwareTemplate")
  }

  /** A polled object of a kind that reports on itself, whose latest write at `k` moved its
      generation, was seen past exactly that write unless a gate read failed in the last
      pass. Any write of the poll itself counts as one that moved it. */
  lemma WrittenMeansObserved(t: seq<Event>, m: Manifest, r: nat, w: nat, start: nat, end: nat, k: nat)
    requires PolledRun(t, m, r, w, start, end) && m.gvk in SELF_REPORTING
    requires (k == w || start <= k < end) && t[k].Apply? && t[k].sent == m && t[k].receipt.Applied?
    requires forall j :: start <= j < end && k < j ==> !t[j].Apply?
    requires t[k].receipt.resourceVersion != ""
    requires t[k].receipt.generation > if k == w && t[r].read.Found? then t[r].read.generation else 0
    ensures (exists i :: start <= i < end && k < i && t[i].Get? && t[i].read.Found?
                         && t[i].read.resourceVersion != t[k].receipt.resourceVersion)
            <==> !ReadFailedThisPass(t[..end], start)
  {
    hide Run;
    var u, gate := t[..end], FirstGate(m, t[r].read, t[w].receipt);
    PolledMeansObserved(t, m, r, w, start, end);
    LatestGateIs(gate, u, start, k);
    var (from, rv) := LatestGate(gate, u, start);
    assert rv == t[k].receipt.resourceVersion;
    assert from == if k < start then start else k + 1;
    if Superseded(u, from, rv) {
      var i: nat :| from <= i < |u| && u[i].Get? && u[i].read.Found? && u[i].read.resourceVersion != rv;
      assert t[i] == u[i];
    }
    if i :| start <= i < end && k < i && t[i].Get? && t[i].read.Found? && t[i].read.resourceVersion != rv {
      assert u[i] == t[i];
    }
  }

  /** Only interface-name templates have a window, of five minutes: their retryable errors
      are waited out, and their timeout comes no earlier; every other kind fails at its
      first error. */
  lemma ErrorsByKind(m: Manifest, gate: string, t: seq<Event>, start: nat, i: nat)
    requires start <= i < |t| && Run(Config(m, RetryableErrorWindow(m.gvk)), gate, t, start).pc != Stuck
    requires t[i].Validate? && t[i].verdict.Error?
    ensures m.gvk == GVK("configuration.net.nvidia.com", "v1alpha1", "NicInterfaceNameTemplate") && t[i].verdict.retryable ==>
              && (forall o :: Run(Config(m, RetryableErrorWindow(m.gvk)), gate, t[..i + 1], start).pc != Done(o))
              && (i + 1 < |t| ==> t[i + 1].Wait?)
              && (Run(Config(m, RetryableErrorWindow(m.gvk)), gate, t, start).pc == Done(TimedOut) ==>
                    exists j: nat :: start <= j < |t| && t[j].Validate? && t[j].verdict == Error(true)
                                     && t[|t| - 1].Wait? && t[|t| - 1].at >= t[j].at + 300)
    ensures !(m.gvk == GVK("configuration.net.nvidia.com", "v1alpha1", "NicInterfaceNameTemplate") && t[i].verdict.retryable) ==>
              i == |t| - 1 && Run(Config(m, RetryableErrorWindow(m.gvk)), gate, t, start).pc == Done(Reported)
  {
    hide Run;
    var c := Config(m, RetryableErrorWindow(m.gvk));
    if c.window > 0 && t[i].verdict.retryable {
      RetryableErrorIsWaitedOut(c, gate, t, start, i);
      if Run(c, gate, t, start).pc == Done(TimedOut) {
        TimeoutMeansFullWindow(c, gate, t, start);
        var j: nat :| OpensWindow(t, start, j) && t[|t| - 1].at >= t[j].at + c.window;
        assert RetryableError(t[j]);
      }
    } else {
      ErrorWithoutWindowIsFinal(c, gate, t, start, i);
    }
  }

  lemma {:induction false} NeverGated(t: seq<Event>, start: nat)
    requires start <= |t| && forall i :: start <= i < |t| && t[i].Apply? ==> t[i].sent.gvk !in SELF_REPORTING
    ensures LatestGate("", t, start).1 == ""
  {
    if |t| > start && !(t[|t| - 1].Apply? && t[|t| - 1].receipt.Applied?) { NeverGated(t[..|t| - 1], start); }
  }

  lemma StepScoped(c: Config, s: State, e: Event)
    requires Step(c, s, e).pc != Stuck
    ensures Step(c, s, e).pc in {Scope, Rescope} ==> HasTargetScope(c.desired)
    ensures e.LiveScope? ==> s.pc == Scope
    ensures e.DesiredScope? ==> s.pc == Rescope
  {}

  /** The other kinds are just polled: one that does not report on itself is never read for
      a gate, one without a scope is never asked for it. */
  lemma OthersAreJustPolled(m: Manifest, before: Read, receipt: Receipt, t: seq<Event>, start: nat, i: nat)
    requires start <= i < |t|
    requires Run(Config(m, RetryableErrorWindow(m.gvk)), FirstGate(m, before, receipt), t, start).pc != Stuck
    ensures m.gvk !in SELF_REPORTING ==> !t[i].Get?
    ensures (m.gvk.group, m.gvk.kind) !in {("sriovnetwork.openshift.io", "SriovNetworkNodePolicy"), ("nv-ipam.nvidia.com", "IPPool")} ==>
              !t[i].LiveScope? && !t[i].DesiredScope?
  {
    hide Run, Step;
    var c, gate := Config(m, RetryableErrorWindow(m.gvk)), FirstGate(m, before, receipt);
    StepAt(c, gate, t, start, i);
    var s := Run(c, gate, t[..i], start);
    StepScoped(c, s, t[i]);
    if t[i].Get? {
      OnlyAtGate(c, s, t[i]);
      GateIsStanding(c, gate, t, start, i);
      if m.gvk !in SELF_REPORTING {
        forall j | start <= j < i && t[j].Apply? ensures t[j].sent == m { WritesAreGuarded(c, gate, t, start, j); }
        NeverGated(t[..i], start);
      }
    }
    if i == start {
      RunStart(c, gate, t, start);
    } else {
      StepAt(c, gate, t, start, i - 1);
      StepScoped(c, Run(c, gate, t[..i - 1], start), t[i - 1]);
    }
  }

  // ---------- Writing the remaining manifests ----------

  predicate IsPod(kind: string) { Text.EqualFold(kind, "pod") }

  lemma PodInAnyCase(kind: string)
    ensures IsPod(kind) <==> Text.ToLower(kind) == "pod"
  {}

  /** Attempts and pauses alternate from `n` on; all attempts but the last failed, and no
      pause but the last was cut short. */
  ghost predicate Attempts(t: seq<Event>, n: nat, m: Manifest, dryRun: bool) {
    && n < |t|
    && forall i :: n <= i < |t| ==>
       if (i - n) % 2 == 0 then t[i].Apply? && t[i].sent == m && t[i].dryRun == dryRun && (i < |t| - 1 ==> !t[i].receipt.Applied?)
       else t[i].Wait? && (i < |t| - 1 ==> t[i].winner == Tick)
  }

  /** applyUnstructuredWithRetry: a pod that fails gets two more attempts, each after a
      pause; other kinds get one. */
  method ApplyWithRetry(client: Client, obj: Unstructured, dryRun: bool) returns (receipt: Receipt, cancelled: bool)
    modifies client, obj
    ensures old(client.trace) < client.trace && Attempts(client.trace, |old(client.trace)|, old(obj.content), dryRun)
    ensures var n, k := |old(client.trace)|, |client.trace|;
            if cancelled then
              && IsPod(old(obj.content).gvk.kind) && !receipt.Applied? && k in {n + 2, n + 4}
              && client.trace[k - 1].Wait? && client.trace[k - 1].winner == Cancelled
            else
              && client.trace[k - 1] == Apply(old(obj.content), dryRun, receipt)
              && (if IsPod(old(obj.content).gvk.kind) then k == n + 5 || (receipt.Applied? && k in {n + 1, n + 3}) else k == n + 1)
    ensures receipt.Applied? ==> obj.generation == receipt.generation && obj.resourceVersion == receipt.resourceVersion
  {
    hide IsPod;
    cancelled := false;
    receipt := client.ServerSideApply(obj, dryRun);
    if receipt.Applied? || !IsPod(obj.content.gvk.kind) { return; }
    var attempt := 2;
    while attempt <= 3 && !receipt.Applied?
      invariant 2 <= attempt <= 4
      invariant old(client.trace) < client.trace && Attempts(client.trace, |old(client.trace)|, old(obj.content), dryRun)
      invariant |client.trace| == |old(client.trace)| + 2 * attempt - 3
      invariant !receipt.Applied? ==> obj.content == old(obj.content)
      invariant receipt.Applied? ==> obj.generation == receipt.generation && obj.resourceVersion == receipt.resourceVersion
      invariant client.trace[|client.trace| - 1] == Apply(old(obj.content), dryRun, receipt)
    {
      var winner := client.Select(None);
      if winner.Cancelled? { return receipt, true; }
      receipt := client.ServerSideApply(obj, dryRun);
      attempt := attempt + 1;
    }
  }

  /** An effect at `i` can only be a real write of `m`, directly after a passing
      scope check when `m` has a scope. */
  ghost predicate ScopedWrite(t: seq<Event>, i: nat, m: Manifest)
    requires i < |t|
  {
    && !t[i].Staged?
    && (t[i].Apply? ==> t[i].sent == m && !t[i].dryRun && (HasTargetScope(m) ==> 0 < i && t[i - 1] == DesiredScope(m, true)))
  }

  ghost predicate ScopedWrites(t: seq<Event>, lo: nat, m: Manifest) {
    forall i :: lo <= i < |t| ==> ScopedWrite(t, i, m)
  }

  lemma ScopedWritesJoin(u: seq<Event>, t: seq<Event>, lo: nat, m: Manifest)
    requires u <= t && ScopedWrites(u, lo, m) && ScopedWrites(t, |u|, m)
    ensures ScopedWrites(t, lo, m)
  {
    forall i | lo <= i < |t| ensures ScopedWrite(t, i, m) {
      if i < |u| {
        assert ScopedWrite(u, i, m) && t[i] == u[i];
        if i > 0 { assert t[i - 1] == u[i - 1]; }
      }
    }
  }

  /** Why a retried write was given up. */
  ghost predicate GivesUp(e: Event, m: Manifest) {
    || e == CtxErr(true) || e == DesiredScope(m, false) || e == Apply(m, false, Rejected)
  }

  /** One attempt: unchanged context, fresh membership check, real write of a copy. */
  method AttemptDependentAPI(client: Client, desired: Unstructured) returns (applied: Unstructured?, missing: bool)
    modifies client`trace
    ensures old(client.trace) < client.trace && ScopedWrites(client.trace, |old(client.trace)|, desired.content)
    ensures var last := client.trace[|client.trace| - 1];
            if applied != null then
              !missing && fresh(applied) && last == Apply(desired.content, false, Applied(applied.generation, applied.resourceVersion))
            else if missing then last == Apply(desired.content, false, NoMatch)
            else GivesUp(last, desired.content)
  {
    var done := client.ContextEnded();
    if done { return null, false; }
    var ok := client.InspectDesiredScope(desired);
    if !ok { return null, false; }
    var copy := desired.DeepCopy();
    var receipt := client.ServerSideApply(copy, false);
    if receipt.Applied? { return copy, false; }
    return null, receipt.NoMatch?;
  }

  /** retryDependentAPI: five minutes of guarded real writes while the API is
      missing. The result is the written copy, or nothing with the cause last. */
  method RetryDependentAPI(client: Client, desired: Unstructured) returns (applied: Unstructured?)
    modifies client
    ensures old(client.trace) < client.trace
    ensures ScopedWrites(client.trace, |old(client.trace)|, desired.content)
    ensures var last := client.trace[|client.trace| - 1];
            if applied != null then
              fresh(applied) && last == Apply(desired.content, false, Applied(applied.generation, applied.resourceVersion))
            else
              || GivesUp(last, desired.content)
              || (last.Wait? && (last.winner == Cancelled || (last.winner == Timer && last.at >= old(client.clock) + 300)))
  {
    var deadline := client.clock + 300;
    while true
      invariant old(client.trace) <= client.trace
      invariant ScopedWrites(client.trace, |old(client.trace)|, desired.content)
      decreases client.patience
    {
      ghost var before := client.trace;
      var missing;
      applied, missing := AttemptDependentAPI(client, desired);
      ScopedWritesJoin(before, client.trace, |old(client.trace)|, desired.content);
      if !missing { return; }
      before := client.trace;
      var winner := client.Select(Some(deadline));
      ScopedWritesJoin(before, client.trace, |old(client.trace)|, desired.content);
      if !winner.Tick? { return; }
    }
  }
}
