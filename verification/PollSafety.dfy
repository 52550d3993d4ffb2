/** What every run of the poll machine keeps, whatever the cluster answers. */
module PollSafety {
  import opened Wrappers
  import opened Cluster
  import opened Poll

  lemma NoStepFromTheEnd(c: Config, s: State, e: Event)
    ensures s.pc.Done? || s.pc.Stuck? ==> Step(c, s, e).pc == Stuck
  {}

  /** A run that has not gone astray was live at each earlier point, and each
      event took one step. */
  lemma {:induction false} StepAt(c: Config, gate: string, t: seq<Event>, start: nat, i: nat)
    requires start <= i < |t|
    requires Run(c, gate, t, start).pc != Stuck
    ensures Run(c, gate, t[..i + 1], start) == Step(c, Run(c, gate, t[..i], start), t[i])
    ensures Run(c, gate, t[..i + 1], start).pc != Stuck
    ensures !Run(c, gate, t[..i], start).pc.Done?
    ensures Run(c, gate, t[..i + 1], start).pc.Done? ==> i == |t| - 1
  {
    hide Step;
    var u := t[..|t| - 1];
    NoStepFromTheEnd(c, Run(c, gate, u, start), t[|t| - 1]);
    if i == |t| - 1 {
      assert t[..i + 1] == t;
    } else {
      assert u[..i] == t[..i] && u[..i + 1] == t[..i + 1];
      StepAt(c, gate, u, start, i);
      assert !Run(c, gate, u, start).pc.Done?;
    }
  }

  lemma RunStart(c: Config, gate: string, t: seq<Event>, start: nat)
    requires start <= |t|
    ensures Run(c, gate, t[..start], start) == State(Top, gate, None)
  {}

  // ---------- Observation gate ----------

  /** Where the latest apply that matters to this run ended, and the
      resourceVersion it asks the run to see superseded. */
  ghost function LatestGate(gate: string, t: seq<Event>, start: nat): (r: (nat, string))
    requires start <= |t|
    ensures start <= r.0 <= |t|
  {
    if |t| == start then (start, gate)
    else if t[|t| - 1].Apply? && t[|t| - 1].receipt.Applied? then (|t|, GateAfter(t[|t| - 1].sent.gvk, 0, t[|t| - 1].receipt))
    else LatestGate(gate, t[..|t| - 1], start)
  }

  /** Some read since index `from` showed another resourceVersion. */
  ghost predicate Superseded(t: seq<Event>, from: nat, rv: string) {
    exists i :: from <= i < |t| && t[i].Get? && t[i].read.Found? && t[i].read.resourceVersion != rv
  }

  /** The gate read of the current pass failed. */
  ghost predicate ReadFailedThisPass(t: seq<Event>, start: nat) {
    exists i :: start <= i < |t| && t[i].Get? && t[i].read.Missing?
      && forall j :: i < j < |t| ==> !t[j].Wait?
  }

  /** The part of a pass that follows the gate read. */
  ghost predicate PastGate(pc: Pc) { !pc.Top? && !pc.Gate? && !pc.Pause? && pc != Done(DeadlineExceeded) && pc != Done(TimedOut) }

  lemma SupersededGrows(u: seq<Event>, e: Event, from: nat, rv: string)
    requires Superseded(u, from, rv)
    ensures Superseded(u + [e], from, rv)
  {
    var i: nat :| from <= i < |u| && u[i].Get? && u[i].read.Found? && u[i].read.resourceVersion != rv;
    assert (u + [e])[i] == u[i];
  }

  lemma ReadFailureLasts(u: seq<Event>, e: Event, start: nat)
    requires ReadFailedThisPass(u, start) && !e.Wait?
    ensures ReadFailedThisPass(u + [e], start)
  {
    var t := u + [e];
    var i: nat :| start <= i < |u| && u[i].Get? && u[i].read.Missing? && forall j :: i < j < |u| ==> !u[j].Wait?;
    assert t[i] == u[i] && forall j :: i < j < |t| ==> !t[j].Wait?;
  }

  /** How one step can move the gate, and how a pass gets past a standing one. */
  lemma GateStep(c: Config, s: State, e: Event)
    requires Step(c, s, e).pc != Stuck
    ensures var s' := Step(c, s, e);
            && (s'.gate == s.gate
                || (e.Get? && e.read.Found? && e.read.resourceVersion != s.gate && s'.gate == "")
                || (e.Apply? && e.receipt.Applied?))
            && (e.Apply? && e.receipt.Applied? ==> s'.gate == GateAfter(e.sent.gvk, 0, e.receipt) && s'.pc == Pause)
            && (s'.gate != "" && PastGate(s'.pc) ==>
                  (e.Get? && e.read.Missing?) || (s.gate != "" && PastGate(s.pc) && !e.Wait?))
  {}

  lemma {:induction false} GateInvariant(c: Config, gate: string, t: seq<Event>, start: nat)
    requires start <= |t| && Run(c, gate, t, start).pc != Stuck
    ensures var s, g := Run(c, gate, t, start), LatestGate(gate, t, start);
            && (s.gate == g.1 || (s.gate == "" && Superseded(t, g.0, g.1)))
            && (s.gate != "" && PastGate(s.pc) ==> ReadFailedThisPass(t, start))
  {
    if |t| > start {
      var u, e := t[..|t| - 1], t[|t| - 1];
      assert t == u + [e];
      GateInvariant(c, gate, u, start);
      var s, g := Run(c, gate, u, start), LatestGate(gate, u, start);
      GateStep(c, s, e);
      if e.Get? {
        if e.read.Found? && e.read.resourceVersion != s.gate { assert t[|u|] == e; }
        if e.read.Missing? { assert t[|u|] == e; }
      }
      if Superseded(u, g.0, g.1) { SupersededGrows(u, e, g.0, g.1); }
      if ReadFailedThisPass(u, start) && !e.Wait? { ReadFailureLasts(u, e, start); }
    }
  }

  /** A gate that still stands is the latest one and has not been superseded; a pass
      that got beyond a failed gate read still has its gate standing. */
  ghost predicate GateStands(s: State, t: seq<Event>, start: nat, from: nat, rv: string) {
    && (s.pc == Gate ==> s.gate != "")
    && (s.gate != "" ==> s.gate == rv && !Superseded(t, from, rv))
    && (ReadFailedThisPass(t, start) && PastGate(s.pc) ==> s.gate != "")
    && (s.pc == Top || s.pc == Gate ==> !ReadFailedThisPass(t, start))
  }

  lemma StandingStep(c: Config, s: State, e: Event)
    requires Step(c, s, e).pc != Stuck && (s.pc == Gate ==> s.gate != "")
    ensures var s' := Step(c, s, e);
            && (e.Wait? ==> !PastGate(s'.pc) && s'.pc != Gate && s'.gate == s.gate)
            && (e.Get? ==> s.pc == Gate && s'.pc != Top && s'.pc != Gate && (e.read.Missing? ==> s'.gate == s.gate)
                           && (e.read.Found? && s'.gate != "" ==> e.read.resourceVersion == s.gate == s'.gate))
            && (s'.pc == Top ==> e.Wait?)
            && (s'.pc == Gate ==> s.pc == Top && s'.gate == s.gate != "")
            && (PastGate(s'.pc) && !e.Get? ==> (PastGate(s.pc) || s.pc == Top) && s'.gate == s.gate)
  {}

  /** A failed read of this pass is the last event or lies in the pass already. */
  lemma ReadFailureSplits(u: seq<Event>, e: Event, start: nat)
    requires ReadFailedThisPass(u + [e], start)
    ensures !e.Wait? && (ReadFailedThisPass(u, start) || (e.Get? && e.read.Missing?))
  {
    var t := u + [e];
    var i: nat :| start <= i < |t| && t[i].Get? && t[i].read.Missing? && forall j :: i < j < |t| ==> !t[j].Wait?;
    assert t[|u|] == e;
    if i < |u| { assert u[i] == t[i] && forall j :: i < j < |u| ==> u[j] == t[j]; }
  }

  /** An observation is the last event or was made before. */
  lemma SupersededSplits(u: seq<Event>, e: Event, from: nat, rv: string)
    requires Superseded(u + [e], from, rv)
    ensures Superseded(u, from, rv) || (e.Get? && e.read.Found? && e.read.resourceVersion != rv)
  {
    var t := u + [e];
    var i: nat :| from <= i < |t| && t[i].Get? && t[i].read.Found? && t[i].read.resourceVersion != rv;
    if i < |u| { assert u[i] == t[i]; }
  }

  lemma {:induction false} StandingInvariant(c: Config, gate: string, t: seq<Event>, start: nat)
    requires start <= |t| && Run(c, gate, t, start).pc != Stuck
    ensures var g := LatestGate(gate, t, start); GateStands(Run(c, gate, t, start), t, start, g.0, g.1)
  {
    if |t| > start {
      hide Step, Superseded, ReadFailedThisPass, PastGate;
      var u, e := t[..|t| - 1], t[|t| - 1];
      assert t == u + [e];
      StandingInvariant(c, gate, u, start);
      var s, g := Run(c, gate, u, start), LatestGate(gate, t, start);
      GateStep(c, s, e);
      StandingStep(c, s, e);
      if ReadFailedThisPass(t, start) { ReadFailureSplits(u, e, start); }
      if Superseded(t, g.0, g.1) { SupersededSplits(u, e, g.0, g.1); }
    } else {
      assert !Superseded(t, |t|, gate);
    }
  }

  /** Success and observation: a run that succeeds behind a gate has seen another
      resourceVersion since the latest gated apply, the initial one or the loop's own
      re-apply, exactly when no gate read failed in its last pass. */
  lemma SuccessIsObserved(c: Config, gate: string, t: seq<Event>, start: nat)
    requires start <= |t| && Run(c, gate, t, start).pc == Done(Ok)
    ensures var (from, rv) := LatestGate(gate, t, start);
            rv != "" ==> (Superseded(t, from, rv) <==> !ReadFailedThisPass(t, start))
  {
    GateInvariant(c, gate, t, start);
    StandingInvariant(c, gate, t, start);
  }

  /** When the gate reads succeed, the observation is unconditional. */
  lemma SuccessIsObservedWhenReadsSucceed(c: Config, gate: string, t: seq<Event>, start: nat)
    requires start <= |t| && Run(c, gate, t, start).pc == Done(Ok)
    requires forall i :: start <= i < |t| && t[i].Get? ==> t[i].read.Found?
    ensures var (from, rv) := LatestGate(gate, t, start); rv == "" || Superseded(t, from, rv)
  {
    SuccessIsObserved(c, gate, t, start);
  }

  /** The assumption is needed: a run that succeeds on the previous reconcile's
      status because its only gate read failed. */
  lemma FailedGateReadFallsThrough(m: Manifest, rv: string)
    requires rv != "" && !HasTargetScope(m)
    ensures var t := [CtxErr(false), Get(m, Missing), Validate(m, Success, 0)];
            Run(Config(m, 0), rv, t, 0).pc == Done(Ok) && LatestGate(rv, t, 0) == (0, rv) && !Superseded(t, 0, rv)
  {
    var c, t := Config(m, 0), [CtxErr(false), Get(m, Missing), Validate(m, Success, 0)];
    assert t[..2] == [CtxErr(false), Get(m, Missing)] && t[..2][..1] == [CtxErr(false)];
    assert Run(c, rv, t[..2][..1], 0).pc == Gate;
    assert Run(c, rv, t[..2], 0).pc == Probe;
    assert LatestGate(rv, t[..2][..1], 0) == (0, rv);
    assert LatestGate(rv, t[..2], 0) == (0, rv);
  }

  // ---------- Local retry window ----------

  ghost predicate RetryableError(e: Event) { e.Validate? && e.verdict == Error(true) }

  ghost predicate Resets(e: Event) { e.Validate? && e.verdict in {NotDeployed, InProgress} }

  /** Each retryable error has been followed by a verdict that closes the window. */
  ghost predicate Closed(t: seq<Event>, start: nat) {
    forall j :: start <= j < |t| && RetryableError(t[j]) ==> exists k :: j < k < |t| && Resets(t[k])
  }

  /** `i` is the first retryable error since the last verdict that closed the window. */
  ghost predicate OpensWindow(t: seq<Event>, start: nat, i: nat) {
    && start <= i < |t| && RetryableError(t[i])
    && (forall j :: i < j < |t| ==> !Resets(t[j]))
    && Closed(t[..i], start)
  }

  lemma ClosedGrows(u: seq<Event>, e: Event, start: nat)
    requires Resets(e) || (Closed(u, start) && !RetryableError(e))
    ensures Closed(u + [e], start)
  {
    var t := u + [e];
    forall j | start <= j < |t| && RetryableError(t[j]) ensures exists k :: j < k < |t| && Resets(t[k]) {
      if Resets(e) {
        assert Resets(t[|u|]);
      } else {
        assert RetryableError(u[j]);
        var k :| j < k < |u| && Resets(u[k]);
        assert Resets(t[k]);
      }
    }
  }

  lemma TimerStep(c: Config, s: State, e: Event)
    requires Step(c, s, e).pc != Stuck
    ensures var s' := Step(c, s, e);
            && (Resets(e) ==> s'.timer == None)
            && (RetryableError(e) && s.timer.None? ==>
                  s'.pc == Done(Reported) || (c.window > 0 && s'.timer == Some(e.at)))
            && (!Resets(e) && !(RetryableError(e) && s.timer.None?) ==> s'.timer == s.timer)
            && (s'.timer != s.timer ==> e.Validate?) && s.pc != Done(Reported)
            && (s'.timer.Some? && s.timer.None? ==> RetryableError(e))
  {}

  /** The timer runs exactly from the opening error, and is off when there is none. */
  lemma {:induction false} TimerInvariant(c: Config, gate: string, t: seq<Event>, start: nat)
    requires start <= |t| && Run(c, gate, t, start).pc != Stuck
    ensures var s := Run(c, gate, t, start);
            && (s.timer.Some? ==> c.window > 0 && exists i: nat :: OpensWindow(t, start, i) && t[i].at == s.timer.value)
            && (s.timer.None? && s.pc != Done(Reported) ==> Closed(t, start))
  {
    if |t| > start {
      var u, e := t[..|t| - 1], t[|t| - 1];
      assert t == u + [e];
      TimerInvariant(c, gate, u, start);
      var s, s' := Run(c, gate, u, start), Run(c, gate, t, start);
      TimerStep(c, s, e);
      if s'.timer.Some? {
        if s.timer.Some? {
          var i: nat :| OpensWindow(u, start, i) && u[i].at == s.timer.value;
          assert t[..i] == u[..i] && t[i] == u[i];
          assert OpensWindow(t, start, i);
        } else {
          assert OpensWindow(t, start, |u|);
        }
      } else if s'.pc != Done(Reported) {
        ClosedGrows(u, e, start);
      }
    }
  }

  /** A local timeout is reported only when the timer won a select a full window
      after the error that opened it, with no in-progress or not-deployed verdict
      since; later retryable errors neither restart nor extend the window. */
  lemma TimeoutMeansFullWindow(c: Config, gate: string, t: seq<Event>, start: nat)
    requires start <= |t| && Run(c, gate, t, start).pc == Done(TimedOut)
    ensures |t| > start && t[|t| - 1].Wait? && t[|t| - 1].winner == Timer
    ensures c.window > 0 && exists i: nat :: OpensWindow(t, start, i) && t[|t| - 1].at >= t[i].at + c.window
  {
    var u := t[..|t| - 1];
    TimerInvariant(c, gate, t, start);
    var i: nat :| OpensWindow(t, start, i) && t[i].at == Run(c, gate, t, start).timer.value;
  }

  /** Kinds without a window fail at the first error, retryable or not; kinds with
      one fail at the first error that is not retryable. */
  lemma {:induction false} ErrorWithoutWindowIsFinal(c: Config, gate: string, t: seq<Event>, start: nat, i: nat)
    requires start <= i < |t| && Run(c, gate, t, start).pc != Stuck
    requires t[i].Validate? && t[i].verdict.Error? && (c.window == 0 || !t[i].verdict.retryable)
    ensures i == |t| - 1 && Run(c, gate, t, start).pc == Done(Reported)
  {
    StepAt(c, gate, t, start, i);
    assert t[..|t|] == t;
  }

  // ---------- Writes and verdicts ----------

  lemma {:induction false} ReownOnlyForPolicies(c: Config, gate: string, t: seq<Event>, start: nat)
    requires start <= |t| && Run(c, gate, t, start).pc == Reown
    ensures IsNicClusterPolicy(c.desired)
  {}

  lemma IntoReapply(c: Config, s: State, e: Event)
    requires Step(c, s, e).pc == Reapply && (s.pc == Reown ==> IsNicClusterPolicy(c.desired))
    ensures HasTargetScope(c.desired) && !IsNicClusterPolicy(c.desired) ==> e == DesiredScope(c.desired, true)
    ensures IsNicClusterPolicy(c.desired) ==> e == Ownership(Some(c.desired), true)
    ensures e in {DesiredScope(c.desired, true), Ownership(Some(c.desired), true)}
            || (e.Validate? && e.target == c.desired && e.verdict == NotDeployed)
  {}

  /** Every write of a poll run re-applies the desired object itself, for real,
      directly after a passing scope check and, for a NicClusterPolicy, directly
      after a passing ownership check. */
  lemma WritesAreGuarded(c: Config, gate: string, t: seq<Event>, start: nat, i: nat)
    requires start <= i < |t| && Run(c, gate, t, start).pc != Stuck && t[i].Apply?
    ensures t[i].sent == c.desired && !t[i].dryRun && start < i
    ensures HasTargetScope(c.desired) ==> t[i - 1] == DesiredScope(c.desired, true)
    ensures IsNicClusterPolicy(c.desired) ==> t[i - 1] == Ownership(Some(c.desired), true)
    ensures t[i - 1] in {DesiredScope(c.desired, true), Ownership(Some(c.desired), true)}
            || (t[i - 1].Validate? && t[i - 1].target == c.desired && t[i - 1].verdict == NotDeployed)
  {
    hide Run, Step;
    StepAt(c, gate, t, start, i);
    ApplyStep(c, Run(c, gate, t[..i], start), t[i]);
    RunStart(c, gate, t, start);
    StepAt(c, gate, t, start, i - 1);
    if Run(c, gate, t[..i - 1], start).pc == Reown { ReownOnlyForPolicies(c, gate, t[..i - 1], start); }
    IntoReapply(c, Run(c, gate, t[..i - 1], start), t[i - 1]);
  }

  lemma ApplyStep(c: Config, s: State, e: Event)
    requires Step(c, s, e).pc != Stuck && e.Apply?
    ensures s.pc == Reapply && e.sent == c.desired && !e.dryRun
  {}

  lemma SuccessStep(c: Config, s: State, e: Event)
    requires Step(c, s, e).pc != Stuck
    ensures Step(c, s, e).pc == Done(Ok) <==> e.Validate? && e.target == c.desired && e.verdict == Success
  {}

  /** A run ends in success exactly at a success verdict on the desired object. */
  lemma {:induction false} SuccessIsTheLastVerdict(c: Config, gate: string, t: seq<Event>, start: nat)
    requires start <= |t| && Run(c, gate, t, start).pc != Stuck
    ensures Run(c, gate, t, start).pc == Done(Ok) <==>
            |t| > start && t[|t| - 1].Validate? && t[|t| - 1].target == c.desired && t[|t| - 1].verdict == Success
    ensures forall i :: start <= i < |t| - 1 && t[i].Validate? ==> t[i].verdict != Success
  {
    hide Run, Step;
    forall i | start <= i < |t| - 1 && t[i].Validate? ensures t[i].verdict != Success {
      StepAt(c, gate, t, start, i);
      StepAt(c, gate, t, start, i + 1);
      AskedAbout(c, Run(c, gate, t[..i], start), t[i]);
      SuccessStep(c, Run(c, gate, t[..i], start), t[i]);
    }
    assert t[..|t|] == t;
    if |t| > start {
      StepAt(c, gate, t, start, |t| - 1);
      SuccessStep(c, Run(c, gate, t[..|t| - 1], start), t[|t| - 1]);
    } else {
      RunStart(c, gate, t, start);
    }
  }

  lemma AskedAbout(c: Config, s: State, e: Event)
    requires Step(c, s, e).pc != Stuck && e.Validate?
    ensures e.target == c.desired
  {}
}
