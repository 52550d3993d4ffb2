/** Why a poll run ends, and what each of its calls leads to: the machine told on its
    events alone. */
module PollOutcomes {
  import opened Wrappers
  import opened Cluster
  import opened Poll
  import opened PollSafety

  // ---------- How a run ends ----------

  /** The last event is one that ends a run with outcome `o`. */
  ghost predicate Closes(c: Config, t: seq<Event>, start: nat, o: Outcome)
    requires start < |t|
  {
    var e := t[|t| - 1];
    match o
    case Ok => e.Validate? && e.target == c.desired && e.verdict == Success
    case DeadlineExceeded => e == CtxErr(true) || (e.Wait? && e.winner == Cancelled)
    case TimedOut => e.Wait? && e.winner == Timer
    case OutsideScope =>
      || e == DesiredScope(c.desired, false)
      || (e == CtxErr(false) && start + 1 < |t| && t[|t| - 2] == LiveScope(c.desired, OutOfScope))
    case NotOwned => e == Ownership(Some(c.desired), false)
    case ApplyFailed => e.Apply? && !e.receipt.Applied?
    case Reported => e.Validate? && e.verdict.Error? && (!e.verdict.retryable || c.window == 0)
  }

  /** Where the machine stands after an event that does not end the run. */
  ghost predicate StandsAfter(c: Config, s: State, e: Event, pc: Pc) {
    match e
    case CtxErr(_) => if s.pc.ScopeFault? then pc == Pause else pc == if s.gate != "" then Gate else AfterGate(c.desired)
    case Get(_, read) => pc == if read.Found? && read.resourceVersion == s.gate then Pause else AfterGate(c.desired)
    case LiveScope(_, answer) => pc == if answer == InScope then Probe else ScopeFault(answer == RetryableRead)
    case Validate(_, verdict, _) => pc == if verdict == NotDeployed then Vanished(c.desired) else Pause
    case DesiredScope(_, _) => pc == AfterRescope(c.desired)
    case Ownership(_, _) => pc == Reapply
    case Apply(_, _, _) => pc == Pause
    case Wait(_, _) => pc == Top
    case _ => false
  }

  lemma StepStands(c: Config, s: State, e: Event)
    requires Step(c, s, e).pc != Stuck && !Step(c, s, e).pc.Done?
    ensures StandsAfter(c, s, e, Step(c, s, e).pc)
  {}

  lemma StepCloses(c: Config, s: State, e: Event, o: Outcome)
    requires Step(c, s, e).pc != Stuck
    ensures Step(c, s, e).pc == Done(o) <==>
            match o
            case Ok => e.Validate? && e.target == c.desired && e.verdict == Success
            case DeadlineExceeded => e == CtxErr(true) || (e.Wait? && e.winner == Cancelled)
            case TimedOut => e.Wait? && e.winner == Timer
            case OutsideScope => e == DesiredScope(c.desired, false) || (e == CtxErr(false) && s.pc == ScopeFault(false))
            case NotOwned => e == Ownership(Some(c.desired), false)
            case ApplyFailed => e.Apply? && !e.receipt.Applied?
            case Reported => e.Validate? && e.verdict.Error? && (!e.verdict.retryable || c.window == 0)
  {}

  lemma StepFaults(c: Config, s: State, e: Event, retryable: bool)
    requires Step(c, s, e).pc != Stuck
    ensures Step(c, s, e).pc == ScopeFault(retryable) <==> e == LiveScope(c.desired, if retryable then RetryableRead else OutOfScope)
  {}

  /** The machine is at a scope fault exactly after such an answer. */
  lemma AtScopeFault(c: Config, gate: string, t: seq<Event>, start: nat, i: nat, retryable: bool)
    requires start <= i < |t| && Run(c, gate, t, start).pc != Stuck
    ensures Run(c, gate, t[..i], start).pc == ScopeFault(retryable) <==>
            start < i && t[i - 1] == LiveScope(c.desired, if retryable then RetryableRead else OutOfScope)
  {
    hide Run, Step;
    if i == start {
      RunStart(c, gate, t, start);
    } else {
      StepAt(c, gate, t, start, i - 1);
      StepFaults(c, Run(c, gate, t[..i - 1], start), t[i - 1], retryable);
    }
  }

  /** A run ends with an outcome exactly when its last event is one that closes it so: a
      retryable error inside a window, a transport error or a temporary read failure never
      ends a run, and every refusal does. */
  lemma EndsExactly(c: Config, gate: string, t: seq<Event>, start: nat, o: Outcome)
    requires start < |t| && Run(c, gate, t, start).pc != Stuck
    ensures Run(c, gate, t, start).pc == Done(o) <==> Closes(c, t, start, o)
  {
    hide Run, Step;
    var n := |t| - 1;
    assert t[..n + 1] == t;
    StepAt(c, gate, t, start, n);
    StepCloses(c, Run(c, gate, t[..n], start), t[n], o);
    AtScopeFault(c, gate, t, start, n, false);
  }

  // ---------- What each call leads to ----------

  /** What a pass looks at once no gate stands in its way. */
  ghost predicate Examines(m: Manifest, e: Event) {
    if HasTargetScope(m) then e.LiveScope? && e.target == m else e.Validate? && e.target == m
  }

  /** How the re-apply of a vanished object begins. */
  ghost predicate Restores(m: Manifest, e: Event) {
    if HasTargetScope(m) then e.DesiredScope? && e.target == m
    else if IsNicClusterPolicy(m) then e.Ownership? && e.policy == Some(m)
    else e.Apply? && e.sent == m && !e.dryRun
  }

  /** Some gated apply has not been superseded by index `i`. */
  ghost predicate Gated(gate: string, t: seq<Event>, start: nat, i: nat)
    requires start <= i <= |t|
  {
    var (from, rv) := LatestGate(gate, t[..i], start);
    rv != "" && !Superseded(t[..i], from, rv)
  }

  /** The event at `i` is followed by what the protocol asks for. */
  ghost predicate LeadsOn(c: Config, gate: string, t: seq<Event>, start: nat, i: nat)
    requires start <= i && i + 1 < |t|
  {
    var m, f := c.desired, t[i + 1];
    match t[i]
    case CtxErr(_) =>
      if start < i && t[i - 1].LiveScope? then f.Wait?
      else if Gated(gate, t, start, i) then f.Get? && f.target == m
      else Examines(m, f)
    case Get(_, read) =>
      if read.Found? && read.resourceVersion == LatestGate(gate, t[..i], start).1 then f.Wait? else Examines(m, f)
    case LiveScope(_, answer) => if answer == InScope then f.Validate? else f.CtxErr?
    case Validate(_, verdict, _) => if verdict == NotDeployed then Restores(m, f) else f.Wait?
    case DesiredScope(_, _) =>
      if IsNicClusterPolicy(m) then f.Ownership? else f.Apply? && f.sent == m && !f.dryRun
    case Ownership(_, _) => f.Apply? && f.sent == m && !f.dryRun
    case Apply(_, _, _) => f.Wait?
    case Wait(_, _) => f.CtxErr?
    case _ => false
  }

  /** Which event a program counter waits for. */
  lemma StepNeeds(c: Config, s: State, f: Event)
    requires Step(c, s, f).pc != Stuck
    ensures s.pc == Pause ==> f.Wait?
    ensures s.pc == Top || s.pc.ScopeFault? ==> f.CtxErr?
    ensures s.pc == Gate ==> f.Get? && f.target == c.desired
    ensures s.pc == AfterGate(c.desired) ==> Examines(c.desired, f)
    ensures s.pc == Probe ==> f.Validate? && f.target == c.desired
    ensures s.pc == Vanished(c.desired) ==> Restores(c.desired, f)
    ensures s.pc == AfterRescope(c.desired) && IsNicClusterPolicy(c.desired) ==> f.Ownership?
    ensures s.pc == Reapply || (s.pc == AfterRescope(c.desired) && !IsNicClusterPolicy(c.desired)) ==>
              f.Apply? && f.sent == c.desired && !f.dryRun
  {}

  /** The machine's gate is the standing one. */
  lemma GateIsStanding(c: Config, gate: string, t: seq<Event>, start: nat, i: nat)
    requires start <= i <= |t| && Run(c, gate, t[..i], start).pc != Stuck
    ensures Run(c, gate, t[..i], start).gate != "" <==> Gated(gate, t, start, i)
    ensures Run(c, gate, t[..i], start).gate != "" ==> Run(c, gate, t[..i], start).gate == LatestGate(gate, t[..i], start).1
    ensures Run(c, gate, t[..i], start).pc == Gate ==> Run(c, gate, t[..i], start).gate != ""
  {
    GateInvariant(c, gate, t[..i], start);
    StandingInvariant(c, gate, t[..i], start);
  }

  lemma OnlyAtGate(c: Config, s: State, e: Event)
    requires Step(c, s, e).pc != Stuck && e.Get?
    ensures s.pc == Gate
  {}

  /** Nothing is skipped and nothing is repeated: each event of a run is followed by the
      call the protocol asks for, whatever the answers. */
  lemma EachCallLeadsOn(c: Config, gate: string, t: seq<Event>, start: nat, i: nat)
    requires start <= i && i + 1 < |t| && Run(c, gate, t, start).pc != Stuck
    ensures LeadsOn(c, gate, t, start, i)
  {
    hide Run, Step, AfterGate, AfterRescope, Vanished, Examines, Restores, Gated, Superseded;
    StepAt(c, gate, t, start, i);
    StepAt(c, gate, t, start, i + 1);
    var s, s' := Run(c, gate, t[..i], start), Run(c, gate, t[..i + 1], start);
    assert !s'.pc.Done?;
    StepStands(c, s, t[i]);
    StepNeeds(c, s', t[i + 1]);
    NoStepFromTheEnd(c, s, t[i]);
    GateIsStanding(c, gate, t, start, i);
    if t[i].CtxErr? {
      AtScopeFault(c, gate, t, start, i, true);
      AtScopeFault(c, gate, t, start, i, false);
      if start < i && t[i - 1].LiveScope? { AfterLiveScope(c, gate, t, start, i); }
    }
    if t[i].Get? { OnlyAtGate(c, s, t[i]); }
  }

  /** The context is only looked at again after a scope failure. */
  lemma AfterLiveScope(c: Config, gate: string, t: seq<Event>, start: nat, i: nat)
    requires start < i < |t| && Run(c, gate, t, start).pc != Stuck && t[i - 1].LiveScope? && t[i].CtxErr?
    ensures t[i - 1].target == c.desired && t[i - 1].answer != InScope
  {
    hide Run;
    StepAt(c, gate, t, start, i - 1);
    StepAt(c, gate, t, start, i);
  }

  // ---------- What a verdict rests on ----------

  /** The validator is asked about the desired object, and for a kind with a scope
      directly after the live object was found in scope. */
  lemma AskedInScope(c: Config, gate: string, t: seq<Event>, start: nat, i: nat)
    requires start <= i < |t| && Run(c, gate, t, start).pc != Stuck && t[i].Validate?
    ensures t[i].target == c.desired
    ensures HasTargetScope(c.desired) ==> start < i && t[i - 1] == LiveScope(c.desired, InScope)
  {
    hide Run;
    StepAt(c, gate, t, start, i);
    if i == start {
      RunStart(c, gate, t, start);
    } else {
      StepAt(c, gate, t, start, i - 1);
    }
  }

  /** A retryable error of a kind with a window is waited out: the run goes on to a
      select, whatever else is in it. */
  lemma RetryableErrorIsWaitedOut(c: Config, gate: string, t: seq<Event>, start: nat, i: nat)
    requires start <= i < |t| && Run(c, gate, t, start).pc != Stuck
    requires c.window > 0 && t[i].Validate? && t[i].verdict == Error(true)
    ensures forall o :: Run(c, gate, t[..i + 1], start).pc != Done(o)
    ensures i + 1 < |t| ==> t[i + 1].Wait?
  {
    hide Run;
    StepAt(c, gate, t, start, i);
    forall o ensures Run(c, gate, t[..i + 1], start).pc != Done(o) { EndsExactly(c, gate, t[..i + 1], start, o); }
    if i + 1 < |t| { EachCallLeadsOn(c, gate, t, start, i); }
  }
}
