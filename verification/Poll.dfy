/** The poll loop behind every apply: an operational specification of one poll
    run as a machine over events, the loop that refines it, and what every run
    of the machine keeps. */
module Poll {
  import opened Wrappers
  import opened Cluster

  datatype Outcome = Ok | DeadlineExceeded | TimedOut | OutsideScope | NotOwned | ApplyFailed | Reported

  datatype Pc =
    | Top                          // the context is checked next
    | Gate                         // the observation gate is read next
    | Scope                        // the live scope is inspected next
    | ScopeFault(retryable: bool)  // the context is checked after a scope failure
    | Probe                        // the validator is asked next
    | Rescope | Reown | Reapply    // the guarded re-apply of a vanished object
    | Pause                        // select over context, timer and ticker
    | Done(outcome: Outcome)
    | Stuck

  /** `gate` is the resourceVersion to move past ("" when there is none) and
      `timer` the instant the local retry window was opened. */
  datatype State = State(pc: Pc, gate: string, timer: Option<nat>)

  datatype Config = Config(desired: Manifest, window: nat)

  ghost function AfterGate(m: Manifest): Pc { if HasTargetScope(m) then Scope else Probe }

  ghost function AfterRescope(m: Manifest): Pc { if IsNicClusterPolicy(m) then Reown else Reapply }

  ghost function Vanished(m: Manifest): Pc { if HasTargetScope(m) then Rescope else AfterRescope(m) }

  ghost function OnVerdict(c: Config, s: State, verdict: Verdict, at: nat): State {
    match verdict
    case Transient => s.(pc := Pause)
    case Success => s.(pc := Done(Ok))
    case Error(retryable) =>
      if retryable && c.window > 0
      then s.(pc := Pause, timer := if s.timer.None? then Some(at) else s.timer)
      else s.(pc := Done(Reported))
    case NotDeployed => s.(pc := Vanished(c.desired), timer := None)
    case InProgress => s.(pc := Pause, timer := None)
  }

  ghost function Step(c: Config, s: State, e: Event): State {
    match (s.pc, e)
    case (Top, CtxErr(done)) =>
      if done then s.(pc := Done(DeadlineExceeded))
      else s.(pc := if s.gate != "" then Gate else AfterGate(c.desired))
    case (Gate, Get(m, read)) =>
      if m != c.desired then s.(pc := Stuck)
      else if read.Missing? then s.(pc := AfterGate(m))
      else if read.resourceVersion == s.gate then s.(pc := Pause)
      else s.(pc := AfterGate(m), gate := "")
    case (Scope, LiveScope(m, answer)) =>
      if m != c.desired then s.(pc := Stuck)
      else s.(pc := if answer.InScope? then Probe else ScopeFault(answer.RetryableRead?))
    case (ScopeFault(retryable), CtxErr(done)) =>
      s.(pc := if done then Done(DeadlineExceeded) else if retryable then Pause else Done(OutsideScope))
    case (Probe, Validate(m, verdict, at)) =>
      if m != c.desired then s.(pc := Stuck) else OnVerdict(c, s, verdict, at)
    case (Rescope, DesiredScope(m, ok)) =>
      s.(pc := if m != c.desired then Stuck else if ok then AfterRescope(m) else Done(OutsideScope))
    case (Reown, Ownership(m, ok)) =>
      s.(pc := if m != Some(c.desired) then Stuck else if ok then Reapply else Done(NotOwned))
    case (Reapply, Apply(m, dryRun, receipt)) =>
      if m != c.desired || dryRun then s.(pc := Stuck)
      else if !receipt.Applied? then s.(pc := Done(ApplyFailed))
      else s.(pc := Pause, gate := GateAfter(m.gvk, 0, receipt))
    case (Pause, Wait(winner, at)) =>
      match winner {
        case Cancelled => s.(pc := Done(DeadlineExceeded))
        case Tick => s.(pc := Top)
        case Timer => s.(pc := if s.timer.Some? && at >= s.timer.value + c.window then Done(TimedOut) else Stuck)
      }
    case _ => s.(pc := Stuck)
  }

  /** The machine's state after the events of `t` from index `start` on. */
  ghost function Run(c: Config, gate: string, t: seq<Event>, start: nat): State
    requires start <= |t|
  {
    if |t| == start then State(Top, gate, None)
    else Step(c, Run(c, gate, t[..|t| - 1], start), t[|t| - 1])
  }

  lemma RunStep(c: Config, gate: string, t: seq<Event>, e: Event, start: nat)
    requires start <= |t|
    ensures Run(c, gate, t + [e], start) == Step(c, Run(c, gate, t, start), e)
  {
    assert (t + [e])[..|t|] == t;
  }

  method WaitForNextPoll(client: Client, timer: Option<nat>, window: nat)
    returns (ended: Option<Outcome>, ghost won: Event)
    modifies client
    ensures client.trace == old(client.trace) + [won] && won.Wait?
    ensures match won.winner
            case Tick => ended == None && client.patience < old(client.patience)
            case Cancelled => ended == Some(DeadlineExceeded)
            case Timer => ended == Some(TimedOut) && timer.Some? && won.at >= timer.value + window
  {
    var winner := client.Select(if timer.Some? then Some(timer.value + window) else None);
    won := Wait(winner, client.clock);
    match winner {
      case Cancelled => ended := Some(DeadlineExceeded);
      case Timer => ended := Some(TimedOut);
      case Tick => ended := None;
    }
  }

  /** The guarded re-apply of an object that vanished between apply and poll. */
  method ReapplyVanished(client: Client, desired: Unstructured, ghost c: Config, ghost gate0: string, ghost start: nat)
    returns (failed: Option<Outcome>, gate: string)
    requires c.desired == desired.content && start <= |client.trace|
    requires Run(c, gate0, client.trace, start).pc == Vanished(c.desired)
    requires Run(c, gate0, client.trace, start).timer == None
    modifies client
    ensures old(client.trace) <= client.trace
    ensures client.patience == old(client.patience)
    ensures var s := Run(c, gate0, client.trace, start);
            if failed.Some? then s.pc == Done(failed.value) else s == State(Pause, gate, None)
  {
    hide Run;
    gate := "";
    ghost var t := client.trace;
    var ok := client.InspectDesiredScope(desired);
    RunStep(c, gate0, t, DesiredScope(c.desired, ok), start);
    if !ok { return Some(OutsideScope), gate; }
    assert Run(c, gate0, client.trace, start).pc == AfterRescope(c.desired);
    if IsNicClusterPolicy(desired.content) {
      t := client.trace;
      ok := client.CheckOwnership(desired);
      RunStep(c, gate0, t, Ownership(Some(c.desired), ok), start);
      if !ok { return Some(NotOwned), gate; }
    }
    assert Run(c, gate0, client.trace, start).pc == Reapply;
    t := client.trace;
    var applied := desired.DeepCopy();
    var receipt := client.ServerSideApply(applied, false);
    RunStep(c, gate0, t, Apply(c.desired, false, receipt), start);
    if !receipt.Applied? { return Some(ApplyFailed), gate; }
    if applied.generation > 0 && NeedsObservationGate(desired.content.gvk) {
      gate := applied.resourceVersion;
    }
    failed := None;
  }

  /** The observation gate: `blocked` when the live object still carries the
      resourceVersion of our own apply. A failed read falls through. */
  method ObserveGate(client: Client, desired: Unstructured, gate: string, ghost c: Config, ghost gate0: string, ghost start: nat)
    returns (blocked: bool, gate': string)
    requires c.desired == desired.content && start <= |client.trace|
    requires Run(c, gate0, client.trace, start).pc == if gate != "" then Gate else AfterGate(c.desired)
    requires Run(c, gate0, client.trace, start).gate == gate
    modifies client
    ensures old(client.trace) <= client.trace
    ensures client.patience == old(client.patience)
    ensures Run(c, gate0, client.trace, start) ==
            State(if blocked then Pause else AfterGate(c.desired), gate', Run(c, gate0, old(client.trace), start).timer)
  {
    blocked, gate' := false, gate;
    if gate != "" {
      var live := client.Read(desired);
      if live.Found? {
        if live.resourceVersion == gate { blocked := true; } else { gate' := ""; }
      }
    }
  }

  /** One validator verdict and what the loop does about it. */
  method JudgeVerdict(client: Client, desired: Unstructured, gate: string, timer: Option<nat>,
                      c: Config, ghost gate0: string, ghost start: nat)
    returns (ended: Option<Outcome>, gate': string, timer': Option<nat>)
    requires c.desired == desired.content && start <= |client.trace|
    requires Run(c, gate0, client.trace, start) == State(Probe, gate, timer)
    modifies client
    ensures old(client.trace) <= client.trace
    ensures client.patience == old(client.patience)
    ensures var s := Run(c, gate0, client.trace, start);
            if ended.Some? then s.pc == Done(ended.value) else s == State(Pause, gate', timer')
  {
    ended, gate', timer' := None, gate, timer;
    var verdict := client.ValidateState(desired);
    assert Run(c, gate0, client.trace, start) == OnVerdict(c, State(Probe, gate, timer), verdict, client.clock);
    match verdict {
      case Transient =>
      case Success => ended := Some(Ok);
      case Error(retryable) =>
        if retryable && c.window > 0 {
          if timer.None? { timer' := Some(client.clock); }
        } else {
          ended := Some(Reported);
        }
      case NotDeployed =>
        timer' := None;
        ended, gate' := ReapplyVanished(client, desired, c, gate0, start);
      case InProgress => timer' := None;
    }
  }

  /** The live target scope, with the context looked at again after a failure. */
  method CheckLiveScope(client: Client, desired: Unstructured, ghost c: Config, ghost gate0: string, ghost start: nat)
    returns (ended: Option<Outcome>, probe: bool)
    requires c.desired == desired.content && start <= |client.trace|
    requires Run(c, gate0, client.trace, start).pc == AfterGate(c.desired)
    modifies client
    ensures old(client.trace) <= client.trace
    ensures client.patience == old(client.patience)
    ensures Run(c, gate0, client.trace, start) == Run(c, gate0, old(client.trace), start).(
              pc := if ended.Some? then Done(ended.value) else if probe then Probe else Pause)
  {
    ended, probe := None, true;
    var scope := client.InspectLiveScope(desired);
    if scope != InScope {
      probe := false;
      var done := client.ContextEnded();
      if done {
        ended := Some(DeadlineExceeded);
      } else if scope != RetryableRead {
        ended := Some(OutsideScope);
      }
    }
  }

  /** One pass of the loop, up to the select. */
  method PollOnce(client: Client, desired: Unstructured, gate: string, timer: Option<nat>,
                  c: Config, ghost gate0: string, ghost start: nat)
    returns (ended: Option<Outcome>, gate': string, timer': Option<nat>)
    requires c.desired == desired.content && start <= |client.trace|
    requires Run(c, gate0, client.trace, start) == State(Top, gate, timer)
    modifies client
    ensures old(client.trace) <= client.trace
    ensures client.patience == old(client.patience)
    ensures var s := Run(c, gate0, client.trace, start);
            if ended.Some? then s.pc == Done(ended.value) else s == State(Pause, gate', timer')
  {
    gate', timer' := gate, timer;
    var done := client.ContextEnded();
    if done { return Some(DeadlineExceeded), gate', timer'; }
    var blocked;
    blocked, gate' := ObserveGate(client, desired, gate, c, gate0, start);
    if blocked { return None, gate', timer'; }
    var probe;
    ended, probe := CheckLiveScope(client, desired, c, gate0, start);
    if ended.Some? || !probe { return; }
    ended, gate', timer' := JudgeVerdict(client, desired, gate', timer, c, gate0, start);
  }

  /** pollUntilTerminalWithRetryableErrorTimeout: the run it leaves behind in the
      trace is a run of the machine that ends with the returned outcome. */
  method PollUntilTerminal(client: Client, desired: Unstructured, awaitObservationAfterRV: string, window: nat)
    returns (outcome: Outcome)
    modifies client
    ensures old(client.trace) <= client.trace
    ensures Run(Config(desired.content, window), awaitObservationAfterRV, client.trace, |old(client.trace)|).pc == Done(outcome)
  {
    ghost var start := |client.trace|;
    var c := Config(desired.content, window);
    var gate, timer: Option<nat> := awaitObservationAfterRV, None;
    while true
      invariant old(client.trace) <= client.trace
      invariant Run(c, awaitObservationAfterRV, client.trace, start) == State(Top, gate, timer)
      decreases client.patience
    {
      var ended;
      ended, gate, timer := PollOnce(client, desired, gate, timer, c, awaitObservationAfterRV, start);
      if ended.Some? { return ended.value; }
      ghost var won;
      ended, won := WaitForNextPoll(client, timer, window);
      if ended.Some? { return ended.value; }
    }
  }
}
