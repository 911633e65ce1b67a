/**
 The restart loop of one adapter, cut at its await points. A run that is being stopped
 either stops or is given up as stuck and detached.
 */
module Lifecycles {
  import opened Seqs
  import opened Input
  import opened Backoffs
  import opened Registry

  datatype Command = Restart | Disable | Enable

  /** What follows once the current run has been stopped. */
  datatype Afterwards = Relaunch | Park | Exit

  datatype Phase =
    | Fresh
    | Parked
    | Launched(startedAt: nat, ready: bool)
    | Stopping(afterwards: Afterwards)
    | Waiting(deadline: nat)
    | Ended
  {
    /** The lifecycle still holds the handle of a spawned run. */
    predicate HoldsRun() { Launched? || Stopping? }
  }

  datatype Life = Life(enabled: bool, stuck: bool, launches: nat, failures: nat, phase: Phase)

  datatype Happening =
    | Begin
    | Shutdown(flag: bool)
    | Closed
    | Told(command: Command)
    | Ready
    | Finished(error: string)
    | RunStopped
    | RunStuck
    | Due

  /** What can wake the lifecycle in each phase. */
  predicate Awaited(life: Life, h: Happening, at: nat) {
    match life.phase
    case Fresh => h.Begin? || h == Shutdown(true)
    case Parked => h.Shutdown? || h.Closed? || h.Told?
    case Launched(startedAt, ready) =>
      startedAt <= at && (h.Shutdown? || h.Closed? || h.Told? || h.Finished? || (h.Ready? && !ready))
    case Stopping(_) => h.RunStopped? || h.RunStuck?
    case Waiting(deadline) => h.Shutdown? || h.Closed? || h.Told? || (h.Due? && deadline <= at)
    case Ended => false
  }

  const STUCK_ERROR := "run ignored abort and never yielded; its Bus service and D-Bus names may still be held until the process restarts"

  const GONE_STUCK := Change(Stuck, Some(Some(STUCK_ERROR)), false)

  /** The lifecycle after a wake-up, and the transitions it made on the way. */
  datatype Outcome = Outcome(life: Life, changes: seq<Change>)

  function Stay(life: Life, phase: Phase): Outcome { Outcome(life.(phase := phase), []) }

  /** The top of the loop: park when disabled, launch otherwise. The launch counter wraps. */
  function LoopTop(life: Life, at: nat): Outcome {
    if life.enabled then
      var launches := (life.launches + 1) % (U64_MAX + 1);
      Outcome(life.(launches := launches, phase := Launched(at, false)), [Change(Starting, None, launches > 1)])
    else
      Outcome(life.(phase := Parked), [if life.stuck then GONE_STUCK else Change(Disabled, None, false)])
  }

  function AfterStop(life: Life, gaveUp: bool, at: nat): Outcome
    requires life.phase.Stopping?
  {
    match life.phase.afterwards
    case Park => LoopTop(life.(stuck := life.stuck || gaveUp, enabled := false), at)
    case Exit => Outcome(life.(phase := Ended), if gaveUp then [GONE_STUCK] else [])
    case Relaunch =>
      var next := LoopTop(life.(failures := 0), at);
      next.(changes := (if gaveUp then [GONE_STUCK] else []) + next.changes)
  }

  function Next(life: Life, h: Happening, at: nat): Outcome
    requires Awaited(life, h, at)
  {
    match life.phase
    case Fresh => if h == Shutdown(true) then Stay(life, Ended) else LoopTop(life, at)
    case Parked =>
      if h == Shutdown(true) || h.Closed? then Stay(life, Ended)
      else if h.Told? && !h.command.Disable? then LoopTop(life.(enabled := true, stuck := false, failures := 0), at)
      else Stay(life, Parked)
    case Launched(startedAt, ready) => (
      match h
      case Shutdown(flag) => if flag then Stay(life, Stopping(Exit)) else Stay(life, life.phase)
      case Closed => Stay(life, Stopping(Exit))
      case Told(Restart) => Stay(life, Stopping(Relaunch))
      case Told(Disable) => Stay(life, Stopping(Park))
      case Told(Enable) => Stay(life, life.phase)
      case Ready => Outcome(life.(phase := Launched(startedAt, true)), [Change(Running, Some(None), false)])
      case Finished(error) =>
        var failures := AfterFailure(life.failures, at - startedAt);
        Outcome(life.(failures := failures, phase := Waiting(at + Delay(failures))),
                [Change(Backoff, Some(Some(error)), false)]))
    case Stopping(_) => AfterStop(life, h.RunStuck?, at)
    case Waiting(deadline) => (
      match h
      case Shutdown(flag) =>
        if flag then Stay(life, Ended) else if deadline <= at then LoopTop(life, at) else Stay(life, life.phase)
      case Closed => Stay(life, Ended)
      case Told(Disable) => LoopTop(life.(enabled := false), at)
      case Told(_) => LoopTop(life.(failures := 0), at)
      case Due => LoopTop(life, at))
  }

  /** The mutable lifecycle, sharing its registry with every other one. */
  class Lifecycle {
    const name: string
    const registry: RegistryState
    const backoff: Backoffs.Backoff
    var enabled: bool
    var stuck: bool
    var launches: nat
    var phase: Phase

    ghost function Value(): Life
      reads this, backoff
    {
      Life(enabled, stuck, launches, backoff.failures, phase)
    }

    constructor (name: string, enabled: bool, registry: RegistryState)
      ensures this.name == name && this.registry == registry && fresh(backoff)
      ensures Value() == Life(enabled, false, 0, 0, Fresh)
    {
      this.name, this.registry, this.enabled := name, registry, enabled;
      backoff := new Backoffs.Backoff();
      stuck, launches, phase := false, 0, Fresh;
    }

    method MarkStuck()
      modifies registry
      ensures registry.Value() == AfterTransition(old(registry.Value()), name, GONE_STUCK)
    {
      registry.Transition(name, Stuck, Some(Some(STUCK_ERROR)), false);
    }

    method Continue(at: nat)
      modifies this, registry
      ensures (Value(), registry.Value()) ==
              (LoopTop(old(Value()), at).life, AfterTransitions(old(registry.Value()), name, LoopTop(old(Value()), at).changes))
    {
      if !enabled {
        if stuck { MarkStuck(); } else { registry.Transition(name, Disabled, None, false); }
        phase := Parked;
      } else {
        launches := (launches + 1) % (U64_MAX + 1);
        registry.Transition(name, Starting, None, launches > 1);
        phase := Launched(at, false);
      }
    }

    method FinishStop(gaveUp: bool, at: nat)
      requires phase.Stopping?
      modifies this, backoff, registry
      ensures (Value(), registry.Value()) ==
              (AfterStop(old(Value()), gaveUp, at).life, AfterTransitions(old(registry.Value()), name, AfterStop(old(Value()), gaveUp, at).changes))
    {
      match phase.afterwards
      case Park =>
        if gaveUp { stuck := true; }
        enabled := false;
        Continue(at);
      case Exit =>
        if gaveUp { MarkStuck(); }
        phase := Ended;
      case Relaunch =>
        if gaveUp { MarkStuck(); }
        backoff.Reset();
        Continue(at);
    }

    method Handle(h: Happening, at: nat)
      requires Awaited(Value(), h, at)
      modifies this, backoff, registry
      ensures (Value(), registry.Value()) ==
              (Next(old(Value()), h, at).life, AfterTransitions(old(registry.Value()), name, Next(old(Value()), h, at).changes))
    {
      hide Delay, AfterFailure, AfterTransition, LoopTop, AfterStop;
      match phase
      case Fresh =>
        if h == Shutdown(true) { phase := Ended; } else { Continue(at); }
      case Parked =>
        if h == Shutdown(true) || h.Closed? {
          phase := Ended;
        } else if h.Told? && !h.command.Disable? {
          enabled, stuck := true, false;
          backoff.Reset();
          Continue(at);
        }
      case Launched(startedAt, ready) => HandleLaunched(h, at);
      case Stopping(_) => FinishStop(h.RunStuck?, at);
      case Waiting(deadline) =>
        if h == Shutdown(true) || h.Closed? {
          phase := Ended;
        } else if h.Told? {
          if h.command.Disable? { enabled := false; } else { backoff.Reset(); }
          Continue(at);
        } else if deadline <= at {
          Continue(at);
        }
    }

    method HandleLaunched(h: Happening, at: nat)
      requires Awaited(Value(), h, at) && phase.Launched?
      modifies this, backoff, registry
      ensures (Value(), registry.Value()) ==
              (Next(old(Value()), h, at).life, AfterTransitions(old(registry.Value()), name, Next(old(Value()), h, at).changes))
    {
      hide ShiftedOne, AfterFailure, AfterTransition;
      match h
      case Shutdown(flag) => if flag { phase := Stopping(Exit); }
      case Closed => phase := Stopping(Exit);
      case Told(command) =>
        if command.Restart? { phase := Stopping(Relaunch); }
        if command.Disable? { phase := Stopping(Park); }
      case Ready =>
        registry.Transition(name, Running, Some(None), false);
        phase := Launched(phase.startedAt, true);
      case Finished(error) =>
        backoff.RecordFailureAfterHealthy(at - phase.startedAt);
        registry.Transition(name, StateKind.Backoff, Some(Some(error)), false);
        var delay := backoff.NextDelay();
        DelayIsScheduled(backoff.failures);
        phase := Waiting(at + delay);
    }
  }
}
