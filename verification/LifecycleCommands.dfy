/** What the commands of an operator, a shutdown and a failure must lead to, over every run of the supervisor. */
module LifecycleCommands {
  import opened Seqs
  import opened Input
  import opened Backoffs
  import opened Registry
  import opened Lifecycles
  import opened SupervisorRuns
  import EventRuns

  // ---- One wake-up ----

  /** The adapter is to run: it is enabled, and not being stopped in order to park. */
  predicate Wanted(life: Life) { life.enabled && life.phase != Stopping(Park) }

  lemma CommandDecides(life: Life, h: Happening, at: nat)
    requires FlagsFit(life) && Awaited(life, h, at)
    ensures Wanted(Next(life, h, at).life) == if h.Told? then !h.command.Disable? else Wanted(life)
  {
    hide AfterFailure, Delay;
  }

  /** On a launched run, restart and disable begin to stop it; enable leaves it alone. */
  lemma CommandsToLaunched(life: Life, at: nat)
    requires FlagsFit(life) && life.phase.Launched? && life.phase.startedAt <= at
    ensures Next(life, Told(Restart), at).life.phase == Stopping(Relaunch)
    ensures Next(life, Told(Disable), at).life.phase == Stopping(Park)
    ensures Next(life, Told(Enable), at) == Outcome(life, []) == Next(life, Shutdown(false), at)
  {
  }

  /** While it waits or is parked, restart and enable launch it at once; disable parks it. */
  lemma CommandsToIdle(life: Life, c: Command, at: nat)
    requires FlagsFit(life) && (life.phase.Waiting? || life.phase.Parked?)
    ensures var after := Next(life, Told(c), at).life;
      if c.Disable? then after.phase == Parked && !after.enabled else after.phase == Launched(at, false)
  {
  }

  /** The end of a stopped run: launched again if the adapter is wanted, parked if not, ended if it is leaving. */
  lemma StopEnds(life: Life, gaveUp: bool, at: nat)
    requires FlagsFit(life) && life.phase.Stopping?
    ensures var after := Next(life, if gaveUp then RunStuck else RunStopped, at).life;
      if life.phase.afterwards.Exit? then after.phase == Ended
      else if Wanted(life) then after.phase == Launched(at, false)
      else after.phase == Parked && !after.enabled && after.stuck == gaveUp
  {
  }

  /** A failed run waits one second after five healthy minutes, and otherwise the next step of the schedule. */
  lemma FailureWaits(life: Life, error: string, at: nat)
    requires life.phase.Launched? && life.phase.startedAt <= at
    ensures var after := Next(life, Finished(error), at).life;
      if at - life.phase.startedAt >= 300 * SECOND then after.failures == 1 && after.phase == Waiting(at + SECOND)
      else
        && after.failures == Min(life.failures + 1, U32_MAX)
        && after.phase == Waiting(at + SECOND * SCHEDULE[Min(life.failures + 1, 7)])
  {
    hide Delay;
    DelayIsScheduled(AfterFailure(life.failures, at - life.phase.startedAt));
  }

  /** An enabled adapter whose wait is over is launched. */
  lemma WaitEnds(life: Life, at: nat)
    requires FlagsFit(life) && life.phase.Waiting? && life.phase.deadline <= at
    ensures Next(life, Due, at).life.phase == Launched(at, false)
  {
  }

  /** A shutdown signal that is not one only makes it look at the clock. */
  lemma FalseAlarm(life: Life, at: nat)
    requires FlagsFit(life) && life.phase.Waiting?
    ensures var out := Next(life, Shutdown(false), at);
      if life.phase.deadline <= at then out.life.phase == Launched(at, false) else out == Outcome(life, [])
  {
  }

  // ---- Runs ----

  lemma {:induction false} AfterLast(s: Supervisor, steps: seq<Step>)
    requires steps != []
    ensures var front, last := steps[..|steps| - 1], steps[|steps| - 1];
      && (Runs(s, steps) <==> Runs(s, front) && Possible(After(s, front), last))
      && (Runs(s, steps) ==> After(s, steps) == Advance(After(s, front), last))
    decreases |steps|
  {
    hide Advance;
    var front := steps[..|steps| - 1];
    if |steps| == 1 {
      assert steps[1..] == [] && front == [];
      assert Possible(s, steps[0]) ==> Runs(Advance(s, steps[0]), []);
    } else if Possible(s, steps[0]) {
      var rest := steps[1..];
      AfterLast(Advance(s, steps[0]), rest);
      assert front[1..] == rest[..|rest| - 1] && front[0] == steps[0] && rest[|rest| - 1] == steps[|steps| - 1];
    }
  }

  /** The last command the adapter heard, or its configured flag. */
  function LastOrder(config: map<string, bool>, steps: seq<Step>, n: string): bool
    requires n in config
  {
    if steps == [] then config[n]
    else
      var last := steps[|steps| - 1];
      if last.Wake? && last.name == n && last.h.Told? then !last.h.command.Disable?
      else LastOrder(config, steps[..|steps| - 1], n)
  }

  lemma ReachableActor(config: map<string, bool>, steps: seq<Step>, n: string)
    requires Runs(Boot(config), steps) && n in config
    ensures var s := After(Boot(config), steps);
      && n in s.actors && n in s.world.board.adapters && FlagsFit(s.actors[n].life)
      && Kept(s.actors[n], s.world.board.adapters[n])
  {
    hide EventRuns.Accounted, Runs, After;
    BootSound(config);
    RunSound(config, Boot(config), steps);
    RunKeepsNames(Boot(config), steps);
  }

  /** Orders are obeyed: after any run an adapter is to run iff the last command it heard was to enable or restart it,
      or it heard none and was configured so. */
  lemma {:induction false} WantedIsLastOrder(config: map<string, bool>, steps: seq<Step>, n: string)
    requires Runs(Boot(config), steps) && n in config
    ensures n in After(Boot(config), steps).actors
    ensures Wanted(After(Boot(config), steps).actors[n].life) == LastOrder(config, steps, n)
    decreases |steps|
  {
    if steps != [] {
      hide Next, Awaited, Runs, After, Counted, EventRuns.Step, Kept;
      var front, last := steps[..|steps| - 1], steps[|steps| - 1];
      AfterLast(Boot(config), steps);
      WantedIsLastOrder(config, front, n);
      ReachableActor(config, front, n);
      if last.Wake? && last.name == n { CommandDecides(After(Boot(config), front).actors[n].life, last.h, last.at); }
    }
  }

  /** What the last order demands of an adapter that is not on its way out: a launched, waiting or relaunching adapter
      was ordered to run; a parked or parking one was ordered not to. */
  lemma PhaseObeysLastOrder(config: map<string, bool>, steps: seq<Step>, n: string)
    requires Runs(Boot(config), steps) && n in config
    ensures n in After(Boot(config), steps).actors
    ensures var life := After(Boot(config), steps).actors[n].life;
      && (life.phase.Launched? || life.phase.Waiting? || life.phase == Stopping(Relaunch) ==> LastOrder(config, steps, n))
      && (life.phase.Parked? || life.phase == Stopping(Park) ==> !LastOrder(config, steps, n))
      && (life.phase.Parked? ==> !life.enabled)
  {
    hide Runs, After, Kept;
    WantedIsLastOrder(config, steps, n);
    ReachableActor(config, steps, n);
  }

  /** No launch against orders: a step that launches an adapter comes when the last command, itself included, is not to
      disable it. */
  lemma LaunchesAreOrdered(config: map<string, bool>, steps: seq<Step>, step: Step, n: string)
    requires Runs(Boot(config), steps + [step]) && n in config
    requires Runs(Boot(config), steps) && Possible(After(Boot(config), steps), step)
    requires n in After(Boot(config), steps).actors
    requires Advance(After(Boot(config), steps), step).actors[n].tally.spawned > After(Boot(config), steps).actors[n].tally.spawned
    ensures step.Wake? && step.name == n && LastOrder(config, steps + [step], n)
    ensures Advance(After(Boot(config), steps), step).actors[n].life.phase == Launched(step.at, false)
  {
    var s, all := After(Boot(config), steps), steps + [step];
    assert all[..|all| - 1] == steps && all[|all| - 1] == step;
    AfterLast(Boot(config), all);
    hide Runs, After, EventRuns.Step, Kept, LastOrder;
    assert step.Wake? && step.name == n;
    SpawnsLaunch(s.actors[n].life, step.h, step.at);
    PhaseObeysLastOrder(config, all, n);
  }

  lemma SpawnsLaunch(life: Life, h: Happening, at: nat)
    requires Awaited(life, h, at) && Spawns(life, Next(life, h, at).life)
    ensures Next(life, h, at).life.phase == Launched(at, false)
  {
    hide AfterFailure, Delay;
  }

  /** No step of another adapter or of the publisher, and no write, concerns a lifecycle. */
  lemma {:induction false} OthersLeaveLife(s: Supervisor, steps: seq<Step>, n: string)
    requires Runs(s, steps) && n in s.actors && forall i | 0 <= i < |steps| :: !(steps[i].Wake? && steps[i].name == n)
    ensures n in After(s, steps).actors
    ensures After(s, steps).actors[n].life == s.actors[n].life && After(s, steps).actors[n].tally == s.actors[n].tally
    decreases |steps|
  {
    hide Woken, EventRuns.Step;
    if steps != [] {
      assert !(steps[0].Wake? && steps[0].name == n);
      OthersLeaveLife(Advance(s, steps[0]), steps[1..], n);
    }
  }

  /** A restart relaunches and a disable parks: after the command to a launched run, whatever else happens, the adapter's
      next wake-up is the end of that run, and it launches the adapter again or parks it. */
  lemma CommandIsCarriedOut(config: map<string, bool>, s: Supervisor, n: string, c: Command, at: nat, others: seq<Step>, next: Step)
    requires Sound(config, s) && n in s.actors && s.actors[n].life.phase.Launched? && !c.Enable?
    requires Possible(s, Wake(n, Told(c), at)) && Runs(Advance(s, Wake(n, Told(c), at)), others)
    requires forall i | 0 <= i < |others| :: !(others[i].Wake? && others[i].name == n)
    requires next.Wake? && next.name == n && Possible(After(Advance(s, Wake(n, Told(c), at)), others), next)
    ensures var after := Advance(After(Advance(s, Wake(n, Told(c), at)), others), next).actors[n].life;
      && (next.h == RunStopped || next.h == RunStuck)
      && if c.Restart? then after.phase == Launched(next.at, false) else after.phase == Parked && !after.enabled
  {
    hide Runs, After, EventRuns.Step, EventRuns.Accounted, RowAfter, Agrees, ErrorFits, Restarts;
    var s' := Advance(s, Wake(n, Told(c), at));
    CommandsToLaunched(s.actors[n].life, at);
    FlagsAfter(s.actors[n].life, Told(c), at);
    OthersLeaveLife(s', others, n);
    StopEnds(s'.actors[n].life, next.h == RunStuck, next.at);
  }

  lemma FlagsAfter(life: Life, h: Happening, at: nat)
    requires FlagsFit(life) && Awaited(life, h, at)
    ensures FlagsFit(Next(life, h, at).life)
  {
    hide AfterFailure, Delay;
  }

  // ---- Shutdown ----

  /** The lifecycle has ended, or is stopping its run in order to end. */
  predicate Leaving(life: Life) { life.phase.Ended? || life.phase == Stopping(Exit) }

  lemma ShutdownLeaves(life: Life, h: Happening, at: nat)
    requires Awaited(life, h, at) && (h == Shutdown(true) || h.Closed?)
    ensures Leaving(Next(life, h, at).life) && (Next(life, h, at).life.phase.Ended? <==> !life.phase.Launched?)
  {
  }

  lemma LeavingStays(life: Life, h: Happening, at: nat)
    requires Awaited(life, h, at) && Leaving(life)
    ensures Next(life, h, at).life.phase == Ended
  {
  }

  /** A shutdown is final: from then on, whatever happens, the adapter is never launched again, and its first wake-up
      ends it. */
  lemma {:induction false} ShutdownIsFinal(s: Supervisor, steps: seq<Step>, n: string)
    requires Runs(s, steps) && n in s.actors && Leaving(s.actors[n].life)
    ensures n in After(s, steps).actors
    ensures var before, after := s.actors[n], After(s, steps).actors[n];
      && Leaving(after.life) && after.tally.spawned == before.tally.spawned
      && ((exists i | 0 <= i < |steps| :: steps[i].Wake? && steps[i].name == n) ==> after.life.phase == Ended)
      && (before.life.phase == Ended ==> after.life.phase == Ended)
    decreases |steps|
  {
    hide Next, Awaited, EventRuns.Step;
    if steps != [] {
      var step := steps[0];
      if step.Wake? && step.name == n { LeavingStays(s.actors[n].life, step.h, step.at); }
      ShutdownIsFinal(Advance(s, step), steps[1..], n);
      forall i | 0 <= i < |steps| && steps[i].Wake? && steps[i].name == n ensures After(s, steps).actors[n].life.phase == Ended {
        if i > 0 { assert steps[1..][i - 1] == steps[i]; }
      }
    }
  }

  // ---- The error that is shown ----

  /** What the last failure, stuck run or healthy start left to be shown. */
  function LastTrouble(steps: seq<Step>, n: string): Option<string> {
    if steps == [] then None
    else
      var last := steps[|steps| - 1];
      if last.Wake? && last.name == n && last.h.Finished? then Some(last.h.error)
      else if last.Wake? && last.name == n && last.h.RunStuck? then Some(STUCK_ERROR)
      else if last.Wake? && last.name == n && last.h.Ready? then None
      else LastTrouble(steps[..|steps| - 1], n)
  }

  lemma RowOfOne(row: Status, c: Change)
    ensures RowAfter(row, [c]) == Written(row, c) && RowAfter(row, []) == row
  {
    assert [c][1..] == [];
  }

  lemma RowOfTwo(row: Status, c: Change, d: Change)
    ensures RowAfter(row, [c] + [d]) == Written(Written(row, c), d)
  {
    assert ([c] + [d])[1..] == [d];
    RowOfOne(Written(row, c), d);
  }

  lemma TopTrouble(life: Life, row: Status, at: nat)
    ensures RowAfter(row, LoopTop(life, at).changes).lastError == if !life.enabled && life.stuck then Some(STUCK_ERROR) else row.lastError
  {
    hide RowAfter;
    RowOfOne(row, LoopTop(life, at).changes[0]);
    assert LoopTop(life, at).changes == [LoopTop(life, at).changes[0]];
  }

  lemma StopTrouble(life: Life, row: Status, gaveUp: bool, at: nat)
    requires FlagsFit(life) && life.phase.Stopping?
    ensures RowAfter(row, AfterStop(life, gaveUp, at).changes).lastError == if gaveUp then Some(STUCK_ERROR) else row.lastError
  {
    hide RowAfter;
    RowOfOne(row, GONE_STUCK);
    match life.phase.afterwards
    case Park => TopTrouble(life.(stuck := life.stuck || gaveUp, enabled := false), row, at);
    case Exit =>
    case Relaunch =>
      TopTrouble(life.(failures := 0), row, at);
      var top := LoopTop(life.(failures := 0), at).changes;
      assert top == [top[0]] && [] + top == top;
      RowOfTwo(row, GONE_STUCK, top[0]);
      RowOfOne(Written(row, GONE_STUCK), top[0]);
      RowOfOne(row, top[0]);
  }

  lemma WakeTrouble(life: Life, row: Status, h: Happening, at: nat)
    requires FlagsFit(life) && Awaited(life, h, at)
    ensures RowAfter(row, Next(life, h, at).changes).lastError ==
      if h.Finished? then Some(h.error) else if h.RunStuck? then Some(STUCK_ERROR) else if h.Ready? then None else row.lastError
  {
    hide RowAfter, AfterFailure, Delay, LoopTop, AfterStop;
    RowOfOne(row, Change(Running, Some(None), false));
    if h.Finished? { RowOfOne(row, Change(StateKind.Backoff, Some(Some(h.error)), false)); }
    TopTrouble(life, row, at);
    TopTrouble(life.(failures := 0), row, at);
    TopTrouble(life.(enabled := false), row, at);
    TopTrouble(life.(enabled := true, stuck := false, failures := 0), row, at);
    if life.phase.Stopping? { StopTrouble(life, row, h.RunStuck?, at); }
  }

  /** The error an adapter shows, once it has written its transitions, is that of its last failed run, or that its last
      run is stuck, and none once a later run has come up. */
  lemma {:induction false} ShownErrorIsLast(config: map<string, bool>, steps: seq<Step>, n: string)
    requires Runs(Boot(config), steps) && n in config
    ensures var s := After(Boot(config), steps);
      && n in s.actors && n in s.world.board.adapters
      && RowAfter(s.world.board.adapters[n], s.actors[n].due).lastError == LastTrouble(steps, n)
    decreases |steps|
  {
    if steps == [] {
    } else {
      hide Next, Awaited, Runs, After, Counted, EventRuns.Step, Kept, Written;
      var front, last := steps[..|steps| - 1], steps[|steps| - 1];
      AfterLast(Boot(config), steps);
      ShownErrorIsLast(config, front, n);
      ReachableActor(config, front, n);
      ReachableActor(config, steps, n);
      var s := After(Boot(config), front);
      match last
      case Wake(name, h, at) =>
        if name == n {
          WakeTrouble(s.actors[n].life, s.world.board.adapters[n], h, at);
        }
      case Write(name) =>
        ReachableActor(config, front, name) by { NamesAreConfigured(config, front, name); }
        WriteRow(s.world, name, s.actors[name].due[0]);
        RowAfterWrite(s.world.board.adapters[name], s.actors[name].due);
      case Publish => ReceiveRows(s.world);
    }
  }

  lemma NamesAreConfigured(config: map<string, bool>, steps: seq<Step>, name: string)
    requires Runs(Boot(config), steps) && name in After(Boot(config), steps).actors
    ensures name in config
  {
    hide Runs, After;
    RunKeepsNames(Boot(config), steps);
  }

  lemma RowAfterWrite(row: Status, cs: seq<Change>)
    requires cs != []
    ensures RowAfter(row, cs) == RowAfter(Written(row, cs[0]), cs[1..])
  {
  }
}
