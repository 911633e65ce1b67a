/** Whole runs of the supervisor: any number of lifecycles interleaved with the publisher. */
module SupervisorRuns {
  import opened Seqs
  import opened Input
  import opened Backoffs
  import opened Registry
  import opened Lifecycles
  import EventRuns

  /** How many runs one lifecycle has spawned, seen end, and given up on. */
  datatype Tally = Tally(spawned: nat, over: nat, detached: nat)

  /** A lifecycle, its tally, and the transitions of its last wake-up that it has still to write. */
  datatype Actor = Actor(life: Life, tally: Tally, due: seq<Change>)

  datatype Supervisor = Supervisor(world: EventRuns.World, actors: map<string, Actor>)

  /** A wake-up runs up to its first transition; each transition takes the registry lock on its own. */
  datatype Step = Wake(name: string, h: Happening, at: nat) | Write(name: string) | Publish

  predicate Possible(s: Supervisor, step: Step) {
    match step
    case Wake(name, h, at) => name in s.actors && s.actors[name].due == [] && Awaited(s.actors[name].life, h, at)
    case Write(name) => name in s.actors && s.actors[name].due != []
    case Publish => true
  }

  /** A wake-up spawns a run when it leaves the lifecycle in a launch it was not in. */
  predicate Spawns(before: Life, after: Life) { after.phase.Launched? && !before.phase.Launched? }

  function Counted(t: Tally, before: Life, h: Happening, after: Life): Tally {
    Tally(t.spawned + if Spawns(before, after) then 1 else 0,
          t.over + if h.Finished? || h.RunStopped? then 1 else 0,
          t.detached + if h.RunStuck? then 1 else 0)
  }

  function Woken(actor: Actor, h: Happening, at: nat): Actor
    requires Awaited(actor.life, h, at)
  {
    var out := Next(actor.life, h, at);
    Actor(out.life, Counted(actor.tally, actor.life, h, out.life), out.changes)
  }

  function Advance(s: Supervisor, step: Step): Supervisor
    requires Possible(s, step)
  {
    match step
    case Wake(name, h, at) => s.(actors := s.actors[name := Woken(s.actors[name], h, at)])
    case Write(name) =>
      var actor := s.actors[name];
      Supervisor(EventRuns.Step(s.world, EventRuns.Transition(name, actor.due[0])),
                 s.actors[name := actor.(due := actor.due[1..])])
    case Publish => s.(world := EventRuns.Step(s.world, EventRuns.Receive))
  }

  predicate Runs(s: Supervisor, steps: seq<Step>)
    decreases |steps|
  {
    steps == [] || (Possible(s, steps[0]) && Runs(Advance(s, steps[0]), steps[1..]))
  }

  function After(s: Supervisor, steps: seq<Step>): Supervisor
    requires Runs(s, steps)
    decreases |steps|
  {
    if steps == [] then s else After(Advance(s, steps[0]), steps[1..])
  }

  /** `start`: one row and one lifecycle per adapter, from the configured enabled flags. */
  function Row(name: string, enabled: bool): Status {
    Status(name, if enabled then Starting else Disabled, 0, 0, None)
  }

  function Rows(config: map<string, bool>): map<string, Status> {
    map n | n in config :: Row(n, config[n])
  }

  function Boot(config: map<string, bool>): Supervisor {
    Supervisor(EventRuns.Start(Rows(config)),
               map n | n in config :: Actor(Life(config[n], false, 0, 0, Fresh), Tally(0, 0, 0), []))
  }

  // ---- The accounts of one adapter ----

  /** Restarts are launches after the first, until the counters run out: the launch counter wraps at 2^64, so that
      launch and the next are not counted, and the restart counter saturates. */
  function Restarts(spawned: nat): nat {
    if spawned == 0 then 0
    else if spawned <= U64_MAX then spawned - 1
    else if spawned <= U64_MAX + 2 then U64_MAX - 1
    else U64_MAX
  }

  /** The published state agrees with where the lifecycle is. */
  predicate Agrees(life: Life, state: StateKind) {
    match life.phase
    case Fresh => state == if life.enabled then Starting else Disabled
    case Parked => state == if life.stuck then Stuck else Disabled
    case Launched(_, ready) => state == if ready then Running else Starting
    case Stopping(_) => state.Starting? || state.Running?
    case Waiting(_) => state.Backoff?
    case Ended => true
  }

  predicate ErrorFits(row: Status) {
    && (row.state.Running? ==> row.lastError.None?)
    && (row.state.Backoff? || row.state.Stuck? ==> row.lastError.Some?)
  }

  predicate FlagsFit(life: Life) {
    && (life.stuck ==> life.phase.Parked? || life.phase.Ended?)
    && (life.phase.HoldsRun() || life.phase.Waiting? ==> life.enabled)
    && (life.phase.Parked? ==> !life.enabled)
  }

  /** One adapter's books balance. */
  predicate Balanced(life: Life, t: Tally, row: Status) {
    && FlagsFit(life)
    && Agrees(life, row.state)
    && ErrorFits(row)
    && t.spawned == t.over + t.detached + (if life.phase.HoldsRun() then 1 else 0)
    && life.launches == t.spawned % (U64_MAX + 1)
    && row.restarts == Restarts(t.spawned)
    && row.leakedRuns == Min(t.detached, U32_MAX)
  }

  /** The row after a list of transitions. */
  function RowAfter(row: Status, cs: seq<Change>): Status
    decreases |cs|
  {
    if cs == [] then row else RowAfter(if Observable(row, cs[0]) then Changed(row, cs[0]) else row, cs[1..])
  }

  lemma LaunchCounts(spawned: nat)
    ensures var launches := (spawned % (U64_MAX + 1) + 1) % (U64_MAX + 1);
      && launches == (spawned + 1) % (U64_MAX + 1)
      && Restarts(spawned + 1) == if launches > 1 then Min(Restarts(spawned) + 1, U64_MAX) else Restarts(spawned)
  {
  }

  /** The loop top starts from a lifecycle that holds no run. */
  lemma LoopTopBalances(life: Life, t: Tally, row: Status, at: nat)
    requires t.spawned == t.over + t.detached
    requires life.launches == t.spawned % (U64_MAX + 1)
    requires row.restarts == Restarts(t.spawned) && ErrorFits(row)
    requires !life.enabled && life.stuck ==> t.detached > 0
    requires row.leakedRuns == Min(t.detached - (if !life.enabled && life.stuck then 1 else 0), U32_MAX)
    requires life.enabled ==> !life.stuck
    ensures var out := LoopTop(life, at);
      && Balanced(out.life, t.(spawned := t.spawned + if life.enabled then 1 else 0), RowAfter(row, out.changes))
      && (out.life.phase.Launched? <==> life.enabled)
  {
    hide Restarts;
    LaunchCounts(t.spawned);
    var c := LoopTop(life, at).changes[0];
    assert RowAfter(row, [c]) == if Observable(row, c) then Changed(row, c) else row;
  }

  /** The row after a run was given up on. */
  lemma MarkedRow(row: Status, rest: seq<Change>)
    ensures RowAfter(row, [GONE_STUCK] + rest) == RowAfter(Changed(row, GONE_STUCK), rest)
    ensures RowAfter(row, [GONE_STUCK]) == Changed(row, GONE_STUCK) && RowAfter(row, []) == row
  {
    assert ([GONE_STUCK] + rest)[1..] == rest;
    assert [GONE_STUCK][1..] == [];
  }

  lemma StopBalances(life: Life, t: Tally, row: Status, gaveUp: bool, at: nat)
    requires Balanced(life, t, row) && life.phase.Stopping?
    ensures var out := AfterStop(life, gaveUp, at);
      var t' := Counted(t, life, if gaveUp then RunStuck else RunStopped, out.life);
      Balanced(out.life, t', RowAfter(row, out.changes))
  {
    hide Restarts, LoopTop, RowAfter;
    var t' := Tally(t.spawned, t.over + if gaveUp then 0 else 1, t.detached + if gaveUp then 1 else 0);
    match life.phase.afterwards
    case Park => LoopTopBalances(life.(stuck := gaveUp, enabled := false), t', row, at);
    case Exit => MarkedRow(row, []);
    case Relaunch =>
      LoopTopBalances(life.(failures := 0), t', if gaveUp then Changed(row, GONE_STUCK) else row, at);
      var rest := LoopTop(life.(failures := 0), at).changes;
      MarkedRow(row, rest);
      assert [] + rest == rest;
  }

  /** What can happen to a launched run before it is stopped. */
  lemma LaunchedBalances(life: Life, t: Tally, row: Status, h: Happening, at: nat)
    requires Balanced(life, t, row) && Awaited(life, h, at) && life.phase.Launched?
    ensures var out := Next(life, h, at);
      Balanced(out.life, Counted(t, life, h, out.life), RowAfter(row, out.changes))
  {
    hide Restarts, AfterFailure, Delay, LoopTop, AfterStop;
    var out := Next(life, h, at);
    assert |out.changes| == 1 ==> RowAfter(row, out.changes) == Changed(row, out.changes[0]);
  }

  /** Every wake-up keeps the books. */
  lemma WakeBalances(life: Life, t: Tally, row: Status, h: Happening, at: nat)
    requires Balanced(life, t, row) && Awaited(life, h, at)
    ensures var out := Next(life, h, at);
      Balanced(out.life, Counted(t, life, h, out.life), RowAfter(row, out.changes))
  {
    hide Restarts, LoopTop, AfterStop, RowAfter;
    MarkedRow(row, []);
    match life.phase
    case Fresh => if h.Begin? { LoopTopBalances(life, t, row, at); }
    case Parked => LoopTopBalances(life.(enabled := true, stuck := false, failures := 0), t, row, at);
    case Launched(_, _) => LaunchedBalances(life, t, row, h, at);
    case Stopping(_) => StopBalances(life, t, row, h.RunStuck?, at);
    case Waiting(_) => WaitingBalances(life, t, row, h, at);
  }

  /** What can happen during backoff. */
  lemma WaitingBalances(life: Life, t: Tally, row: Status, h: Happening, at: nat)
    requires Balanced(life, t, row) && Awaited(life, h, at) && life.phase.Waiting?
    ensures var out := Next(life, h, at);
      Balanced(out.life, Counted(t, life, h, out.life), RowAfter(row, out.changes))
  {
    hide Restarts, LoopTop, AfterStop, RowAfter;
    MarkedRow(row, []);
    LoopTopBalances(life, t, row, at);
    LoopTopBalances(life.(enabled := false), t, row, at);
    LoopTopBalances(life.(failures := 0), t, row, at);
  }

  // ---- The whole supervisor ----

  /** A change that leaves the error as its state demands. */
  predicate Fitting(c: Change) {
    && (c.state.Running? ==> c.error == Some(None))
    && (c.state.Backoff? || c.state.Stuck? ==> c.error.Some? && c.error.value.Some?)
  }

  lemma {:induction false} ChangesFit(life: Life, h: Happening, at: nat)
    requires Awaited(life, h, at)
    ensures forall c | c in Next(life, h, at).changes :: Fitting(c)
  {
    hide AfterFailure, Delay;
  }

  ghost predicate Kept(actor: Actor, row: Status) {
    && Balanced(actor.life, actor.tally, RowAfter(row, actor.due))
    && ErrorFits(row) && row.restarts <= U64_MAX && row.leakedRuns <= U32_MAX
    && forall c | c in actor.due :: Fitting(c)
  }

  ghost predicate AllKept(s: Supervisor) {
    && s.actors.Keys == s.world.board.adapters.Keys
    && forall n | n in s.actors :: Kept(s.actors[n], s.world.board.adapters[n])
  }

  ghost predicate Sound(config: map<string, bool>, s: Supervisor) {
    AllKept(s) && EventRuns.Accounted(Rows(config), s.world)
  }

  lemma WakeKept(actor: Actor, row: Status, h: Happening, at: nat)
    requires Kept(actor, row) && actor.due == [] && Awaited(actor.life, h, at)
    ensures Kept(Woken(actor, h, at), row)
  {
    hide Balanced, Next, Awaited, Counted;
    ChangesFit(actor.life, h, at);
    WakeBalances(actor.life, actor.tally, row, h, at);
  }

  function Written(row: Status, c: Change): Status { if Observable(row, c) then Changed(row, c) else row }

  lemma WriteKept(actor: Actor, row: Status)
    requires Kept(actor, row) && actor.due != []
    ensures Kept(actor.(due := actor.due[1..]), Written(row, actor.due[0]))
    ensures Written(row, actor.due[0]).restarts >= row.restarts && Written(row, actor.due[0]).leakedRuns >= row.leakedRuns
  {
    hide Balanced;
    assert Fitting(actor.due[0]);
  }

  /** A transition writes one row. */
  lemma WriteRow(w: EventRuns.World, name: string, c: Change)
    requires name in w.board.adapters
    ensures EventRuns.Step(w, EventRuns.Transition(name, c)).board.adapters
            == w.board.adapters[name := Written(w.board.adapters[name], c)]
  {
    hide Changed;
  }

  lemma StepSound(config: map<string, bool>, s: Supervisor, step: Step)
    requires Sound(config, s) && Possible(s, step)
    ensures Sound(config, Advance(s, step))
  {
    hide Kept, Woken, EventRuns.Accounted, Written, EventRuns.Step;
    match step
    case Wake(name, h, at) => WakeKept(s.actors[name], s.world.board.adapters[name], h, at);
    case Write(name) =>
      var c := s.actors[name].due[0];
      WriteKept(s.actors[name], s.world.board.adapters[name]);
      WriteRow(s.world, name, c);
      EventRuns.StepAccounted(Rows(config), s.world, EventRuns.Transition(name, c));
    case Publish =>
      EventRuns.StepAccounted(Rows(config), s.world, EventRuns.Receive);
      ReceiveRows(s.world);
  }

  lemma ReceiveRows(w: EventRuns.World)
    ensures EventRuns.Step(w, EventRuns.Receive).board.adapters == w.board.adapters
  {
  }

  lemma {:induction false} RunSound(config: map<string, bool>, s: Supervisor, steps: seq<Step>)
    requires Sound(config, s) && Runs(s, steps)
    ensures Sound(config, After(s, steps))
    decreases |steps|
  {
    hide Sound, Advance;
    if steps != [] {
      StepSound(config, s, steps[0]);
      RunSound(config, Advance(s, steps[0]), steps[1..]);
    }
  }

  lemma BootSound(config: map<string, bool>)
    ensures Sound(config, Boot(config))
  {
  }

  /** At every moment of every run an adapter has at most one undetached run, shows no error while running and one
      in backoff or stuck. Whenever it has nothing left to write, which is so at each of its await points, restarts and
      leaked runs are exact and the published state agrees with the phase. */
  lemma LifecycleAccounting(config: map<string, bool>, steps: seq<Step>, n: string)
    requires Runs(Boot(config), steps) && n in config
    ensures var s := After(Boot(config), steps);
      && n in s.actors && n in s.world.board.adapters
      && var actor, row := s.actors[n], s.world.board.adapters[n];
      && var t := actor.tally;
      && 0 <= t.spawned - t.over - t.detached <= 1
      && (t.spawned - t.over - t.detached == 1 <==> actor.life.phase.HoldsRun())
      && ErrorFits(row)
      && (actor.due == [] ==>
          && row.restarts == Restarts(t.spawned)
          && row.leakedRuns == Min(t.detached, U32_MAX)
          && Agrees(actor.life, row.state))
  {
    hide Restarts, FlagsFit, ErrorFits, Agrees, EventRuns.Accounted;
    BootSound(config);
    RunSound(config, Boot(config), steps);
    RunKeepsNames(Boot(config), steps);
  }

  lemma StepKeepsNames(s: Supervisor, step: Step)
    requires Possible(s, step)
    ensures Advance(s, step).actors.Keys == s.actors.Keys
  {
    hide Woken, EventRuns.Step;
  }

  lemma {:induction false} RunKeepsNames(s: Supervisor, steps: seq<Step>)
    requires Runs(s, steps)
    ensures After(s, steps).actors.Keys == s.actors.Keys
    decreases |steps|
  {
    hide Advance;
    if steps != [] {
      StepKeepsNames(s, steps[0]);
      RunKeepsNames(Advance(s, steps[0]), steps[1..]);
    }
  }

  /** The published counts after one step. */
  lemma StepCounts(config: map<string, bool>, s: Supervisor, step: Step, n: string)
    requires Sound(config, s) && Possible(s, step) && n in s.actors
    ensures var rows, rows' := s.world.board.adapters, Advance(s, step).world.board.adapters;
      && n in rows && n in rows'
      && rows[n].leakedRuns <= rows'[n].leakedRuns && rows[n].restarts <= rows'[n].restarts
  {
    hide Kept, Woken, EventRuns.Accounted, Written, EventRuns.Step;
    match step
    case Wake(_, _, _) =>
    case Write(name) =>
      WriteKept(s.actors[name], s.world.board.adapters[name]);
      WriteRow(s.world, name, s.actors[name].due[0]);
    case Publish => ReceiveRows(s.world);
  }

  /** The published leaked-run count and restart count never fall, however the run continues. */
  lemma {:induction false} CountsNeverFall(config: map<string, bool>, s: Supervisor, steps: seq<Step>, n: string)
    requires Sound(config, s) && Runs(s, steps) && n in s.actors
    ensures var s' := After(s, steps);
      && n in s.world.board.adapters && n in s'.world.board.adapters
      && s.world.board.adapters[n].leakedRuns <= s'.world.board.adapters[n].leakedRuns
      && s.world.board.adapters[n].restarts <= s'.world.board.adapters[n].restarts
    decreases |steps|
  {
    hide Advance, Kept, EventRuns.Accounted;
    if steps != [] {
      StepSound(config, s, steps[0]);
      StepCounts(config, s, steps[0], n);
      StepKeepsNames(s, steps[0]);
      CountsNeverFall(config, Advance(s, steps[0]), steps[1..], n);
    }
  }

  // ---- Containment ----

  /** The lifecycle has neither ended nor begun to. */
  predicate Serving(life: Life) { !life.phase.Ended? && life.phase != Stopping(Exit) }

  predicate Ends(step: Step, n: string) { step.Wake? && step.name == n && (step.h == Shutdown(true) || step.h.Closed?) }

  lemma StaysServing(life: Life, h: Happening, at: nat)
    requires Awaited(life, h, at) && Serving(life) && h != Shutdown(true) && !h.Closed?
    ensures Serving(Next(life, h, at).life)
  {
    hide AfterFailure, Delay;
  }

  /** Failure is contained: whatever its runs do, a lifecycle ends only by a shutdown or a closed control channel. */
  lemma {:induction false} OnlyShutdownEnds(s: Supervisor, steps: seq<Step>, n: string)
    requires Runs(s, steps) && n in s.actors && Serving(s.actors[n].life)
    requires forall i | 0 <= i < |steps| :: !Ends(steps[i], n)
    ensures n in After(s, steps).actors && Serving(After(s, steps).actors[n].life)
    decreases |steps|
  {
    hide Next, Awaited, Counted, EventRuns.Step, Serving;
    if steps != [] {
      var step := steps[0];
      assert !Ends(step, n);
      if step.Wake? && step.name == n { StaysServing(s.actors[n].life, step.h, step.at); }
      OnlyShutdownEnds(Advance(s, step), steps[1..], n);
    }
  }
}
