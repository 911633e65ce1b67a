/** Where the supervisor's 64-bit counters run out: the exact conditions, and runs that get there. */
module SupervisorLimits {
  import opened Seqs
  import opened Input
  import opened Backoffs
  import opened Registry
  import opened Lifecycles
  import opened SupervisorRuns
  import EventRuns

  // ---- A run with any number of launches ----

  lemma {:induction false} RunsConcat(s: Supervisor, a: seq<Step>, b: seq<Step>)
    requires Runs(s, a) && Runs(After(s, a), b)
    ensures Runs(s, a + b) && After(s, a + b) == After(After(s, a), b)
    decreases |a|
  {
    hide Advance, Possible;
    if a == [] {
      assert a + b == b;
    } else {
      assert (a + b)[1..] == a[1..] + b;
      RunsConcat(Advance(s, a[0]), a[1..], b);
    }
  }

  lemma RunsPair(s: Supervisor, a: Step, b: Step)
    requires Possible(s, a) && Possible(Advance(s, a), b)
    ensures Runs(s, [a, b]) && After(s, [a, b]) == Advance(Advance(s, a), b)
  {
    hide Advance, Possible;
    assert [a, b][1..] == [b] && [b][1..] == [];
    var s' := Advance(s, a);
    assert Runs(Advance(s', b), []) && After(Advance(s', b), []) == Advance(s', b);
    assert Runs(s', [b]) && After(s', [b]) == Advance(s', b);
  }

  /** The adapter is launched, and has `launches` launches and nothing to write. */
  ghost predicate Up(s: Supervisor, n: string, launches: nat) {
    && n in s.actors && n in s.world.board.adapters
    && var actor := s.actors[n];
    && actor.due == [] && actor.life.enabled && actor.life.phase.Launched? && actor.tally.spawned == launches
  }

  /** The adapter waits out its backoff, and has nothing to write. */
  ghost predicate Down(s: Supervisor, n: string, launches: nat) {
    && n in s.actors && n in s.world.board.adapters
    && var actor := s.actors[n];
    && actor.due == [] && actor.life.enabled && actor.life.phase.Waiting? && actor.tally.spawned == launches
  }

  /** The run fails at once; the failure is stamped. */
  lemma Fails(s: Supervisor, n: string, launches: nat) returns (steps: seq<Step>)
    requires Up(s, n, launches)
    ensures Runs(s, steps) && Down(After(s, steps), n, launches)
    ensures |After(s, steps).world.log| == |s.world.log| + 1
  {
    hide AfterFailure, Delay;
    var wake := Wake(n, Finished(""), s.actors[n].life.phase.startedAt);
    steps := [wake, Write(n)];
    RunsPair(s, wake, Write(n));
  }

  /** The schedule expires and the adapter is launched again. */
  lemma Relaunches(s: Supervisor, n: string, launches: nat) returns (steps: seq<Step>)
    requires Down(s, n, launches)
    ensures Runs(s, steps) && Up(After(s, steps), n, launches + 1)
    ensures |After(s, steps).world.log| >= |s.world.log|
  {
    var wake := Wake(n, Due, s.actors[n].life.phase.deadline);
    steps := [wake, Write(n)];
    RunsPair(s, wake, Write(n));
  }

  lemma Launches(config: map<string, bool>, n: string) returns (steps: seq<Step>)
    requires n in config && config[n]
    ensures Runs(Boot(config), steps) && Up(After(Boot(config), steps), n, 1)
  {
    var wake := Wake(n, Begin, 0);
    steps := [wake, Write(n)];
    RunsPair(Boot(config), wake, Write(n));
  }

  /** An enabled adapter can be launched any number of times, stamping an event for each failure in between. */
  lemma {:induction false} AnyNumberOfLaunches(config: map<string, bool>, n: string, k: nat) returns (steps: seq<Step>)
    requires n in config && config[n] && k >= 1
    ensures Runs(Boot(config), steps) && Up(After(Boot(config), steps), n, k)
    ensures |After(Boot(config), steps).world.log| >= k - 1
    decreases k
  {
    hide Runs, After, Up, Down;
    if k == 1 {
      steps := Launches(config, n);
    } else {
      var before := AnyNumberOfLaunches(config, n, k - 1);
      var s := After(Boot(config), before);
      var failing := Fails(s, n, k - 1);
      var launching := Relaunches(After(s, failing), n, k - 1);
      RunsConcat(s, failing, launching);
      RunsConcat(Boot(config), before, failing + launching);
      steps := before + (failing + launching);
    }
  }

  // ---- Restarts ----

  /** The documented meaning: launches after the first one. */
  function AfterFirst(launches: nat): nat { if launches == 0 then 0 else launches - 1 }

  /** At every await point of every run, `restarts` counts the launches after the first one iff fewer than 2^64
      launches were made. */
  lemma RestartsExactly(config: map<string, bool>, steps: seq<Step>, n: string)
    requires Runs(Boot(config), steps) && n in config
    ensures var s := After(Boot(config), steps);
      && n in s.actors && n in s.world.board.adapters
      && (s.actors[n].due == [] ==>
          (s.world.board.adapters[n].restarts == AfterFirst(s.actors[n].tally.spawned)
           <==> s.actors[n].tally.spawned <= U64_MAX))
  {
    hide Runs, After, ErrorFits, Agrees;
    LifecycleAccounting(config, steps, n);
  }

  /** A run of 2^64 launches, after which one restart is missing. */
  lemma RestartsFallShort(config: map<string, bool>, n: string) returns (steps: seq<Step>)
    requires n in config && config[n]
    ensures Runs(Boot(config), steps)
    ensures var s := After(Boot(config), steps);
      && n in s.actors && n in s.world.board.adapters && s.actors[n].due == []
      && s.actors[n].tally.spawned == U64_MAX + 1
      && s.world.board.adapters[n].restarts == U64_MAX - 1 < AfterFirst(s.actors[n].tally.spawned)
  {
    hide Runs, After, ErrorFits, Agrees;
    steps := AnyNumberOfLaunches(config, n, U64_MAX + 1);
    LifecycleAccounting(config, steps, n);
  }

  // ---- Event numbers ----

  /** In every run of the supervisor, event numbers are unique iff no more than 2^64 - 1 events were stamped. */
  lemma EventNumbersExactly(config: map<string, bool>, steps: seq<Step>)
    requires Runs(Boot(config), steps)
    ensures var log := After(Boot(config), steps).world.log;
      EventRuns.UniqueStamps(log) <==> |log| <= U64_MAX
  {
    hide Runs, After, AllKept, EventRuns.Accounted, EventRuns.UniqueStamps;
    BootSound(config);
    RunSound(config, Boot(config), steps);
    EventRuns.UniqueUntilSaturation(Rows(config), After(Boot(config), steps).world);
  }

  /** A run in which two events carry the same number. */
  lemma EventNumbersRepeat(config: map<string, bool>, n: string) returns (steps: seq<Step>)
    requires n in config && config[n]
    ensures Runs(Boot(config), steps)
    ensures var log := After(Boot(config), steps).world.log;
      exists i, j | 0 <= i < j < |log| :: log[i].event.seqNo == log[j].event.seqNo
  {
    hide Runs, After, Up;
    steps := AnyNumberOfLaunches(config, n, U64_MAX + 2);
    EventNumbersExactly(config, steps);
  }
}
