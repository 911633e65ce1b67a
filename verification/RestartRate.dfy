/** How fast an adapter left to itself can restart, however its runs fail. */
module RestartRate {
  import opened Seqs
  import opened Backoffs
  import opened Lifecycles

  datatype Timed = Timed(h: Happening, at: nat)

  /** No command, and no shutdown. */
  predicate Unattended(h: Happening) { h.Ready? || h.Finished? || h.Due? || h == Shutdown(false) }

  predicate Plays(life: Life, now: nat, ts: seq<Timed>)
    decreases |ts|
  {
    ts == [] || (
      && now <= ts[0].at && Unattended(ts[0].h) && Awaited(life, ts[0].h, ts[0].at)
      && Plays(Next(life, ts[0].h, ts[0].at).life, ts[0].at, ts[1..]))
  }

  function Played(life: Life, now: nat, ts: seq<Timed>): Life
    requires Plays(life, now, ts)
    decreases |ts|
  {
    if ts == [] then life else Played(Next(life, ts[0].h, ts[0].at).life, ts[0].at, ts[1..])
  }

  function Failures(ts: seq<Timed>): nat
    decreases |ts|
  {
    if ts == [] then 0 else (if ts[0].h.Finished? then 1 else 0) + Failures(ts[1..])
  }

  /** Seconds that `n` failures must have cost when the counter stands at `f`. */
  function Cost(n: nat, f: nat): nat
    requires f <= n
  {
    60 * (n - f) + Waited(f)
  }

  lemma CostOfFailure(n: nat, f: nat, healthy: nat)
    requires f <= n && f <= U32_MAX
    ensures var f' := AfterFailure(f, healthy);
      && f' <= n + 1
      && Cost(n + 1, f') <= Cost(n, f) + SCHEDULE[Min(f', 7)] + if healthy >= HEALTHY_RESET_AFTER then 300 else 0
  {
    Shortfall(f);
    assert Waited(1) == 1;
    if healthy < HEALTHY_RESET_AFTER && f < U32_MAX {
      assert Waited(f + 1) == Waited(f) + SCHEDULE[Min(f + 1, 7)];
    }
  }

  /** The launch or the next launch's deadline lies at least `Cost` seconds after `t0`. */
  predicate Paid(life: Life, t0: nat, n: nat) {
    && life.enabled && life.failures <= n && life.failures <= U32_MAX
    && match life.phase
       case Launched(at, _) => at >= t0 + SECOND * Cost(n, life.failures)
       case Waiting(deadline) => deadline >= t0 + SECOND * Cost(n, life.failures)
       case _ => false
  }

  lemma StepPaid(life: Life, t0: nat, n: nat, h: Happening, at: nat)
    requires Paid(life, t0, n) && Unattended(h) && Awaited(life, h, at)
    ensures Paid(Next(life, h, at).life, t0, n + if h.Finished? then 1 else 0)
  {
    hide Cost, Delay, AfterFailure;
    if h.Finished? {
      var f' := AfterFailure(life.failures, at - life.phase.startedAt);
      CostOfFailure(n, life.failures, at - life.phase.startedAt);
      DelayIsScheduled(f');
      AfterFailureFits(life.failures, at - life.phase.startedAt);
    }
  }

  lemma AfterFailureFits(f: nat, healthy: nat)
    ensures 1 <= AfterFailure(f, healthy) <= U32_MAX
  {
  }

  lemma {:induction false} RunPaid(life: Life, now: nat, t0: nat, n: nat, ts: seq<Timed>)
    requires Paid(life, t0, n) && Plays(life, now, ts)
    ensures Paid(Played(life, now, ts), t0, n + Failures(ts))
    decreases |ts|
  {
    hide Paid, Next;
    if ts != [] {
      StepPaid(life, t0, n, ts[0].h, ts[0].at);
      RunPaid(Next(life, ts[0].h, ts[0].at).life, ts[0].at, t0, n + (if ts[0].h.Finished? then 1 else 0), ts[1..]);
    }
  }

  /** A lifecycle that was just launched for the first time. */
  function FirstLaunch(t0: nat): Life { LoopTop(Life(true, false, 0, 0, Fresh), t0).life }

  /** The launch after the `n`-th failure comes at least `60 n - 297` seconds after the first launch, so healthy runs,
      which reset the schedule, never raise the long-run restart rate. */
  lemma AmortisedRestarts(t0: nat, ts: seq<Timed>)
    requires Plays(FirstLaunch(t0), t0, ts)
    requires Played(FirstLaunch(t0), t0, ts).phase.Launched?
    ensures Played(FirstLaunch(t0), t0, ts).phase.startedAt - t0 >= SECOND * (60 * Failures(ts) - 297)
  {
    RunPaid(FirstLaunch(t0), t0, t0, 0, ts);
    var life := Played(FirstLaunch(t0), t0, ts);
    Shortfall(life.failures);
    ScaledAtLeast(life.phase.startedAt - t0, Cost(Failures(ts), life.failures), 60 * Failures(ts) - 297);
  }

  lemma ScaledAtLeast(elapsed: int, a: int, b: int)
    requires elapsed >= SECOND * a && a >= b
    ensures elapsed >= SECOND * b
  {
  }

  // ---- The bound is met ----

  /** The wait after the failure that follows `k` others. */
  function Gap(k: nat): nat { SECOND * SCHEDULE[Min(k + 1, 7)] }

  /** Runs that fail at once, relaunched as soon as the schedule allows. */
  function CrashLoop(t: nat, k: nat, n: nat): seq<Timed>
    decreases n
  {
    if n == 0 then []
    else
      var next := t + Gap(k);
      [Timed(Finished(""), t)] + ([Timed(Due, next)] + CrashLoop(next, k + 1, n - 1))
  }

  lemma CrashOnce(life: Life, k: nat)
    requires life.enabled && life.phase.Launched? && life.failures == Min(k, U32_MAX)
    ensures var t := life.phase.startedAt;
      var next := t + Gap(k);
      && Awaited(life, Finished(""), t)
      && var waiting := Next(life, Finished(""), t).life;
      && Awaited(waiting, Due, next)
      && var life' := Next(waiting, Due, next).life;
      && life'.enabled && life'.failures == Min(k + 1, U32_MAX) && life'.phase == Launched(next, false)
  {
    hide Delay;
    DelayIsScheduled(Min(k + 1, U32_MAX));
  }

  lemma PlaysCons(life: Life, now: nat, t: Timed, rest: seq<Timed>)
    requires now <= t.at && Unattended(t.h) && Awaited(life, t.h, t.at) && Plays(Next(life, t.h, t.at).life, t.at, rest)
    ensures Plays(life, now, [t] + rest)
    ensures Played(life, now, [t] + rest) == Played(Next(life, t.h, t.at).life, t.at, rest)
    ensures Failures([t] + rest) == Failures(rest) + if t.h.Finished? then 1 else 0
  {
    hide Next, Awaited;
    assert ([t] + rest)[1..] == rest;
  }

  /** What `n` failures in a row cost after `k` others. */
  function Elapsed(k: nat, n: nat): int { SECOND * (Waited(k + n) - Waited(k)) }

  lemma ElapsedOnce(k: nat, n: nat)
    ensures Elapsed(k, 0) == 0
    ensures n > 0 ==> Gap(k) + Elapsed(k + 1, n - 1) == Elapsed(k, n)
  {
    assert Waited(k + 1) == Waited(k) + SCHEDULE[Min(k + 1, 7)];
    assert n > 0 ==> k + 1 + (n - 1) == k + n;
  }

  lemma ElapsedFromStart(n: nat)
    requires n >= 6
    ensures Elapsed(0, n) == SECOND * (60 * n - 297)
  {
    Shortfall(n);
    assert Waited(0) == 0;
  }

  /** A launched lifecycle with `k` failures behind it. */
  predicate Crashing(life: Life, k: nat) { life.enabled && life.phase.Launched? && life.failures == Min(k, U32_MAX) }

  /** `ts` plays from `t` to a launch at `at`, with `n` failures. */
  predicate Reaches(life: Life, t: nat, ts: seq<Timed>, n: nat, at: int) {
    && Failures(ts) == n && Plays(life, t, ts)
    && Played(life, t, ts).phase.Launched? && Played(life, t, ts).phase.startedAt == at
  }

  /** The lifecycle after one crash and its wait. */
  function Relaunched(life: Life, k: nat): Life
    requires Crashing(life, k)
  {
    CrashOnce(life, k);
    Next(Next(life, Finished(""), life.phase.startedAt).life, Due, life.phase.startedAt + Gap(k)).life
  }

  lemma CrashFirst(life: Life, k: nat, rest: seq<Timed>, n: nat, at: int)
    requires Crashing(life, k) && Reaches(Relaunched(life, k), life.phase.startedAt + Gap(k), rest, n, at)
    ensures var t := life.phase.startedAt;
      Reaches(life, t, [Timed(Finished(""), t)] + ([Timed(Due, t + Gap(k))] + rest), n + 1, at)
  {
    hide Next, Awaited, Plays, Played, Failures, Gap;
    CrashOnce(life, k);
    var t := life.phase.startedAt;
    PlaysCons(Next(life, Finished(""), t).life, t, Timed(Due, t + Gap(k)), rest);
    PlaysCons(life, t, Timed(Finished(""), t), [Timed(Due, t + Gap(k))] + rest);
  }

  lemma RelaunchedIsCrashing(life: Life, k: nat)
    requires Crashing(life, k)
    ensures Crashing(Relaunched(life, k), k + 1) && Relaunched(life, k).phase.startedAt == life.phase.startedAt + Gap(k)
  {
    hide Next, Awaited, Gap;
    CrashOnce(life, k);
  }

  lemma {:induction false} CrashLoopRuns(life: Life, k: nat, n: nat)
    requires Crashing(life, k)
    ensures var t := life.phase.startedAt; Reaches(life, t, CrashLoop(t, k, n), n, t + Elapsed(k, n))
    decreases n
  {
    hide Elapsed, Gap;
    ElapsedOnce(k, n);
    var t := life.phase.startedAt;
    if n > 0 {
      hide Relaunched, Reaches;
      RelaunchedIsCrashing(life, k);
      CrashLoopRuns(Relaunched(life, k), k + 1, n - 1);
      CrashFirst(life, k, CrashLoop(t + Gap(k), k + 1, n - 1), n - 1, t + Elapsed(k, n));
    }
  }

  /** From six failures on the bound is attained. */
  lemma BoundIsTight(t0: nat, n: nat)
    requires n >= 6
    ensures exists ts ::
              && Plays(FirstLaunch(t0), t0, ts) && Failures(ts) == n
              && Played(FirstLaunch(t0), t0, ts).phase.Launched?
              && Played(FirstLaunch(t0), t0, ts).phase.startedAt - t0 == SECOND * (60 * n - 297)
  {
    hide Elapsed, CrashLoop, Plays, Played, Failures;
    CrashLoopRuns(FirstLaunch(t0), 0, n);
    ElapsedFromStart(n);
    var ts := CrashLoop(t0, 0, n);
    assert Plays(FirstLaunch(t0), t0, ts);
  }

  // ---- Commands ----

  /** A relaunch by command is immediate and starts the schedule over: however the new run fails, the wait is one
      second. */
  lemma CommandedRelaunchStartsOver(life: Life, h: Happening, at: nat, failedAt: nat, error: string)
    requires Awaited(life, h, at) && failedAt >= at
    requires || (life.phase.Parked? && (h == Told(Restart) || h == Told(Enable)))
             || (life.phase.Waiting? && life.enabled && (h == Told(Restart) || h == Told(Enable)))
             || (life.phase == Stopping(Relaunch) && life.enabled)
    ensures var relaunched := Next(life, h, at).life;
      && relaunched.phase == Launched(at, false)
      && Next(relaunched, Finished(error), failedAt).life.phase == Waiting(failedAt + SECOND)
  {
    hide Delay;
    DelayIsScheduled(1);
  }
}
