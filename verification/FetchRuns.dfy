/** Whole runs of the fetch protocol: admission bounds, conservation of owners, and draining. */
module FetchRuns {
  import opened Seqs
  import opened Totals
  import opened Fetch
  import opened FetchSafety

  ghost predicate Follows(cfg: Config, s: System, steps: seq<Step>)
    decreases |steps|
  {
    steps == [] || (Enabled(s, steps[0]) && Follows(cfg, Apply(cfg, s, steps[0]), steps[1..]))
  }

  ghost function After(cfg: Config, s: System, steps: seq<Step>): System
    requires Follows(cfg, s, steps)
    decreases |steps|
  {
    if steps == [] then s else After(cfg, Apply(cfg, s, steps[0]), steps[1..])
  }

  // ---- Admission ----

  /** A non-queued entry's carrier owns a permit. */
  lemma NonQueuedOwnsPermit(cfg: Config, s: System, id: nat)
    requires Safe(cfg, s) && Live(s, id) && !s.table.entries[s.tasks[id].hash].queued
    ensures PermitOf(s, id).Some? && PermitOf(s, id).value in AllPermits(cfg) - s.table.free
  {
    LiveHasEntry(s, id);
  }

  /** Each non-queued entry, with a permit of its own. */
  lemma PermitsOfNonQueued(cfg: Config, s: System) returns (owned: map<Hash, Permit>)
    requires Safe(cfg, s)
    ensures owned.Keys == NonQueuedSet(s.table.entries)
    ensures forall h | h in owned :: owned[h] in AllPermits(cfg) - s.table.free
    ensures forall h, g | h in owned && g in owned && owned[h] == owned[g] :: h == g
  {
    hide Staged, Counted;
    var nonQueued := NonQueuedSet(s.table.entries);
    forall h | h in nonQueued ensures exists id :: Live(s, id) && s.tasks[id].hash == h && PermitOf(s, id).Some? {
      var id :| Carries(s, id, h);
      NonQueuedOwnsPermit(cfg, s, id);
    }
    owned := map h | h in nonQueued ::
      var id :| Live(s, id) && s.tasks[id].hash == h && PermitOf(s, id).Some?; PermitOf(s, id).value;
  }

  /** The gauge never passes the number of permits actually held, so never the configured bound. */
  lemma RunningIsBounded(cfg: Config, s: System)
    requires Safe(cfg, s)
    ensures s.table.running <= |AllPermits(cfg) - s.table.free| <= cfg.maxConcurrent
  {
    hide Carried, Staged, PermitsConserved;
    var owned := PermitsOfNonQueued(cfg, s);
    InjectionBound(owned, AllPermits(cfg) - s.table.free);
    SubsetSize(AllPermits(cfg) - s.table.free, AllPermits(cfg));
  }

  lemma {:induction false} SubsetSize(a: set<nat>, b: set<nat>)
    requires a <= b
    ensures |a| <= |b|
  {
    var same := map x | x in a :: x;
    assert same.Keys == a;
    InjectionBound(same, b);
  }

  /** The early returns of `run_fetch` cannot be reached, and the gauge never saturates at zero. */
  lemma DefensiveReturnsUnreachable(cfg: Config, s: System, id: nat)
    requires Safe(cfg, s)
    ensures Enabled(s, Take(id)) ==> TakeTable(s.table, s.tasks[id].hash).1.Some?
    ensures Enabled(s, Promote(id)) ==> PromoteTable(s.table, s.tasks[id].hash).1
    ensures Enabled(s, Finish(id)) ==> s.tasks[id].hash in s.table.entries && s.table.running > 0
  {
    hide Carried, Staged, PermitsConserved, Counted, PhaseFits;
    if Live(s, id) { LiveHasEntry(s, id); }
    if Enabled(s, Finish(id)) { FinishCounted(cfg, s, id); }
  }

  lemma {:induction false} RunSafe(cfg: Config, s: System, steps: seq<Step>)
    requires Safe(cfg, s) && Follows(cfg, s, steps)
    ensures Safe(cfg, After(cfg, s, steps))
    decreases |steps|
  {
    hide Safe, Enabled, Apply;
    if steps != [] {
      StepSafe(cfg, s, steps[0]);
      RunSafe(cfg, Apply(cfg, s, steps[0]), steps[1..]);
    }
  }

  /** Admission safety under every interleaving. */
  lemma AdmissionSafety(cfg: Config, steps: seq<Step>)
    requires Follows(cfg, Initial(cfg), steps)
    ensures var s := After(cfg, Initial(cfg), steps);
      && Safe(cfg, s)
      && s.table.running == |NonQueuedSet(s.table.entries)| <= cfg.maxConcurrent
      && |QueuedSet(s.table.entries)| <= cfg.queueMax
  {
    InitialSafe(cfg);
    RunSafe(cfg, Initial(cfg), steps);
    RunningIsBounded(cfg, After(cfg, Initial(cfg), steps));
  }

  // ---- What a submit must answer ----

  /** Joined iff the hash is in flight; started iff it is not and a permit is free; refused iff it is not, no permit is
      free and exactly `queueMax` entries wait; queued otherwise. */
  ghost predicate AnsweredExactly(cfg: Config, t: Table, hash: Hash, outcome: SubmitOutcome) {
    var inFlight, slot, waiting := hash in t.entries, t.free != {}, |QueuedSet(t.entries)|;
    && (outcome.Joined? <==> inFlight)
    && (outcome.Joined? ==> outcome.queued == (hash in QueuedSet(t.entries)))
    && (outcome == Started <==> !inFlight && slot)
    && (outcome == Queued <==> !inFlight && !slot && waiting < cfg.queueMax)
    && (outcome == Busy <==> !inFlight && !slot && waiting == cfg.queueMax)
  }

  /** A refused submit changes nothing; any other adds its owner, last, to the entry, which is queued iff it waits. */
  ghost predicate RecordedExactly(s: System, hash: Hash, owner: Owner, outcome: SubmitOutcome, s': System) {
    if outcome == Busy then s' == s
    else
      && s'.accepted == s.accepted + multiset{owner} && s'.delivered == s.delivered
      && s'.table.entries.Keys == s.table.entries.Keys + {hash}
      && (forall h | h in s.table.entries && h != hash :: s'.table.entries[h] == s.table.entries[h])
      && s'.table.entries[hash].owners == (if hash in s.table.entries then s.table.entries[hash].owners else []) + [owner]
      && (s'.table.entries[hash].queued <==> outcome == Queued || outcome == Joined(true))
  }

  /** In every reachable state a submit is answered and recorded exactly. */
  lemma SubmitExactly(cfg: Config, steps: seq<Step>, hash: Hash, owner: Owner, permit: Permit)
    requires Follows(cfg, Initial(cfg), steps) && Enabled(After(cfg, Initial(cfg), steps), Submit(hash, owner, permit))
    ensures var s := After(cfg, Initial(cfg), steps);
      var outcome := SubmitTable(cfg, s.table, hash, owner, permit).1;
      && AnsweredExactly(cfg, s.table, hash, outcome)
      && RecordedExactly(s, hash, owner, outcome, Apply(cfg, s, Submit(hash, owner, permit)))
  {
    hide Follows, After, Carried, Staged, PermitsConserved, NonQueuedSet;
    AdmissionSafety(cfg, steps);
    var s := After(cfg, Initial(cfg), steps);
    assert |QueuedSet(s.table.entries)| <= cfg.queueMax;
  }

  /** A submit that finds a free slot takes one, and only then. */
  lemma SubmitTakesSlot(cfg: Config, s: System, hash: Hash, owner: Owner, permit: Permit)
    requires Enabled(s, Submit(hash, owner, permit))
    ensures var s' := Apply(cfg, s, Submit(hash, owner, permit));
      s'.table.free == if hash !in s.table.entries && s.table.free != {} then s.table.free - {permit} else s.table.free
  {
  }

  // ---- Conservation ----

  ghost function EntryOwners(entries: map<Hash, Entry>): map<Hash, multiset<Owner>> {
    map h | h in entries :: multiset(entries[h].owners)
  }

  ghost function TaskOwners(tasks: map<nat, Task>): map<nat, multiset<Owner>> {
    map id | id in tasks :: OwnersIn(tasks[id].phase)
  }

  /** Every accepted owner is in a live entry, in a completion being published, or delivered, exactly once. */
  ghost predicate Conserved(s: System) {
    s.accepted == Gathered(EntryOwners(s.table.entries)) + Gathered(TaskOwners(s.tasks)) + s.delivered
  }

  lemma EntryOwnersPut(entries: map<Hash, Entry>, hash: Hash, entry: Entry)
    ensures EntryOwners(entries[hash := entry]) == EntryOwners(entries)[hash := multiset(entry.owners)]
  {
  }

  lemma EntryOwnersDrop(entries: map<Hash, Entry>, hash: Hash)
    ensures EntryOwners(entries - {hash}) == EntryOwners(entries) - {hash}
  {
  }

  lemma EntryOwnersAt(entries: map<Hash, Entry>, hash: Hash)
    ensures hash in entries <==> hash in EntryOwners(entries)
    ensures hash in entries ==> EntryOwners(entries)[hash] == multiset(entries[hash].owners)
  {
  }

  lemma EntryOwnersUpdate(entries: map<Hash, Entry>, hash: Hash, entry: Entry)
    ensures Gathered(EntryOwners(entries[hash := entry])) == multiset(entry.owners) + Gathered(EntryOwners(entries - {hash}))
    ensures hash in entries ==>
      Gathered(EntryOwners(entries)) == multiset(entries[hash].owners) + Gathered(EntryOwners(entries - {hash}))
    ensures hash !in entries ==> Gathered(EntryOwners(entries)) == Gathered(EntryOwners(entries - {hash}))
  {
    hide Gathered, EntryOwners;
    var m := EntryOwners(entries);
    EntryOwnersPut(entries, hash, entry);
    EntryOwnersDrop(entries, hash);
    EntryOwnersAt(entries, hash);
    GatheredUpdate(m, hash, multiset(entry.owners));
    if hash in entries { GatheredRemove(m, hash); }
  }

  ghost function OwnersIn(phase: Phase): multiset<Owner> {
    if phase.Completing? then multiset(phase.owners) else multiset{}
  }

  lemma TaskOwnersPut(tasks: map<nat, Task>, id: nat, task: Task)
    ensures TaskOwners(tasks[id := task]) == TaskOwners(tasks)[id := OwnersIn(task.phase)]
  {
    hide OwnersIn;
  }

  lemma TaskOwnersDrop(tasks: map<nat, Task>, id: nat)
    ensures TaskOwners(tasks - {id}) == TaskOwners(tasks) - {id}
  {
    hide OwnersIn;
  }

  lemma TaskOwnersAt(tasks: map<nat, Task>, id: nat)
    ensures id in tasks <==> id in TaskOwners(tasks)
    ensures id in tasks ==> TaskOwners(tasks)[id] == OwnersIn(tasks[id].phase)
  {
    hide OwnersIn;
  }

  lemma TaskOwnersUpdate(tasks: map<nat, Task>, id: nat, task: Task)
    ensures Gathered(TaskOwners(tasks[id := task])) == OwnersIn(task.phase) + Gathered(TaskOwners(tasks - {id}))
    ensures id in tasks ==> Gathered(TaskOwners(tasks)) == OwnersIn(tasks[id].phase) + Gathered(TaskOwners(tasks - {id}))
    ensures id !in tasks ==> Gathered(TaskOwners(tasks)) == Gathered(TaskOwners(tasks - {id}))
  {
    hide Gathered, TaskOwners, OwnersIn;
    var m := TaskOwners(tasks);
    TaskOwnersPut(tasks, id, task);
    TaskOwnersDrop(tasks, id);
    TaskOwnersAt(tasks, id);
    GatheredUpdate(m, id, OwnersIn(task.phase));
    if id in tasks { GatheredRemove(m, id); }
  }

  /** A local step that leaves the owners of its entry alone moves nobody. */
  lemma MoveConserved(s: System, s': System, id: nat, entry: Entry, phase: Phase)
    requires Conserved(s) && Moves(s, s', id, entry, phase)
    requires entry.owners == s.table.entries[s.tasks[id].hash].owners
    requires s'.accepted == s.accepted && s'.delivered == s.delivered
    ensures Conserved(s')
  {
    EntryOwnersUpdate(s.table.entries, s.tasks[id].hash, entry);
    TaskOwnersUpdate(s.tasks, id, Task(s.tasks[id].hash, phase));
  }

  lemma JoinConserved(cfg: Config, s: System, hash: Hash, owner: Owner, permit: Permit)
    requires Conserved(s) && hash in s.table.entries
    ensures Conserved(SubmitSystem(cfg, s, hash, owner, permit))
  {
    hide Gathered, EntryOwners, TaskOwners;
    var owners := s.table.entries[hash].owners;
    EntryOwnersUpdate(s.table.entries, hash, s.table.entries[hash].(owners := owners + [owner]));
    assert multiset(owners + [owner]) == multiset(owners) + multiset{owner};
  }

  lemma AdmitConserved(cfg: Config, s: System, hash: Hash, owner: Owner, permit: Permit)
    requires Conserved(s) && s.nextTask !in s.tasks && hash !in s.table.entries
    ensures Conserved(SubmitSystem(cfg, s, hash, owner, permit))
  {
    hide Gathered, EntryOwners, TaskOwners, QueuedSet;
    var s' := SubmitSystem(cfg, s, hash, owner, permit);
    if s' != s {
      var entry := s'.table.entries[hash];
      EntryOwnersUpdate(s.table.entries, hash, entry);
      TaskOwnersUpdate(s.tasks, s.nextTask, Task(hash, Unsent));
      assert multiset(entry.owners) == multiset{owner};
    }
  }

  lemma SubmitConserved(cfg: Config, s: System, hash: Hash, owner: Owner, permit: Permit)
    requires Conserved(s) && Carried(s)
    ensures Conserved(SubmitSystem(cfg, s, hash, owner, permit))
  {
    assert s.nextTask !in s.tasks;
    hide Conserved, Carried, SubmitSystem;
    if hash in s.table.entries { JoinConserved(cfg, s, hash, owner, permit); } else { AdmitConserved(cfg, s, hash, owner, permit); }
  }

  lemma FinishConserved(s: System, id: nat)
    requires Conserved(s) && Carried(s) && Enabled(s, Finish(id))
    ensures Conserved(FinishSystem(s, id))
  {
    hide Gathered, EntryOwners, TaskOwners;
    assert Live(s, id);
    var hash, s' := s.tasks[id].hash, FinishSystem(s, id);
    EntryOwnersUpdate(s.table.entries, hash, s.table.entries[hash]);
    TaskOwnersUpdate(s.tasks, id, s'.tasks[id]);
  }

  lemma PublishConserved(cfg: Config, s: System, id: nat)
    requires Conserved(s) && Enabled(s, Publish(id))
    ensures Conserved(Apply(cfg, s, Publish(id)))
  {
    TaskOwnersUpdate(s.tasks, id, s.tasks[id]);
  }

  lemma StepConserved(cfg: Config, s: System, step: Step)
    requires Safe(cfg, s) && Conserved(s) && Enabled(s, step)
    ensures Conserved(Apply(cfg, s, step))
  {
    hide Carried, Staged, PermitsConserved, Counted, Conserved, SubmitSystem, FinishSystem;
    var s' := Apply(cfg, s, step);
    match step
    case Submit(hash, owner, permit) => SubmitConserved(cfg, s, hash, owner, permit);
    case Finish(id) => FinishConserved(s, id);
    case Publish(id) => PublishConserved(cfg, s, id);
    case _ =>
      var id := step.id;
      LiveHasEntry(s, id);
      var hash := s.tasks[id].hash;
      assert s.table.entries == s.table.entries[hash := s.table.entries[hash]];
      MoveConserved(s, s', id, s'.table.entries[hash], s'.tasks[id].phase);
  }

  lemma {:induction false} RunConserved(cfg: Config, s: System, steps: seq<Step>)
    requires Safe(cfg, s) && Conserved(s) && Follows(cfg, s, steps)
    ensures Conserved(After(cfg, s, steps))
    decreases |steps|
  {
    hide Safe, Enabled, Apply, Conserved;
    if steps != [] {
      StepSafe(cfg, s, steps[0]);
      StepConserved(cfg, s, steps[0]);
      RunConserved(cfg, Apply(cfg, s, steps[0]), steps[1..]);
    }
  }

  // ---- Draining ----

  function PhaseWeight(phase: Phase): nat {
    match phase
    case Unsent => 7
    case Job => 6
    case Spawned => 5
    case WaitingForSlot => 4
    case Holding(_) => 3
    case Downloading(_) => 2
    case Completing(_) => 1
  }

  ghost function Weights(tasks: map<nat, Task>): map<nat, nat> {
    map id | id in tasks :: PhaseWeight(tasks[id].phase)
  }

  ghost function Remaining(s: System): nat {
    Total(Weights(s.tasks))
  }

  lemma PhaseStepDecreases(tasks: map<nat, Task>, id: nat, task: Task)
    requires id in tasks && PhaseWeight(task.phase) < PhaseWeight(tasks[id].phase)
    ensures Total(Weights(tasks[id := task])) < Total(Weights(tasks))
    ensures Total(Weights(tasks - {id})) < Total(Weights(tasks))
  {
    var m := Weights(tasks);
    assert Weights(tasks[id := task]) == m[id := PhaseWeight(task.phase)];
    assert Weights(tasks - {id}) == m - {id};
    TotalUpdate(m, id, PhaseWeight(task.phase));
    TotalRemove(m, id);
  }

  lemma DropDecreases(tasks: map<nat, Task>, id: nat)
    requires id in tasks
    ensures Total(Weights(tasks - {id})) < Total(Weights(tasks))
  {
    assert Weights(tasks - {id}) == Weights(tasks) - {id};
    TotalRemove(Weights(tasks), id);
  }

  /** Without submits, every step uses up work. */
  lemma StepUsesWork(cfg: Config, s: System, step: Step)
    requires Safe(cfg, s) && Enabled(s, step) && !step.Submit?
    ensures Remaining(Apply(cfg, s, step)) < Remaining(s)
  {
    hide Carried, Staged, PermitsConserved, Counted, Total, Weights;
    var s', id := Apply(cfg, s, step), step.id;
    if step.Publish? {
      DropDecreases(s.tasks, id);
    } else {
      LiveHasEntry(s, id);
      PhaseStepDecreases(s.tasks, id, s'.tasks[id]);
    }
  }

  ghost predicate Stuck(s: System) {
    forall step: Step | !step.Submit? :: !Enabled(s, step)
  }

  ghost predicate Drained(cfg: Config, s: System) {
    && s.table == Table(map[], 0, AllPermits(cfg))
    && s.tasks == map[]
    && s.delivered == s.accepted
  }

  /** If every task waits for a slot, every slot is free. */
  lemma AllWaitingAllFree(cfg: Config, s: System)
    requires Safe(cfg, s) && forall id | id in s.tasks :: s.tasks[id].phase.WaitingForSlot?
    ensures s.table.free == AllPermits(cfg)
  {
    hide Carried, Staged, Counted, AllPermits;
    forall p | p in AllPermits(cfg) ensures p in s.table.free {
      if p !in s.table.free {
        assert p in AllPermits(cfg) - s.table.free;
        var id :| PermitOf(s, id) == Some(p);
        LiveHasEntry(s, id);
      }
    }
  }

  lemma NoTasksIsDrained(cfg: Config, s: System)
    requires Safe(cfg, s) && Conserved(s) && s.tasks == map[]
    ensures Drained(cfg, s)
  {
    AllWaitingAllFree(cfg, s);
    hide PermitsConserved, Staged, AllPermits;
    assert forall id :: !Live(s, id);
    assert forall h :: h !in s.table.entries;
    assert s.table.entries == map[];
    assert NonQueuedSet(s.table.entries) == {};
    assert EntryOwners(s.table.entries) == map[] && TaskOwners(s.tasks) == map[];
  }

  /** With at least one slot, only a drained system has no step left. */
  lemma StuckIsDrained(cfg: Config, s: System)
    requires Safe(cfg, s) && Conserved(s) && cfg.maxConcurrent >= 1 && Stuck(s)
    ensures Drained(cfg, s)
  {
    hide Safe, Conserved, Drained;
    forall id | id in s.tasks ensures s.tasks[id].phase.WaitingForSlot? {
      assert !Enabled(s, Send(id)) && !Enabled(s, Dispatch(id)) && !Enabled(s, Take(id));
      assert !Enabled(s, Promote(id)) && !Enabled(s, Finish(id)) && !Enabled(s, Publish(id));
    }
    AllWaitingAllFree(cfg, s);
    forall id: nat ensures id !in s.tasks {
      var step := Acquire(id, 0);
      assert !step.Submit?;
      assert 0 in s.table.free;
    }
    assert s.tasks == map[];
    NoTasksIsDrained(cfg, s);
  }

  lemma {:induction false} DrainRun(cfg: Config, s: System, steps: seq<Step>)
    requires Safe(cfg, s) && Follows(cfg, s, steps) && forall i | 0 <= i < |steps| :: !steps[i].Submit?
    ensures |steps| + Remaining(After(cfg, s, steps)) <= Remaining(s)
    decreases |steps|
  {
    hide Safe, Enabled, Apply, Remaining;
    if steps != [] {
      StepSafe(cfg, s, steps[0]);
      StepUsesWork(cfg, s, steps[0]);
      DrainRun(cfg, Apply(cfg, s, steps[0]), steps[1..]);
    }
  }

  /** Conservation and drain: after any run, no owner is lost or delivered twice; and once submits stop, a run
      has at most `Remaining` more steps and, if it is maximal, ends with everything delivered and all permits free. */
  lemma FetchesDrain(cfg: Config, busy: seq<Step>, quiet: seq<Step>)
    requires Follows(cfg, Initial(cfg), busy)
    requires Follows(cfg, After(cfg, Initial(cfg), busy), quiet) && forall i | 0 <= i < |quiet| :: !quiet[i].Submit?
    ensures var s := After(cfg, Initial(cfg), busy); var s' := After(cfg, s, quiet);
      && Conserved(s) && Conserved(s')
      && |quiet| <= Remaining(s)
      && (cfg.maxConcurrent >= 1 && Stuck(s') ==> Drained(cfg, s'))
  {
    hide Safe, Conserved, Drained, Stuck;
    var s := After(cfg, Initial(cfg), busy);
    InitialSafe(cfg);
    InitialConserved(cfg);
    RunSafe(cfg, Initial(cfg), busy);
    RunConserved(cfg, Initial(cfg), busy);
    RunSafe(cfg, s, quiet);
    RunConserved(cfg, s, quiet);
    DrainRun(cfg, s, quiet);
    if cfg.maxConcurrent >= 1 && Stuck(After(cfg, s, quiet)) {
      StuckIsDrained(cfg, After(cfg, s, quiet));
    }
  }

  lemma InitialConserved(cfg: Config)
    ensures Conserved(Initial(cfg))
  {
    assert EntryOwners(map[]) == map[] && TaskOwners(map[]) == map[];
  }
}
