/** Admission safety: what every interleaving of the fetch protocol keeps. */
module FetchSafety {
  import opened Seqs
  import opened Fetch

  /** The task has not yet removed its entry. */
  predicate Live(s: System, id: nat) {
    id in s.tasks && !s.tasks[id].phase.Completing?
  }

  /** Task `id` is live, and fetches `hash`. */
  predicate Carries(s: System, id: nat, hash: Hash) { Live(s, id) && s.tasks[id].hash == hash }

  /** Single flight: live tasks and entries correspond one to one. */
  ghost predicate Carried(s: System) {
    && (forall id | Live(s, id) :: s.tasks[id].hash in s.table.entries)
    && (forall i, j | Live(s, i) && Live(s, j) && s.tasks[i].hash == s.tasks[j].hash :: i == j)
    && (forall h | h in s.table.entries :: exists id :: Carries(s, id, h))
    && (forall id | id in s.tasks :: id < s.nextTask)
  }

  /** The same, in terms of who carries what. */
  ghost predicate OneToOne(s: System) {
    && (forall id, h | Carries(s, id, h) :: h in s.table.entries.Keys)
    && (forall i, j, h | Carries(s, i, h) && Carries(s, j, h) :: i == j)
    && (forall h | h in s.table.entries.Keys :: exists id :: Carries(s, id, h))
    && (forall id | id in s.tasks.Keys :: id < s.nextTask)
  }

  lemma CarriedIsOneToOne(s: System)
    ensures Carried(s) <==> OneToOne(s)
  {
    if OneToOne(s) {
      forall id | Live(s, id) ensures s.tasks[id].hash in s.table.entries {
        assert Carries(s, id, s.tasks[id].hash);
      }
      forall i, j | Live(s, i) && Live(s, j) && s.tasks[i].hash == s.tasks[j].hash ensures i == j {
        assert Carries(s, i, s.tasks[i].hash) && Carries(s, j, s.tasks[i].hash);
      }
    }
  }

  /** What the phase of a live task says about its entry. */
  predicate PhaseFits(entry: Entry, phase: Phase) {
    && entry.owners != []
    && match phase
       case WaitingForSlot => entry.queued && entry.permit.None?
       case Holding(_) => entry.permit.None?
       case Downloading(_) => !entry.queued && entry.permit.None?
       case Completing(_) => true
       case _ => entry.queued == entry.permit.None?
  }

  ghost predicate Staged(s: System) {
    forall id | Live(s, id) && s.tasks[id].hash in s.table.entries ::
      PhaseFits(s.table.entries[s.tasks[id].hash], s.tasks[id].phase)
  }

  /** The permit a live task owns: its own, or the one its entry still keeps for it. */
  function PermitOf(s: System, id: nat): Option<Permit> {
    if !Live(s, id) then None
    else match s.tasks[id].phase
      case Holding(permit) => Some(permit)
      case Downloading(permit) => Some(permit)
      case _ => if s.tasks[id].hash in s.table.entries then s.table.entries[s.tasks[id].hash].permit else None
  }

  /** Every permit is free or owned by exactly one task. */
  ghost predicate PermitsConserved(cfg: Config, s: System) {
    && s.table.free <= AllPermits(cfg)
    && (forall id | PermitOf(s, id).Some? :: PermitOf(s, id).value in AllPermits(cfg) - s.table.free)
    && (forall i, j | PermitOf(s, i).Some? && PermitOf(s, i) == PermitOf(s, j) :: i == j)
    && (forall p | p in AllPermits(cfg) - s.table.free :: exists id :: PermitOf(s, id) == Some(p))
  }

  ghost predicate Counted(cfg: Config, s: System) {
    && s.table.running == |NonQueuedSet(s.table.entries)|
    && |QueuedSet(s.table.entries)| <= cfg.queueMax
  }

  ghost predicate Safe(cfg: Config, s: System) {
    Carried(s) && Staged(s) && PermitsConserved(cfg, s) && Counted(cfg, s)
  }

  // ---- Local steps: one live task and its entry change ----

  /** Task `id` moves to `phase` and its entry becomes `entry`; nothing else about tasks or entries changes. */
  ghost predicate Moves(s: System, s': System, id: nat, entry: Entry, phase: Phase) {
    && Live(s, id) && !phase.Completing?
    && s.tasks[id].hash in s.table.entries
    && s'.tasks == s.tasks[id := Task(s.tasks[id].hash, phase)]
    && s'.nextTask == s.nextTask
    && s'.table.entries == s.table.entries[s.tasks[id].hash := entry]
  }

  lemma CarriedFrame(s: System, s': System)
    requires Carried(s) && s'.table.entries.Keys == s.table.entries.Keys
    requires s'.nextTask == s.nextTask && s'.tasks.Keys <= s.tasks.Keys
    requires forall id, h :: Carries(s', id, h) == Carries(s, id, h)
    ensures Carried(s')
  {
    hide Carries, Carried;
    CarriedIsOneToOne(s);
    forall h | h in s'.table.entries.Keys ensures exists id :: Carries(s', id, h) {
      var id :| Carries(s, id, h);
      assert Carries(s', id, h);
    }
    CarriedIsOneToOne(s');
  }

  lemma MoveCarried(s: System, s': System, id: nat, entry: Entry, phase: Phase)
    requires Carried(s) && Moves(s, s', id, entry, phase)
    ensures Carried(s')
  {
    forall j, h ensures Carries(s', j, h) == Carries(s, j, h) {
    }
    hide Carried, Carries;
    CarriedFrame(s, s');
  }

  lemma MoveStaged(s: System, s': System, id: nat, entry: Entry, phase: Phase)
    requires Carried(s) && Staged(s) && Moves(s, s', id, entry, phase) && PhaseFits(entry, phase)
    ensures Staged(s')
  {
    forall j | Live(s', j) && s'.tasks[j].hash in s'.table.entries
      ensures PhaseFits(s'.table.entries[s'.tasks[j].hash], s'.tasks[j].phase)
    {
      assert Live(s, j);
    }
  }

  lemma MoveOthers(s: System, s': System, id: nat, entry: Entry, phase: Phase)
    requires Carried(s) && Moves(s, s', id, entry, phase)
    ensures forall j | j != id :: PermitOf(s', j) == PermitOf(s, j)
  {
    forall j | j != id ensures PermitOf(s', j) == PermitOf(s, j) {
      assert Live(s', j) == Live(s, j);
    }
  }

  lemma PermitsFrame(cfg: Config, s: System, s': System)
    requires PermitsConserved(cfg, s)
    requires s'.table.free == s.table.free && forall id :: PermitOf(s', id) == PermitOf(s, id)
    ensures PermitsConserved(cfg, s')
  {
    forall p | p in AllPermits(cfg) - s'.table.free ensures exists id :: PermitOf(s', id) == Some(p) {
      var id :| PermitOf(s, id) == Some(p);
      assert PermitOf(s', id) == Some(p);
    }
  }

  /** A free permit moves to task `id`. */
  lemma PermitTaken(cfg: Config, s: System, s': System, id: nat, p: Permit)
    requires PermitsConserved(cfg, s) && p in s.table.free && PermitOf(s, id).None?
    requires s'.table.free == s.table.free - {p} && PermitOf(s', id) == Some(p)
    requires forall j | j != id :: PermitOf(s', j) == PermitOf(s, j)
    ensures PermitsConserved(cfg, s')
  {
    forall q | q in AllPermits(cfg) - s'.table.free ensures exists j :: PermitOf(s', j) == Some(q) {
      if q != p {
        var j :| PermitOf(s, j) == Some(q);
        assert PermitOf(s', j) == Some(q);
      }
    }
  }

  /** Task `id` gives its permit back. */
  lemma PermitReturned(cfg: Config, s: System, s': System, id: nat, p: Permit)
    requires PermitsConserved(cfg, s) && PermitOf(s, id) == Some(p)
    requires s'.table.free == s.table.free + {p} && PermitOf(s', id).None?
    requires forall j | j != id :: PermitOf(s', j) == PermitOf(s, j)
    ensures PermitsConserved(cfg, s')
  {
    forall q | q in AllPermits(cfg) - s'.table.free ensures exists j :: PermitOf(s', j) == Some(q) {
      var j :| PermitOf(s, j) == Some(q);
      assert PermitOf(s', j) == Some(q);
    }
  }

  lemma MoveCounted(cfg: Config, s: System, s': System, id: nat, entry: Entry, phase: Phase)
    requires Counted(cfg, s) && Moves(s, s', id, entry, phase)
    requires var e := s.table.entries[s.tasks[id].hash];
      && (entry.queued ==> e.queued)
      && s'.table.running == s.table.running + (if e.queued && !entry.queued then 1 else 0)
    ensures Counted(cfg, s')
  {
    var hash := s.tasks[id].hash;
    var entries, entries' := s.table.entries, s'.table.entries;
    if entries[hash].queued == entry.queued {
      assert NonQueuedSet(entries') == NonQueuedSet(entries) && QueuedSet(entries') == QueuedSet(entries);
    } else {
      assert NonQueuedSet(entries') == NonQueuedSet(entries) + {hash} && QueuedSet(entries') == QueuedSet(entries) - {hash};
    }
  }

  /** A local step that neither takes nor returns a permit. */
  lemma MoveSafe(cfg: Config, s: System, s': System, id: nat, entry: Entry, phase: Phase)
    requires Safe(cfg, s) && Moves(s, s', id, entry, phase) && PhaseFits(entry, phase)
    requires s'.table.free == s.table.free && PermitOf(s', id) == PermitOf(s, id)
    requires var e := s.table.entries[s.tasks[id].hash];
      && (entry.queued ==> e.queued)
      && s'.table.running == s.table.running + (if e.queued && !entry.queued then 1 else 0)
    ensures Safe(cfg, s')
  {
    hide Carried, Staged, PermitsConserved, Counted, PhaseFits, PermitOf;
    MoveCarried(s, s', id, entry, phase);
    MoveStaged(s, s', id, entry, phase);
    MoveOthers(s, s', id, entry, phase);
    PermitsFrame(cfg, s, s');
    MoveCounted(cfg, s, s', id, entry, phase);
  }

  // ---- Each step ----

  lemma JoinSafe(cfg: Config, s: System, hash: Hash, owner: Owner, permit: Permit)
    requires Safe(cfg, s) && hash in s.table.entries
    ensures Safe(cfg, SubmitSystem(cfg, s, hash, owner, permit))
  {
    var s' := SubmitSystem(cfg, s, hash, owner, permit);
    var id :| Carries(s, id, hash);
    hide PermitsConserved, Counted;
    assert Live(s, id);
    assert PhaseFits(s.table.entries[hash], s.tasks[id].phase);
    assert s'.tasks == s.tasks[id := s.tasks[id]];
    MoveSafe(cfg, s, s', id, s'.table.entries[hash], s.tasks[id].phase);
  }

  lemma AdmitCarried(s: System, s': System, hash: Hash)
    requires Carried(s) && hash !in s.table.entries
    requires s'.table.entries.Keys == s.table.entries.Keys + {hash}
    requires s'.tasks == s.tasks[s.nextTask := Task(hash, Unsent)] && s'.nextTask == s.nextTask + 1
    ensures Carried(s')
  {
    var new' := s.nextTask;
    assert new' !in s.tasks;
    forall id, h ensures Carries(s', id, h) <==> Carries(s, id, h) || (id == new' && h == hash) {
    }
    hide Carries, Carried;
    CarriedIsOneToOne(s);
    forall h | h in s'.table.entries.Keys ensures exists id :: Carries(s', id, h) {
      if h == hash {
        assert Carries(s', new', h);
      } else {
        var id :| Carries(s, id, h);
        assert Carries(s', id, h);
      }
    }
    assert hash !in s.table.entries.Keys;
    CarriedIsOneToOne(s');
  }

  lemma AdmitStaged(s: System, s': System, hash: Hash, entry: Entry)
    requires Carried(s) && Staged(s) && hash !in s.table.entries && PhaseFits(entry, Unsent)
    requires s'.table.entries == s.table.entries[hash := entry]
    requires s'.tasks == s.tasks[s.nextTask := Task(hash, Unsent)]
    ensures Staged(s')
  {
    hide PhaseFits;
    forall id | Live(s', id) && s'.tasks[id].hash in s'.table.entries
      ensures PhaseFits(s'.table.entries[s'.tasks[id].hash], s'.tasks[id].phase)
    {
      if id != s.nextTask { assert Live(s, id); }
    }
  }

  lemma AdmitOthers(s: System, s': System, hash: Hash, entry: Entry)
    requires Carried(s) && hash !in s.table.entries
    requires s'.table.entries == s.table.entries[hash := entry]
    requires s'.tasks == s.tasks[s.nextTask := Task(hash, Unsent)]
    ensures PermitOf(s, s.nextTask).None? && PermitOf(s', s.nextTask) == entry.permit
    ensures forall id | id != s.nextTask :: PermitOf(s', id) == PermitOf(s, id)
  {
    forall id | id != s.nextTask ensures PermitOf(s', id) == PermitOf(s, id) {
      assert Live(s', id) == Live(s, id);
    }
  }

  lemma AdmitCounted(cfg: Config, s: System, s': System, hash: Hash, entry: Entry)
    requires Counted(cfg, s) && hash !in s.table.entries
    requires s'.table.entries == s.table.entries[hash := entry]
    requires s'.table.running == if entry.queued then s.table.running else s.table.running + 1
    requires entry.queued ==> |QueuedSet(s.table.entries)| < cfg.queueMax
    ensures Counted(cfg, s')
  {
    QueuedInsert(s.table.entries, hash, entry);
  }

  lemma QueuedInsert(entries: map<Hash, Entry>, hash: Hash, entry: Entry)
    requires hash !in entries
    ensures QueuedSet(entries[hash := entry]) == QueuedSet(entries) + (if entry.queued then {hash} else {})
    ensures NonQueuedSet(entries[hash := entry]) == NonQueuedSet(entries) + (if entry.queued then {} else {hash})
    ensures hash !in QueuedSet(entries) && hash !in NonQueuedSet(entries)
  {
  }

  lemma AdmitSafe(cfg: Config, s: System, hash: Hash, owner: Owner, permit: Permit)
    requires Safe(cfg, s) && hash !in s.table.entries && Enabled(s, Submit(hash, owner, permit))
    ensures Safe(cfg, SubmitSystem(cfg, s, hash, owner, permit))
  {
    hide Carried, Staged, PermitsConserved, PermitOf, Counted;
    var s' := SubmitSystem(cfg, s, hash, owner, permit);
    if s.table.free != {} || |QueuedSet(s.table.entries)| < cfg.queueMax {
      var entry := s'.table.entries[hash];
      AdmitCarried(s, s', hash);
      AdmitStaged(s, s', hash, s'.table.entries[hash]);
    AdmitOthers(s, s', hash, entry);
      AdmitCounted(cfg, s, s', hash, entry);
      if s.table.free != {} {
        PermitTaken(cfg, s, s', s.nextTask, permit);
      } else {
        PermitsFrame(cfg, s, s');
      }
    }
  }

  /** A live task finds its entry, fitting its phase. */
  lemma LiveHasEntry(s: System, id: nat)
    requires Carried(s) && Staged(s) && Live(s, id)
    ensures s.tasks[id].hash in s.table.entries
    ensures PhaseFits(s.table.entries[s.tasks[id].hash], s.tasks[id].phase)
  {
  }

  lemma ForwardSafe(cfg: Config, s: System, id: nat, phase: Phase)
    requires Safe(cfg, s) && Live(s, id)
    requires (s.tasks[id].phase.Unsent? && phase.Job?) || (s.tasks[id].phase.Job? && phase.Spawned?)
    ensures Safe(cfg, SetPhase(s, id, phase))
  {
    hide Carried, Staged, PermitsConserved, Counted;
    LiveHasEntry(s, id);
    var s', entry := SetPhase(s, id, phase), s.table.entries[s.tasks[id].hash];
    assert s.table.entries == s.table.entries[s.tasks[id].hash := entry];
    MoveSafe(cfg, s, s', id, entry, phase);
  }

  lemma TakeSafe(cfg: Config, s: System, id: nat)
    requires Safe(cfg, s) && Enabled(s, Take(id))
    ensures Safe(cfg, TakeSystem(s, id))
  {
    hide Carried, Staged, PermitsConserved, Counted;
    LiveHasEntry(s, id);
    var s' := TakeSystem(s, id);
    MoveSafe(cfg, s, s', id, s'.table.entries[s.tasks[id].hash], s'.tasks[id].phase);
  }

  lemma AcquireSafe(cfg: Config, s: System, id: nat, permit: Permit)
    requires Safe(cfg, s) && Enabled(s, Acquire(id, permit))
    ensures Safe(cfg, Apply(cfg, s, Acquire(id, permit)))
  {
    hide Carried, Staged, PermitsConserved, Counted;
    LiveHasEntry(s, id);
    var s', entry, phase := Apply(cfg, s, Acquire(id, permit)), s.table.entries[s.tasks[id].hash], Holding(permit);
    assert s.table.entries == s.table.entries[s.tasks[id].hash := entry];
    MoveCarried(s, s', id, entry, phase);
    MoveStaged(s, s', id, entry, phase);
    MoveOthers(s, s', id, entry, phase);
    PermitTaken(cfg, s, s', id, permit);
    MoveCounted(cfg, s, s', id, entry, phase);
  }

  lemma PromoteSafe(cfg: Config, s: System, id: nat)
    requires Safe(cfg, s) && Enabled(s, Promote(id))
    ensures Safe(cfg, PromoteSystem(s, id))
  {
    hide Carried, Staged, PermitsConserved, Counted;
    LiveHasEntry(s, id);
    var s' := PromoteSystem(s, id);
    MoveSafe(cfg, s, s', id, s'.table.entries[s.tasks[id].hash], s'.tasks[id].phase);
  }

  /** A task lets go of its entry. */
  lemma CarriedDrop(s: System, s': System, id: nat, hash: Hash)
    requires Carried(s) && Carries(s, id, hash) && s'.table.entries.Keys == s.table.entries.Keys - {hash}
    requires s'.nextTask == s.nextTask && s'.tasks.Keys == s.tasks.Keys
    requires forall j, h :: Carries(s', j, h) <==> Carries(s, j, h) && j != id
    ensures Carried(s')
  {
    hide Carries, Carried;
    CarriedIsOneToOne(s);
    forall h | h in s'.table.entries.Keys ensures exists j :: Carries(s', j, h) {
      var j :| Carries(s, j, h);
      if j == id { CarriesOne(s, id, hash, h); }
      assert Carries(s', j, h);
    }
    CarriedIsOneToOne(s');
  }

  lemma CarriesOne(s: System, id: nat, g: Hash, h: Hash)
    requires Carries(s, id, g) && Carries(s, id, h)
    ensures g == h
  {
  }

  lemma FinishCarried(s: System, id: nat)
    requires Carried(s) && Enabled(s, Finish(id))
    ensures Carried(FinishSystem(s, id))
  {
    var s', hash := FinishSystem(s, id), s.tasks[id].hash;
    hide Carried;
    assert Carries(s, id, hash);
    forall j, h ensures Carries(s', j, h) <==> Carries(s, j, h) && j != id {
    }
    CarriedDrop(s, s', id, hash);
  }

  lemma FinishOthers(s: System, id: nat)
    requires Carried(s) && Staged(s) && Enabled(s, Finish(id))
    ensures Staged(FinishSystem(s, id))
    ensures forall j | j != id :: PermitOf(FinishSystem(s, id), j) == PermitOf(s, j)
    ensures PermitOf(s, id) == Some(s.tasks[id].phase.permit) && PermitOf(FinishSystem(s, id), id).None?
  {
    assert Live(s, id);
    var s' := FinishSystem(s, id);
    forall j | j != id ensures Live(s', j) == Live(s, j) && PermitOf(s', j) == PermitOf(s, j) {
    }
  }

  lemma FinishCounted(cfg: Config, s: System, id: nat)
    requires Carried(s) && Staged(s) && Counted(cfg, s) && Enabled(s, Finish(id))
    ensures Counted(cfg, FinishSystem(s, id))
    ensures s.table.running > 0
  {
    LiveHasEntry(s, id);
    hide Carried, Staged;
    var entries, hash := s.table.entries, s.tasks[id].hash;
    assert hash in NonQueuedSet(entries);
    assert NonQueuedSet(entries - {hash}) == NonQueuedSet(entries) - {hash};
    assert QueuedSet(entries - {hash}) == QueuedSet(entries);
  }

  lemma FinishSafe(cfg: Config, s: System, id: nat)
    requires Safe(cfg, s) && Enabled(s, Finish(id))
    ensures Safe(cfg, FinishSystem(s, id))
  {
    hide Carried, Staged, PermitsConserved, PermitOf, Counted;
    FinishCarried(s, id);
    FinishOthers(s, id);
    FinishCounted(cfg, s, id);
    PermitReturned(cfg, s, FinishSystem(s, id), id, s.tasks[id].phase.permit);
  }

  /** Publishing concerns only a task that has let go of its entry. */
  lemma PublishFrame(cfg: Config, s: System, id: nat)
    requires Enabled(s, Publish(id))
    ensures var s' := Apply(cfg, s, Publish(id));
      && s'.table == s.table && s'.nextTask == s.nextTask && s'.tasks.Keys <= s.tasks.Keys
      && (forall j, h :: Carries(s', j, h) == Carries(s, j, h))
      && forall j :: PermitOf(s', j) == PermitOf(s, j)
  {
    var s' := Apply(cfg, s, Publish(id));
    forall j ensures Live(s', j) == Live(s, j) && (Live(s, j) ==> s'.tasks[j] == s.tasks[j]) {
    }
  }

  lemma PublishSafe(cfg: Config, s: System, id: nat)
    requires Safe(cfg, s) && Enabled(s, Publish(id))
    ensures Safe(cfg, Apply(cfg, s, Publish(id)))
  {
    hide Carried, Carries, PermitsConserved, PermitOf, Counted, Staged, Apply, Enabled;
    PublishFrame(cfg, s, id);
    PublishStaged(cfg, s, id);
    CarriedFrame(s, Apply(cfg, s, Publish(id)));
    PermitsFrame(cfg, s, Apply(cfg, s, Publish(id)));
    PublishCounted(cfg, s, id);
  }

  lemma PublishStaged(cfg: Config, s: System, id: nat)
    requires Staged(s) && Enabled(s, Publish(id))
    ensures Staged(Apply(cfg, s, Publish(id)))
  {
    hide PhaseFits;
  }

  lemma PublishCounted(cfg: Config, s: System, id: nat)
    requires Counted(cfg, s) && Enabled(s, Publish(id))
    ensures Counted(cfg, Apply(cfg, s, Publish(id)))
  {
    hide NonQueuedSet, QueuedSet;
  }

  /** Every step of every interleaving keeps the invariant. */
  lemma StepSafe(cfg: Config, s: System, step: Step)
    requires Safe(cfg, s) && Enabled(s, step)
    ensures Safe(cfg, Apply(cfg, s, step))
  {
    hide Safe, SubmitSystem, TakeSystem, PromoteSystem, FinishSystem;
    match step
    case Submit(hash, owner, permit) =>
      if hash in s.table.entries { JoinSafe(cfg, s, hash, owner, permit); }
      else { AdmitSafe(cfg, s, hash, owner, permit); }
    case Send(id) => ForwardSafe(cfg, s, id, Job);
    case Dispatch(id) => ForwardSafe(cfg, s, id, Spawned);
    case Take(id) => TakeSafe(cfg, s, id);
    case Acquire(id, permit) => AcquireSafe(cfg, s, id, permit);
    case Promote(id) => PromoteSafe(cfg, s, id);
    case Finish(id) => FinishSafe(cfg, s, id);
    case Publish(id) => PublishSafe(cfg, s, id);
  }

  lemma InitialSafe(cfg: Config)
    ensures Safe(cfg, Initial(cfg))
  {
    assert NonQueuedSet(map[]) == {} && QueuedSet(map[]) == {};
  }
}
