/**
 Single-flight fetch admission. `Table` is what the state lock guards; its four
 critical sections are functions here and methods of class `FetchTable`. `System` adds
 what lives outside the lock: jobs on their way to the dispatcher and one task per job.
 */
module Fetch {
  import opened Seqs

  type Hash = nat
  type Owner = nat
  type Permit = nat

  datatype Config = Config(maxConcurrent: nat, queueMax: nat)

  datatype Entry = Entry(owners: seq<Owner>, queued: bool, permit: Option<Permit>)

  /** `free` is the semaphore: the permits nobody holds. */
  datatype Table = Table(entries: map<Hash, Entry>, running: nat, free: set<Permit>)

  datatype SubmitOutcome = Started | Queued | Joined(queued: bool) | Busy

  function QueuedSet(entries: map<Hash, Entry>): set<Hash> {
    set h | h in entries && entries[h].queued
  }

  function NonQueuedSet(entries: map<Hash, Entry>): set<Hash> {
    set h | h in entries && !entries[h].queued
  }

  // ---- The critical sections ----

  /** `submit_inner`; `permit` is the one `try_acquire` would give. */
  function SubmitTable(cfg: Config, t: Table, hash: Hash, owner: Owner, permit: Permit): (Table, SubmitOutcome) {
    if hash in t.entries then
      var entry := t.entries[hash];
      (t.(entries := t.entries[hash := entry.(owners := entry.owners + [owner])]), Joined(entry.queued))
    else if t.free != {} then
      (Table(t.entries[hash := Entry([owner], false, Some(permit))], t.running + 1, t.free - {permit}), Started)
    else if |QueuedSet(t.entries)| >= cfg.queueMax then (t, Busy)
    else (t.(entries := t.entries[hash := Entry([owner], true, None)]), Queued)
  }

  /** `entry.permit.take()`: `None` when there is no entry. */
  function TakeTable(t: Table, hash: Hash): (Table, Option<Option<Permit>>) {
    if hash !in t.entries then (t, None)
    else (t.(entries := t.entries[hash := t.entries[hash].(permit := None)]), Some(t.entries[hash].permit))
  }

  /** Promotion of an entry that holds a permit; false when there is no entry. */
  function PromoteTable(t: Table, hash: Hash): (Table, bool) {
    if hash !in t.entries then (t, false)
    else
      var entry := t.entries[hash];
      (Table(t.entries[hash := entry.(queued := false)], if entry.queued then t.running + 1 else t.running, t.free), true)
  }

  /** Completion: the entry goes, the gauge drops (saturating), the permit returns. */
  function FinishTable(t: Table, hash: Hash, permit: Permit): (Table, seq<Owner>) {
    (Table(t.entries - {hash}, if t.running == 0 then 0 else t.running - 1, t.free + {permit}),
     if hash in t.entries then t.entries[hash].owners else [])
  }

  class FetchTable {
    var entries: map<Hash, Entry>
    var running: nat
    var free: set<Permit>
    const cfg: Config

    ghost function Value(): Table
      reads this
    {
      Table(entries, running, free)
    }

    constructor (cfg: Config)
      ensures this.cfg == cfg
      ensures Value() == Table(map[], 0, AllPermits(cfg))
    {
      this.cfg := cfg;
      entries, running, free := map[], 0, AllPermits(cfg);
    }

    method Submit(hash: Hash, owner: Owner) returns (outcome: SubmitOutcome, ghost permit: Permit)
      modifies this
      ensures old(free) != {} ==> permit in old(free)
      ensures (Value(), outcome) == SubmitTable(cfg, old(Value()), hash, owner, permit)
    {
      permit := 0;
      if hash in entries {
        var entry := entries[hash];
        entries := entries[hash := entry.(owners := entry.owners + [owner])];
        if free != {} { permit :| permit in free; }
        return Joined(entry.queued), permit;
      }
      var taken: Option<Permit> := None;
      if free != {} {
        var p :| p in free;
        permit := p;
        free := free - {p};
        taken := Some(p);
      }
      if taken.None? {
        var queuedCount := |QueuedSet(entries)|;
        if queuedCount >= cfg.queueMax { return Busy, permit; }
      }
      if taken.Some? { running := running + 1; }
      entries := entries[hash := Entry([owner], taken.None?, taken)];
      outcome := if taken.Some? then Started else Queued;
    }

    method TakePermit(hash: Hash) returns (r: Option<Option<Permit>>)
      modifies this
      ensures (Value(), r) == TakeTable(old(Value()), hash)
    {
      if hash !in entries { return None; }
      var entry := entries[hash];
      entries := entries[hash := entry.(permit := None)];
      r := Some(entry.permit);
    }

    method Promote(hash: Hash) returns (found: bool)
      modifies this
      ensures (Value(), found) == PromoteTable(old(Value()), hash)
    {
      if hash !in entries { return false; }
      var promoted := entries[hash].queued;
      entries := entries[hash := entries[hash].(queued := false)];
      if promoted { running := running + 1; }
      found := true;
    }

    method Finish(hash: Hash, permit: Permit) returns (owners: seq<Owner>)
      modifies this
      ensures (Value(), owners) == FinishTable(old(Value()), hash, permit)
    {
      owners := if hash in entries then entries[hash].owners else [];
      entries := entries - {hash};
      running := if running == 0 then 0 else running - 1;
      free := free + {permit};
    }
  }

  // ---- The system around the lock ----

  /** Where an admitted fetch stands: its job unsent (the submitter has released the lock), its job in the
      channel, or its `run_fetch` task at one of its lock or await boundaries. Jobs may be taken in any order. */
  datatype Phase =
    | Unsent
    | Job
    | Spawned
    | WaitingForSlot
    | Holding(permit: Permit)
    | Downloading(permit: Permit)
    | Completing(owners: seq<Owner>)

  datatype Task = Task(hash: Hash, phase: Phase)

  /** `accepted` and `delivered` count the owners `submit` accepted and the owners of published completions. */
  datatype System = System(
    table: Table,
    tasks: map<nat, Task>,
    nextTask: nat,
    accepted: multiset<Owner>,
    delivered: multiset<Owner>)

  datatype Step =
    | Submit(hash: Hash, owner: Owner, permit: Permit)
    | Send(id: nat)
    | Dispatch(id: nat)
    | Take(id: nat)
    | Acquire(id: nat, permit: Permit)
    | Promote(id: nat)
    | Finish(id: nat)
    | Publish(id: nat)

  function Below(n: nat): (r: set<nat>)
    ensures |r| == n && forall p :: p in r <==> 0 <= p < n
  {
    if n == 0 then {} else Below(n - 1) + {n - 1}
  }

  function AllPermits(cfg: Config): set<Permit> {
    Below(cfg.maxConcurrent)
  }

  function Initial(cfg: Config): System {
    System(Table(map[], 0, AllPermits(cfg)), map[], 0, multiset{}, multiset{})
  }

  predicate Enabled(s: System, step: Step) {
    match step
    case Submit(_, _, permit) => s.table.free != {} ==> permit in s.table.free
    case Send(id) => id in s.tasks && s.tasks[id].phase.Unsent?
    case Dispatch(id) => id in s.tasks && s.tasks[id].phase.Job?
    case Take(id) => id in s.tasks && s.tasks[id].phase.Spawned?
    case Acquire(id, permit) => id in s.tasks && s.tasks[id].phase.WaitingForSlot? && permit in s.table.free
    case Promote(id) => id in s.tasks && s.tasks[id].phase.Holding?
    case Finish(id) => id in s.tasks && s.tasks[id].phase.Downloading?
    case Publish(id) => id in s.tasks && s.tasks[id].phase.Completing?
  }

  function SetPhase(s: System, id: nat, phase: Phase): System
    requires id in s.tasks
  {
    s.(tasks := s.tasks[id := Task(s.tasks[id].hash, phase)])
  }

  function Drop(s: System, id: nat): System {
    s.(tasks := s.tasks - {id})
  }

  function SubmitSystem(cfg: Config, s: System, hash: Hash, owner: Owner, permit: Permit): System {
    var (table, outcome) := SubmitTable(cfg, s.table, hash, owner, permit);
    match outcome
    case Busy => s
    case Joined(_) => s.(table := table, accepted := s.accepted + multiset{owner})
    case _ =>
      s.(table := table, accepted := s.accepted + multiset{owner},
         tasks := s.tasks[s.nextTask := Task(hash, Unsent)], nextTask := s.nextTask + 1)
  }

  /** The early return when the entry is gone drops the task. */
  function TakeSystem(s: System, id: nat): System
    requires id in s.tasks
  {
    var (table, taken) := TakeTable(s.table, s.tasks[id].hash);
    match taken
    case None => Drop(s, id)
    case Some(None) => SetPhase(s, id, WaitingForSlot).(table := table)
    case Some(Some(permit)) => SetPhase(s, id, Holding(permit)).(table := table)
  }

  /** The early return when the entry is gone drops the task and its permit. */
  function PromoteSystem(s: System, id: nat): System
    requires id in s.tasks && s.tasks[id].phase.Holding?
  {
    var permit := s.tasks[id].phase.permit;
    var (table, found) := PromoteTable(s.table, s.tasks[id].hash);
    if found then SetPhase(s, id, Downloading(permit)).(table := table)
    else Drop(s, id).(table := table.(free := table.free + {permit}))
  }

  function FinishSystem(s: System, id: nat): System
    requires id in s.tasks && s.tasks[id].phase.Downloading?
  {
    var (table, owners) := FinishTable(s.table, s.tasks[id].hash, s.tasks[id].phase.permit);
    SetPhase(s, id, Completing(owners)).(table := table)
  }

  function Apply(cfg: Config, s: System, step: Step): System
    requires Enabled(s, step)
  {
    match step
    case Submit(hash, owner, permit) => SubmitSystem(cfg, s, hash, owner, permit)
    case Send(id) => SetPhase(s, id, Job)
    case Dispatch(id) => SetPhase(s, id, Spawned)
    case Take(id) => TakeSystem(s, id)
    case Acquire(id, permit) =>
      SetPhase(s, id, Holding(permit)).(table := s.table.(free := s.table.free - {permit}))
    case Promote(id) => PromoteSystem(s, id)
    case Finish(id) => FinishSystem(s, id)
    case Publish(id) =>
      Drop(s, id).(delivered := s.delivered + multiset(s.tasks[id].phase.owners))
  }
}
