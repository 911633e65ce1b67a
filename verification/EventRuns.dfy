/** Every interleaving of transitions by any lifecycles with the publisher's receives. */
module EventRuns {
  import opened Seqs
  import opened Input
  import opened Registry

  /** What was stamped, and whether the backlog had room for it. */
  datatype Entry = Entry(event: AdapterEvent, delivered: bool)

  datatype World = World(board: Board, log: seq<Entry>, received: seq<AdapterEvent>)

  datatype Op = Transition(name: string, change: Change) | Receive

  function Start(rows: map<string, Status>): World { World(Board(rows, 0, []), [], []) }

  function Step(w: World, op: Op): World {
    match op
    case Transition(name, c) =>
      var log := if Emits(w.board, name, c) then w.log + [Entry(Stamped(w.board, name, c), HasRoom(w.board))] else w.log;
      World(AfterTransition(w.board, name, c), log, w.received)
    case Receive =>
      if w.board.channel == [] then w
      else w.(board := w.board.(channel := w.board.channel[1..]), received := w.received + [w.board.channel[0]])
  }

  function Run(w: World, ops: seq<Op>): World
    decreases |ops|
  {
    if ops == [] then w else Run(Step(w, ops[0]), ops[1..])
  }

  function Kept(log: seq<Entry>): seq<AdapterEvent> {
    if log == [] then []
    else Kept(log[..|log| - 1]) + (if log[|log| - 1].delivered then [log[|log| - 1].event] else [])
  }

  /** A subscriber's view after seeing every stamped event. */
  function Replay(rows: map<string, Status>, log: seq<Entry>): map<string, Status> {
    if log == [] then rows
    else
      var s := log[|log| - 1].event.status;
      Replay(rows, log[..|log| - 1])[s.name := s]
  }

  ghost predicate WellNamed(rows: map<string, Status>) {
    forall n | n in rows :: rows[n].name == n
  }

  ghost predicate NumberedFrom1(log: seq<Entry>) {
    forall i | 0 <= i < |log| :: log[i].event.seqNo == Min(i + 1, U64_MAX)
  }

  ghost predicate Accounted(rows: map<string, Status>, w: World) {
    && w.board.nextSeq == Min(|w.log|, U64_MAX)
    && NumberedFrom1(w.log)
    && w.received + w.board.channel == Kept(w.log)
    && WellNamed(w.board.adapters)
    && Replay(rows, w.log) == w.board.adapters
    && |w.board.channel| <= EVENT_CAPACITY
  }

  lemma LogAppend(rows: map<string, Status>, log: seq<Entry>, e: Entry)
    ensures Kept(log + [e]) == Kept(log) + if e.delivered then [e.event] else []
    ensures Replay(rows, log + [e]) == Replay(rows, log)[e.event.status.name := e.event.status]
  {
    assert (log + [e])[..|log|] == log;
  }

  lemma StepAccounted(rows: map<string, Status>, w: World, op: Op)
    requires Accounted(rows, w)
    ensures Accounted(rows, Step(w, op))
  {
    hide Kept, Replay;
    match op
    case Transition(name, c) =>
      if Emits(w.board, name, c) {
        LogAppend(rows, w.log, Entry(Stamped(w.board, name, c), HasRoom(w.board)));
      }
    case Receive =>
      if w.board.channel != [] {
        assert w.board.channel == [w.board.channel[0]] + w.board.channel[1..];
      }
  }

  lemma {:induction false} RunAccounted(rows: map<string, Status>, w: World, ops: seq<Op>)
    requires Accounted(rows, w)
    ensures Accounted(rows, Run(w, ops))
    decreases |ops|
  {
    hide Accounted, Step;
    if ops != [] {
      StepAccounted(rows, w, ops[0]);
      RunAccounted(rows, Step(w, ops[0]), ops[1..]);
    }
  }

  /** The registry is the replay of every stamped event, and `n` events carry the numbers 1, 2, … n. */
  lemma RegistryIsReplay(rows: map<string, Status>, ops: seq<Op>)
    requires WellNamed(rows)
    ensures var w := Run(Start(rows), ops);
      && Replay(rows, w.log) == w.board.adapters
      && w.board.nextSeq == Min(|w.log|, U64_MAX)
      && NumberedFrom1(w.log)
  {
    RunAccounted(rows, Start(rows), ops);
  }

  // ---- What each event says ----

  /** The event names an adapter, and the state it was in after the event before, or at the start. */
  ghost predicate Continues(rows: map<string, Status>, log: seq<Entry>, i: nat)
    requires i < |log|
  {
    var before, e := Replay(rows, log[..i]), log[i].event;
    e.status.name in before && e.previous == before[e.status.name].state
  }

  ghost predicate Chained(rows: map<string, Status>, log: seq<Entry>) {
    forall i: nat | i < |log| :: Continues(rows, log, i)
  }

  lemma ChainedAppend(rows: map<string, Status>, log: seq<Entry>, e: Entry)
    requires Chained(rows, log)
    requires var before := Replay(rows, log); e.event.status.name in before && e.event.previous == before[e.event.status.name].state
    ensures Chained(rows, log + [e])
  {
    hide Replay;
    var more := log + [e];
    forall i: nat | i < |more| ensures Continues(rows, more, i) {
      if i < |log| {
        assert Continues(rows, log, i);
        assert more[..i] == log[..i];
      } else {
        assert more[..i] == log;
      }
    }
  }

  lemma {:induction false} RunChained(rows: map<string, Status>, w: World, ops: seq<Op>)
    requires Accounted(rows, w) && Chained(rows, w.log)
    ensures Chained(rows, Run(w, ops).log)
    decreases |ops|
  {
    hide Chained, Kept, Replay;
    if ops != [] {
      StepAccounted(rows, w, ops[0]);
      if ops[0].Transition? && Emits(w.board, ops[0].name, ops[0].change) {
        var e := Entry(Stamped(w.board, ops[0].name, ops[0].change), HasRoom(w.board));
        ChainedAppend(rows, w.log, e);
      }
      RunChained(rows, Step(w, ops[0]), ops[1..]);
    }
  }

  /** In every interleaving, the previous state an event reports is that of the adapter's preceding event, or of its
      initial row. */
  lemma PreviousIsPreceding(rows: map<string, Status>, ops: seq<Op>)
    requires WellNamed(rows)
    ensures Chained(rows, Run(Start(rows), ops).log)
  {
    hide Run;
    StartAccounted(rows);
    RunChained(rows, Start(rows), ops);
  }

  /** In every interleaving, a transition of a known adapter is stamped iff it changes the state, sets the error or
      counts a relaunch; and it is dropped iff as many events as the channel holds were delivered and not yet taken. */
  lemma StampedAndDroppedExactly(rows: map<string, Status>, ops: seq<Op>, name: string, c: Change)
    requires WellNamed(rows) && name in Run(Start(rows), ops).board.adapters
    ensures var w := Run(Start(rows), ops);
      var w' := Step(w, Transition(name, c));
      var row := w.board.adapters[name];
      if row.state == c.state && c.error == None && !c.bump then w' == w
      else
        && |w'.log| == |w.log| + 1 && w'.log[..|w.log|] == w.log
        && w'.log[|w.log|].event.status == w'.board.adapters[name]
        && (w'.log[|w.log|].delivered <==> |Kept(w.log)| - |w.received| < 64)
  {
    hide Run, Kept, Replay;
    StartAccounted(rows);
    RunAccounted(rows, Start(rows), ops);
    var w := Run(Start(rows), ops);
    assert |w.received + w.board.channel| == |Kept(w.log)|;
  }

  /** In every interleaving, a receive takes the oldest delivered event not yet taken, if there is one. */
  lemma ReceiveTakesNext(rows: map<string, Status>, ops: seq<Op>)
    requires WellNamed(rows)
    ensures var w := Run(Start(rows), ops);
      var taken, kept := Step(w, Receive).received, Kept(w.log);
      && |w.received| <= |kept| && w.received == kept[..|w.received|]
      && taken == if |w.received| < |kept| then kept[..|w.received| + 1] else w.received
  {
    hide Run, Kept, Replay;
    StartAccounted(rows);
    RunAccounted(rows, Start(rows), ops);
  }

  // ---- What the receiver can conclude ----

  ghost predicate Ascending(es: seq<AdapterEvent>) {
    forall i, j | 0 <= i < j < |es| :: es[i].seqNo < es[j].seqNo
  }

  ghost predicate Carries(es: seq<AdapterEvent>, k: nat) {
    exists i :: 0 <= i < |es| && es[i].seqNo == k
  }

  /** Delivered events ascend. */
  lemma {:induction false} KeptAscends(log: seq<Entry>)
    requires NumberedFrom1(log) && |log| <= U64_MAX
    ensures Ascending(Kept(log))
    ensures forall i | 0 <= i < |Kept(log)| :: 1 <= Kept(log)[i].seqNo <= |log|
  {
    if log != [] { KeptAscends(log[..|log| - 1]); }
  }

  /** A number is carried exactly when its entry was delivered. */
  lemma {:induction false} KeptCarries(log: seq<Entry>, k: nat)
    requires NumberedFrom1(log) && |log| <= U64_MAX && k < |log|
    ensures Carries(Kept(log), k + 1) <==> log[k].delivered
  {
    hide Ascending;
    var front, last := log[..|log| - 1], log[|log| - 1];
    CarriesAppend(Kept(front), last.event, k + 1);
    assert Kept(log) == if last.delivered then Kept(front) + [last.event] else Kept(front);
    if k < |front| { KeptCarries(front, k); } else { KeptAscends(front); }
  }

  lemma CarriesAppend(es: seq<AdapterEvent>, e: AdapterEvent, k: nat)
    ensures Carries(es + [e], k) <==> Carries(es, k) || e.seqNo == k
  {
    assert (es + [e])[|es|] == e;
    if Carries(es, k) {
      var i :| 0 <= i < |es| && es[i].seqNo == k;
      assert (es + [e])[i].seqNo == k;
    }
  }

  /** Events leave the channel in strictly increasing order, and a number the receiver has passed without seeing is
      exactly one the full backlog dropped. */
  lemma GapsAreDrops(rows: map<string, Status>, ops: seq<Op>, k: nat)
    requires WellNamed(rows) && |Run(Start(rows), ops).log| <= U64_MAX
    ensures var w := Run(Start(rows), ops);
      && Ascending(w.received + w.board.channel)
      && (w.received != [] && 1 <= k <= w.received[|w.received| - 1].seqNo ==>
          k <= |w.log| && (Carries(w.received, k) <==> w.log[k - 1].delivered))
  {
    hide Run, Kept, Replay, Ascending, Carries;
    RunAccounted(rows, Start(rows), ops) by { StartAccounted(rows); }
    var w := Run(Start(rows), ops);
    KeptAscends(w.log);
    if w.received != [] && 1 <= k <= w.received[|w.received| - 1].seqNo {
      var all, last := w.received + w.board.channel, |w.received| - 1;
      assert all[last] == w.received[last];
      KeptCarries(w.log, k - 1);
      PassedNumbers(w.received, w.board.channel, k);
    }
  }

  lemma StartAccounted(rows: map<string, Status>)
    requires WellNamed(rows)
    ensures Accounted(rows, Start(rows))
  {
  }

  /** A number the receiver has passed is not still on its way. */
  lemma PassedNumbers(received: seq<AdapterEvent>, channel: seq<AdapterEvent>, k: nat)
    requires Ascending(received + channel) && received != [] && k <= received[|received| - 1].seqNo
    ensures Carries(received, k) <==> Carries(received + channel, k)
  {
    var all, last := received + channel, |received| - 1;
    assert all[last] == received[last];
    if Carries(all, k) {
      var i :| 0 <= i < |all| && all[i].seqNo == k;
      assert i <= last;
      assert received[i].seqNo == k;
    }
    if Carries(received, k) {
      var i :| 0 <= i < |received| && received[i].seqNo == k;
      assert all[i].seqNo == k;
    }
  }

  ghost predicate UniqueStamps(log: seq<Entry>) {
    forall i, j | 0 <= i < j < |log| :: log[i].event.seqNo != log[j].event.seqNo
  }

  lemma UniqueUntilSaturation(rows: map<string, Status>, w: World)
    requires Accounted(rows, w)
    ensures UniqueStamps(w.log) <==> |w.log| <= U64_MAX
  {
    hide Kept, Replay;
    if |w.log| > U64_MAX {
      assert w.log[U64_MAX - 1].event.seqNo == w.log[U64_MAX].event.seqNo;
    }
  }

  /** Stamped numbers are all different exactly until the counter saturates. */
  lemma StampsAreUniqueUntilSaturation(rows: map<string, Status>, ops: seq<Op>)
    requires WellNamed(rows)
    ensures UniqueStamps(Run(Start(rows), ops).log) <==> |Run(Start(rows), ops).log| <= U64_MAX
  {
    hide Run, UniqueStamps, Accounted;
    StartAccounted(rows);
    RunAccounted(rows, Start(rows), ops);
    UniqueUntilSaturation(rows, Run(Start(rows), ops));
  }

  /** A receiver that has seen as many events as the counter says holds the registry. */
  lemma NoGapMeansCaughtUp(rows: map<string, Status>, ops: seq<Op>)
    requires WellNamed(rows)
    requires var w := Run(Start(rows), ops); |w.received| == w.board.nextSeq < U64_MAX
    ensures var w := Run(Start(rows), ops); ReplayEvents(rows, w.received) == w.board.adapters
  {
    var w := Run(Start(rows), ops);
    RunAccounted(rows, Start(rows), ops);
    FullLogKept(rows, w.log);
    assert |w.received + w.board.channel| == |Kept(w.log)|;
    assert w.received == w.received + w.board.channel;
  }

  function ReplayEvents(rows: map<string, Status>, es: seq<AdapterEvent>): map<string, Status> {
    if es == [] then rows
    else
      var s := es[|es| - 1].status;
      ReplayEvents(rows, es[..|es| - 1])[s.name := s]
  }

  lemma {:induction false} FullLogKept(rows: map<string, Status>, log: seq<Entry>)
    ensures |Kept(log)| <= |log|
    ensures |Kept(log)| == |log| ==> ReplayEvents(rows, Kept(log)) == Replay(rows, log)
  {
    if log != [] {
      var front := log[..|log| - 1];
      FullLogKept(rows, front);
      if |Kept(log)| == |log| { assert Kept(log)[..|log| - 1] == Kept(front); }
    }
  }
}
