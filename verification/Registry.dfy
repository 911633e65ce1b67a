/**
 The registry every lifecycle writes under one lock, and the bounded channel of
 sequence-stamped state events that feeds the publisher.
 */
module Registry {
  import opened Seqs
  import opened Input
  import opened Backoffs

  const EVENT_CAPACITY := 64

  datatype StateKind = Starting | Running | Backoff | Disabled | Stuck

  datatype Status = Status(name: string, state: StateKind, restarts: nat, leakedRuns: nat, lastError: Option<string>)

  /** The arguments of `transition`; `error` is `None` to leave the last error alone. */
  datatype Change = Change(state: StateKind, error: Option<Option<string>>, bump: bool)

  datatype AdapterEvent = AdapterEvent(status: Status, previous: StateKind, seqNo: nat)

  datatype Board = Board(adapters: map<string, Status>, nextSeq: nat, channel: seq<AdapterEvent>)

  predicate Observable(s: Status, c: Change) { s.state != c.state || c.error.Some? || c.bump }

  function Changed(s: Status, c: Change): Status {
    Status(s.name, c.state,
           if c.bump then Min(s.restarts + 1, U64_MAX) else s.restarts,
           if c.state == Stuck then Min(s.leakedRuns + 1, U32_MAX) else s.leakedRuns,
           if c.error.Some? then c.error.value else s.lastError)
  }

  predicate Emits(b: Board, name: string, c: Change) { name in b.adapters && Observable(b.adapters[name], c) }

  function Stamped(b: Board, name: string, c: Change): AdapterEvent
    requires Emits(b, name, c)
  {
    AdapterEvent(Changed(b.adapters[name], c), b.adapters[name].state, Min(b.nextSeq + 1, U64_MAX))
  }

  predicate HasRoom(b: Board) { |b.channel| < EVENT_CAPACITY }

  /** `transition`: stamp and enqueue under one lock, or drop the event when the backlog is full. */
  function AfterTransition(b: Board, name: string, c: Change): Board {
    if !Emits(b, name, c) then b
    else
      var e := Stamped(b, name, c);
      Board(b.adapters[name := e.status], e.seqNo, if HasRoom(b) then b.channel + [e] else b.channel)
  }

  function AfterTransitions(b: Board, name: string, cs: seq<Change>): Board
    decreases |cs|
  {
    if cs == [] then b else AfterTransitions(AfterTransition(b, name, cs[0]), name, cs[1..])
  }

  class RegistryState {
    var adapters: map<string, Status>
    var nextEventSeq: nat
    var channel: seq<AdapterEvent>

    ghost function Value(): Board
      reads this
    {
      Board(adapters, nextEventSeq, channel)
    }

    constructor (rows: map<string, Status>)
      ensures Value() == Board(rows, 0, [])
    {
      adapters, nextEventSeq, channel := rows, 0, [];
    }

    method TrySend(e: AdapterEvent) returns (delivered: bool)
      modifies this`channel
      ensures delivered == (|old(channel)| < EVENT_CAPACITY)
      ensures channel == if delivered then old(channel) + [e] else old(channel)
    {
      delivered := |channel| < EVENT_CAPACITY;
      if delivered { channel := channel + [e]; }
    }

    method Transition(name: string, state: StateKind, error: Option<Option<string>>, bump: bool)
      modifies this
      ensures Value() == AfterTransition(old(Value()), name, Change(state, error, bump))
    {
      if name !in adapters { return; }
      var status := adapters[name];
      var previous := status.state;
      if previous == state && error.None? && !bump { return; }
      status := status.(state := state);
      if bump { status := status.(restarts := Min(status.restarts + 1, U64_MAX)); }
      if state == Stuck { status := status.(leakedRuns := Min(status.leakedRuns + 1, U32_MAX)); }
      if error.Some? { status := status.(lastError := error.value); }
      adapters := adapters[name := status];
      nextEventSeq := Min(nextEventSeq + 1, U64_MAX);
      var delivered := TrySend(AdapterEvent(status, previous, nextEventSeq));
    }

    /** The publisher takes the oldest event. */
    method Receive() returns (e: Option<AdapterEvent>)
      modifies this`channel
      ensures old(channel) == [] ==> e == None && channel == []
      ensures old(channel) != [] ==> e == Some(old(channel)[0]) && channel == old(channel)[1..]
    {
      if channel == [] { return None; }
      e := Some(channel[0]);
      channel := channel[1..];
    }
  }
}
