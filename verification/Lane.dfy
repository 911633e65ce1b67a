/**
 Streaming a body from an async pump to a blocking reader through framed messages. The
 channel is the list of frames still to be received; when it runs out the pump is gone.
 */
module Lane {
  import opened Seqs
  import Texts

  type Byte = Texts.Byte
  type Bytes = seq<Byte>

  datatype Failure = Deadline | Idle | Cap | BodyError(message: string) | BrokenPipe

  datatype Frame = Data(bytes: Bytes) | Eof | Abort(failure: Failure)

  // ---- The pump ----

  /** What waiting for the next frame of the body can give. */
  datatype BodyItem = Chunk(bytes: Bytes) | Trailers | Finished | Failed(message: string) | TooLate | TooIdle

  function ItemFailure(item: BodyItem): Failure
    requires item.Failed? || item.TooLate? || item.TooIdle?
  {
    match item
    case Failed(message) => BodyError(message)
    case TooLate => Deadline
    case TooIdle => Idle
  }

  /** The frames the pump sends for a body, `count` bytes into it. A body that stops short is a pump that was lost. */
  function Pumped(items: seq<BodyItem>, cap: nat, count: nat): seq<Frame>
    decreases |items|
  {
    if items == [] then []
    else match items[0]
      case Finished => [Eof]
      case Trailers => Pumped(items[1..], cap, count)
      case Chunk(bytes) =>
        if bytes == [] then Pumped(items[1..], cap, count)
        else if count + |bytes| > cap then [Abort(Cap)]
        else [Data(bytes)] + Pumped(items[1..], cap, count + |bytes|)
      case _ => [Abort(ItemFailure(items[0]))]
  }

  /** `pump_body_with_idle`. `room` is how many frames the reader takes before it goes away. */
  method PumpBody(items: seq<BodyItem>, cap: nat, room: nat) returns (sent: seq<Frame>)
    ensures sent == Pumped(items, cap, 0)[..Min(room, |Pumped(items, cap, 0)|)]
  {
    ghost var all := Pumped(items, cap, 0);
    var count: nat, i: nat := 0, 0;
    sent := [];
    while i < |items|
      invariant 0 <= i <= |items|
      invariant all == sent + Pumped(items[i..], cap, count)
      invariant |sent| <= room
    {
      var item := items[i];
      assert items[i..][1..] == items[i + 1..];
      i := i + 1;
      match item
      case Trailers => {}
      case Finished =>
        if |sent| < room { sent := sent + [Eof]; }
        return;
      case Chunk(bytes) =>
        if bytes != [] {
          count := count + |bytes|;
          if count > cap {
            if |sent| < room { sent := sent + [Abort(Cap)]; }
            return;
          }
          if |sent| == room { return; }
          sent := sent + [Data(bytes)];
        }
      case _ =>
        if |sent| < room { sent := sent + [Abort(ItemFailure(item))]; }
        return;
    }
  }

  // ---- The reader ----

  datatype Reader = Reader(rx: seq<Frame>, rest: Bytes, eof: bool)

  datatype Got = Count(n: nat) | Fail(failure: Failure)

  datatype Fetched = Fetched(after: Reader, got: Got, bytes: Bytes)

  /** `read` into a buffer of `want` bytes. */
  function Fetch(v: Reader, want: nat): Fetched
    decreases |v.rx|
  {
    if want == 0 then Fetched(v, Count(0), [])
    else if v.rest != [] then
      var n := Min(want, |v.rest|);
      Fetched(v.(rest := v.rest[n..]), Count(n), v.rest[..n])
    else if v.eof then Fetched(v, Count(0), [])
    else if v.rx == [] then Fetched(v, Fail(BrokenPipe), [])
    else match v.rx[0]
      case Data(bytes) => Fetch(Reader(v.rx[1..], bytes, false), want)
      case Eof => Fetch(Reader(v.rx[1..], [], true), want)
      case Abort(failure) => Fetched(v.(rx := v.rx[1..]), Fail(failure), [])
  }

  class ChannelReader {
    var rx: seq<Frame>
    var chunk: Bytes
    var pos: nat
    var eof: bool

    ghost predicate Valid()
      reads this
    {
      pos <= |chunk|
    }

    ghost function Value(): Reader
      reads this
      requires Valid()
    {
      Reader(rx, chunk[pos..], eof)
    }

    constructor (rx: seq<Frame>)
      ensures Valid() && Value() == Reader(rx, [], false)
    {
      this.rx, chunk, pos, eof := rx, [], 0, false;
    }

    /** Copy what fits of the current chunk to the front of the buffer. */
    method Take(out: array<Byte>) returns (n: nat)
      requires pos < |chunk|
      modifies this`pos, out
      ensures Valid() && n == Min(out.Length, |old(chunk[pos..])|)
      ensures chunk[pos..] == old(chunk[pos..])[n..]
      ensures out[..] == old(chunk[pos..])[..n] + old(out[..])[n..]
    {
      n := Min(out.Length, |chunk| - pos);
      forall i | 0 <= i < n { out[i] := chunk[pos + i]; }
      assert out[..] == chunk[pos..][..n] + old(out[..])[n..];
      pos := pos + n;
    }

    method Read(out: array<Byte>) returns (got: Got)
      requires Valid()
      modifies this, out
      ensures Valid()
      ensures var f := Fetch(old(Value()), out.Length);
        && Value() == f.after && got == f.got
        && |f.bytes| <= out.Length && out[..] == f.bytes + old(out[..])[|f.bytes|..]
    {
      if out.Length == 0 { return Count(0); }
      ghost var goal := Fetch(Value(), out.Length);
      while true
        invariant Valid() && out[..] == old(out[..])
        invariant Fetch(Value(), out.Length) == goal
        decreases |rx|, !eof
      {
        if pos < |chunk| {
          var n := Take(out);
          return Count(n);
        }
        if eof { return Count(0); }
        if rx == [] { return Fail(BrokenPipe); }
        var frame := rx[0];
        rx := rx[1..];
        match frame
        case Data(bytes) => chunk, pos := bytes, 0;
        case Eof => eof := true;
        case Abort(failure) => return Fail(failure);
      }
    }
  }
}
