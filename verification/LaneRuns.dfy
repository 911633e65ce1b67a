/** Whole streams: any body, any cap, a pump that may be lost anywhere, any buffer sizes. */
module LaneRuns {
  import opened Seqs
  import opened Lane

  // ---- What a frame sequence carries ----

  function Payload(frames: seq<Frame>): Bytes {
    if frames == [] then []
    else Payload(frames[..|frames| - 1]) + (if frames[|frames| - 1].Data? then frames[|frames| - 1].bytes else [])
  }

  lemma PayloadPush(a: seq<Frame>, f: Frame)
    ensures Payload(a + [f]) == Payload(a) + if f.Data? then f.bytes else []
  {
    assert (a + [f])[..|a|] == a;
  }

  lemma {:induction false} PayloadConcat(a: seq<Frame>, b: seq<Frame>)
    ensures Payload(a + b) == Payload(a) + Payload(b)
    decreases |b|
  {
    hide Payload;
    if b == [] {
      assert a + b == a;
      PayloadNothing();
    } else {
      var front, last := b[..|b| - 1], b[|b| - 1];
      PayloadConcat(a, front);
      PayloadPush(a + front, last);
      PayloadPush(front, last);
      assert a + b == a + front + [last] && b == front + [last];
    }
  }

  lemma PayloadNothing()
    ensures Payload([]) == []
  {
  }

  lemma PayloadOne(f: Frame)
    ensures Payload([f]) == if f.Data? then f.bytes else []
  {
    assert Payload([f]) == Payload([]) + if f.Data? then f.bytes else [];
  }

  // ---- Any frames, any buffer sizes ----

  datatype Session = Session(reader: Reader, out: Bytes, last: Option<Got>)

  function Open(frames: seq<Frame>): Session { Session(Reader(frames, [], false), [], None) }

  function Reads(s: Session, wants: seq<nat>): Session
    decreases |wants|
  {
    if wants == [] then s
    else
      var f := Fetch(s.reader, wants[0]);
      Reads(Session(f.after, s.out + f.bytes, Some(f.got)), wants[1..])
  }

  /** Everything received so far is `seen`; the end was reached only through an explicit `Eof`. */
  ghost predicate Fits(frames: seq<Frame>, seen: seq<Frame>, v: Reader, out: Bytes) {
    && frames == seen + v.rx
    && out + v.rest == Payload(seen)
    && (v.eof ==> seen != [] && seen[|seen| - 1] == Eof)
  }

  /** The reader after receiving the next frame. */
  function Received(v: Reader): Reader
    requires v.rx != []
  {
    match v.rx[0]
    case Data(bytes) => Reader(v.rx[1..], bytes, v.eof)
    case Eof => Reader(v.rx[1..], v.rest, true)
    case Abort(_) => Reader(v.rx[1..], v.rest, v.eof)
  }

  lemma ReceiveFits(frames: seq<Frame>, seen: seq<Frame>, v: Reader, out: Bytes)
    requires Fits(frames, seen, v, out) && v.rx != [] && v.rest == [] && !v.eof
    ensures Fits(frames, seen + [v.rx[0]], Received(v), out)
  {
    hide Payload;
    PayloadConcat(seen, [v.rx[0]]);
    PayloadOne(v.rx[0]);
    assert out + [] == out;
    assert frames == seen + [v.rx[0]] + v.rx[1..];
  }

  lemma TakeFits(frames: seq<Frame>, seen: seq<Frame>, v: Reader, out: Bytes, n: nat)
    requires Fits(frames, seen, v, out) && n <= |v.rest|
    ensures Fits(frames, seen, v.(rest := v.rest[n..]), out + v.rest[..n])
  {
    hide Payload;
    assert out + v.rest[..n] + v.rest[n..] == out + v.rest;
  }

  lemma {:induction false} FetchFits(frames: seq<Frame>, seen: seq<Frame>, v: Reader, out: Bytes, want: nat) returns (seen': seq<Frame>)
    requires Fits(frames, seen, v, out)
    ensures var f := Fetch(v, want);
      && Fits(frames, seen', f.after, out + f.bytes)
      && (want > 0 && f.got == Count(0) ==> f.after.eof && f.after.rest == [])
    decreases |v.rx|
  {
    hide Fits;
    seen' := seen;
    assert out + [] == out;
    if want > 0 && v.rest != [] {
      TakeFits(frames, seen, v, out, Min(want, |v.rest|));
    } else if want > 0 && !v.eof && v.rx != [] {
      seen' := seen + [v.rx[0]];
      ReceiveFits(frames, seen, v, out);
      if !v.rx[0].Abort? { seen' := FetchFits(frames, seen', Received(v), out, want); }
    }
  }

  lemma {:induction false} ReadsFit(frames: seq<Frame>, seen: seq<Frame>, s: Session, wants: seq<nat>) returns (seen': seq<Frame>)
    requires Fits(frames, seen, s.reader, s.out)
    ensures var s' := Reads(s, wants);
      && Fits(frames, seen', s'.reader, s'.out)
      && (wants != [] && wants[|wants| - 1] > 0 && s'.last == Some(Count(0)) ==> s'.reader.eof && s'.reader.rest == [])
    decreases |wants|
  {
    hide Fits, Fetch;
    seen' := seen;
    if wants != [] {
      seen' := FetchFits(frames, seen, s.reader, s.out, wants[0]);
      var f := Fetch(s.reader, wants[0]);
      var next := Session(f.after, s.out + f.bytes, Some(f.got));
      seen' := ReadsFit(frames, seen', next, wants[1..]);
    }
  }

  /** For any frames and any buffer sizes, the reader's output is a prefix of the concatenated data frames. */
  lemma OutputIsPrefix(frames: seq<Frame>, wants: seq<nat>)
    ensures var out := Reads(Open(frames), wants).out; |out| <= |Payload(frames)| && out == Payload(frames)[..|out|]
  {
    hide Reads, Payload;
    var seen := ReadsFit(frames, [], Open(frames), wants) by { OpenFits(frames); }
    var s := Reads(Open(frames), wants);
    PayloadConcat(seen, s.reader.rx);
    assert Payload(frames) == s.out + s.reader.rest + Payload(s.reader.rx);
  }

  // ---- What the pump's frames say about the body ----

  /** The chunks up to the end of the body, in whatever way it ends. */
  function BodyBytes(items: seq<BodyItem>): Bytes {
    if items == [] then []
    else match items[0]
      case Chunk(bytes) => bytes + BodyBytes(items[1..])
      case Trailers => BodyBytes(items[1..])
      case _ => []
  }

  /** The body ends, and not by an error or a timeout. */
  predicate CleanEnd(items: seq<BodyItem>) {
    items != [] && match items[0]
    case Chunk(_) => CleanEnd(items[1..])
    case Trailers => CleanEnd(items[1..])
    case Finished => true
    case _ => false
  }

  /** What `frames` say about a body `whole`, sent `count` bytes in: the end is marked only after all of it. */
  ghost predicate Marks(frames: seq<Frame>, whole: Bytes, clean: bool, cap: nat, count: nat) {
    && (Eof in frames <==> clean && count + |whole| <= cap)
    && (Eof in frames ==> frames[|frames| - 1] == Eof && Payload(frames) == whole)
    && (forall i | 0 <= i < |frames| - 1 :: frames[i].Data?)
    && count + |Payload(frames)| <= cap
  }

  lemma MarksAfterData(bytes: Bytes, frames: seq<Frame>, whole: Bytes, clean: bool, cap: nat, count: nat)
    requires Marks(frames, whole, clean, cap, count + |bytes|)
    ensures Marks([Data(bytes)] + frames, bytes + whole, clean, cap, count)
  {
    hide Payload;
    PayloadConcat([Data(bytes)], frames);
    PayloadOne(Data(bytes));
    assert Eof in [Data(bytes)] + frames <==> Eof in frames;
  }

  lemma MarksEnd(frame: Frame, whole: Bytes, clean: bool, cap: nat, count: nat)
    requires count <= cap && !frame.Data?
    requires if frame.Eof? then clean && whole == [] else !clean || count + |whole| > cap
    ensures Marks([frame], whole, clean, cap, count)
  {
    PayloadOne(frame);
  }

  /** The pump marks the end exactly when the body ended cleanly within the cap, and then after all of it; nothing
      follows the mark. */
  lemma {:induction false} PumpMarksWholeBody(items: seq<BodyItem>, cap: nat, count: nat)
    requires count <= cap
    ensures Marks(Pumped(items, cap, count), BodyBytes(items), CleanEnd(items), cap, count)
    decreases |items|
  {
    if items != [] {
      hide Marks;
      match items[0]
      case Finished => MarksEnd(Eof, [], true, cap, count);
      case Trailers => PumpMarksWholeBody(items[1..], cap, count);
      case Chunk(bytes) =>
        if bytes == [] {
          PumpMarksWholeBody(items[1..], cap, count);
          assert bytes + BodyBytes(items[1..]) == BodyBytes(items[1..]);
        } else if count + |bytes| > cap {
          MarksEnd(Abort(Cap), BodyBytes(items), CleanEnd(items), cap, count);
        } else {
          PumpMarksWholeBody(items[1..], cap, count + |bytes|);
          MarksAfterData(bytes, Pumped(items[1..], cap, count + |bytes|), BodyBytes(items[1..]), CleanEnd(items[1..]), cap, count);
        }
      case _ => MarksEnd(Abort(ItemFailure(items[0])), [], false, cap, count);
    }
  }

  /** How a body that does not end cleanly ends: by an error or a timeout, or with the pump. */
  function BodyFailure(items: seq<BodyItem>): Failure {
    if items == [] then BrokenPipe
    else match items[0]
      case Chunk(_) => BodyFailure(items[1..])
      case Trailers => BodyFailure(items[1..])
      case Failed(message) => BodyError(message)
      case TooLate => Deadline
      case TooIdle => Idle
      case Finished => BrokenPipe
  }

  /** Unless it marks the end, the pump fails the stream: over the cap iff the body is, and otherwise as the body does. */
  lemma {:induction false} PumpFailsExactly(items: seq<BodyItem>, cap: nat, count: nat)
    requires count <= cap && !(CleanEnd(items) && count + |BodyBytes(items)| <= cap)
    ensures Failing(Pumped(items, cap, count)) == if count + |BodyBytes(items)| > cap then Cap else BodyFailure(items)
    decreases |items|
  {
    if items != [] {
      match items[0]
      case Trailers => PumpFailsExactly(items[1..], cap, count);
      case Chunk(bytes) =>
        if count + |bytes| <= cap {
          PumpFailsExactly(items[1..], cap, count + |bytes|);
          var rest := Pumped(items[1..], cap, count + |bytes|);
          assert ([Data(bytes)] + rest)[1..] == rest;
        }
      case _ =>
    }
  }

  /** Clean end of file means the exact body: whatever the body, the cap, the point where the pump is lost and the
      buffer sizes, a read of nothing into a non-empty buffer comes only after the body ended cleanly within the cap,
      and then every byte of it has been read. */
  lemma CleanEofMeansExactBody(items: seq<BodyItem>, cap: nat, room: nat, wants: seq<nat>)
    requires room <= |Pumped(items, cap, 0)|
    requires wants != [] && wants[|wants| - 1] > 0
    requires Reads(Open(Pumped(items, cap, 0)[..room]), wants).last == Some(Count(0))
    ensures CleanEnd(items)
    ensures Reads(Open(Pumped(items, cap, 0)[..room]), wants).out == BodyBytes(items)
    ensures |BodyBytes(items)| <= cap && room == |Pumped(items, cap, 0)|
  {
    hide Reads, Payload, Pumped, CleanEnd, BodyBytes;
    var all := Pumped(items, cap, 0);
    var frames := all[..room];
    var seen := ReadsFit(frames, [], Open(frames), wants) by { OpenFits(frames); }
    var s := Reads(Open(frames), wants);
    PumpMarksWholeBody(items, cap, 0);
    var i := |seen| - 1;
    assert all[i] == frames[i] == seen[i] == Eof;
    assert seen == all;
  }

  lemma OpenFits(frames: seq<Frame>)
    ensures Fits(frames, [], Open(frames).reader, [])
  {
  }

  // ---- What each read decides ----

  /** The bytes still to come before the stream ends in any way. */
  function Ahead(frames: seq<Frame>): Bytes {
    if frames == [] || !frames[0].Data? then [] else frames[0].bytes + Ahead(frames[1..])
  }

  predicate EndsClean(frames: seq<Frame>) {
    frames != [] && (frames[0].Eof? || (frames[0].Data? && EndsClean(frames[1..])))
  }

  /** How a stream that does not end cleanly fails. */
  function Failing(frames: seq<Frame>): Failure {
    if frames == [] || frames[0].Eof? then BrokenPipe
    else if frames[0].Abort? then frames[0].failure
    else Failing(frames[1..])
  }

  function ReaderAhead(v: Reader): Bytes { v.rest + if v.eof then [] else Ahead(v.rx) }

  predicate ReaderEndsClean(v: Reader) { v.eof || EndsClean(v.rx) }

  /** A read into a non-empty buffer delivers the next bytes while there are any; after the last it reports the end
      exactly when the frames end in `Eof`, and an error, the one that ends them, exactly when they do not. */
  lemma {:induction false} ReadDecides(v: Reader, want: nat)
    requires want > 0
    ensures var f := Fetch(v, want);
      && (f.got == Count(0) <==> ReaderAhead(v) == [] && ReaderEndsClean(v))
      && (f.got.Fail? <==> ReaderAhead(v) == [] && !ReaderEndsClean(v))
      && (f.got.Fail? ==> f.got.failure == Failing(v.rx))
      && (f.got.Count? ==> f.got.n == |f.bytes| && ReaderAhead(v) == f.bytes + ReaderAhead(f.after))
      && (f.got.Count? ==> ReaderEndsClean(f.after) == ReaderEndsClean(v))
    decreases |v.rx|
  {
    if v.rest != [] {
      var n := Min(want, |v.rest|);
      assert v.rest == v.rest[..n] + v.rest[n..];
      assert ReaderAhead(v) == v.rest[..n] + ReaderAhead(v.(rest := v.rest[n..]));
    } else if !v.eof && v.rx != [] {
      match v.rx[0]
      case Data(bytes) =>
        var next := Reader(v.rx[1..], bytes, false);
        ReadDecides(next, want);
        assert ReaderAhead(v) == ReaderAhead(next);
      case Eof => ReadDecides(Reader(v.rx[1..], [], true), want);
      case Abort(_) =>
    }
  }

  /** Aborted, over the cap or lost: however it is read, such a stream never looks like an end of file. */
  lemma UnfinishedNeverLooksLikeEof(items: seq<BodyItem>, cap: nat, room: nat, wants: seq<nat>)
    requires room <= |Pumped(items, cap, 0)|
    requires !CleanEnd(items) || |BodyBytes(items)| > cap || room < |Pumped(items, cap, 0)|
    requires wants != [] && wants[|wants| - 1] > 0
    ensures Reads(Open(Pumped(items, cap, 0)[..room]), wants).last != Some(Count(0))
  {
    hide Reads, Pumped, CleanEnd, BodyBytes;
    if Reads(Open(Pumped(items, cap, 0)[..room]), wants).last == Some(Count(0)) {
      CleanEofMeansExactBody(items, cap, room, wants);
    }
  }

  /** A body that ends cleanly within the cap is read without any error, whatever the buffer sizes. */
  lemma {:induction false} CleanStreamNeverFails(s: Session, wants: seq<nat>)
    requires ReaderEndsClean(s.reader) && (s.last.Some? ==> s.last.value.Count?)
    ensures Reads(s, wants).last.Some? ==> Reads(s, wants).last.value.Count?
    decreases |wants|
  {
    hide Fetch;
    if wants != [] {
      var f := Fetch(s.reader, wants[0]);
      if wants[0] > 0 { ReadDecides(s.reader, wants[0]); } else { EmptyRead(s.reader); }
      CleanStreamNeverFails(Session(f.after, s.out + f.bytes, Some(f.got)), wants[1..]);
    }
  }

  lemma EmptyRead(v: Reader)
    ensures Fetch(v, 0) == Fetched(v, Count(0), [])
  {
  }

  lemma {:induction false} EofEndsClean(frames: seq<Frame>)
    requires frames != [] && frames[|frames| - 1] == Eof && forall i | 0 <= i < |frames| - 1 :: frames[i].Data?
    ensures EndsClean(frames)
  {
    if |frames| > 1 { EofEndsClean(frames[1..]); }
  }

  /** Each read into a non-empty buffer delivers at least one byte until there are none left. */
  lemma {:induction false} EnoughReads(s: Session, wants: seq<nat>)
    requires ReaderEndsClean(s.reader) && |wants| > |ReaderAhead(s.reader)| && forall i | 0 <= i < |wants| :: wants[i] > 0
    ensures Reads(s, wants).out == s.out + ReaderAhead(s.reader)
    ensures Reads(s, wants).last == Some(Count(0))
    decreases |wants|
  {
    hide Fetch, ReaderAhead, ReaderEndsClean;
    ReadDecides(s.reader, wants[0]);
    var f := Fetch(s.reader, wants[0]);
    var next := Session(f.after, s.out + f.bytes, Some(f.got));
    var rest := wants[1..];
    assert s.out + ReaderAhead(s.reader) == next.out + ReaderAhead(f.after);
    if rest == [] {
      assert Reads(next, rest) == next;
    } else {
      EnoughReads(next, rest);
    }
  }

  lemma {:induction false} AheadOfMarked(frames: seq<Frame>)
    requires frames != [] && frames[|frames| - 1] == Eof && forall i | 0 <= i < |frames| - 1 :: frames[i].Data?
    ensures Ahead(frames) == Payload(frames)
  {
    if |frames| == 1 {
      PayloadOne(Eof);
      assert frames == [Eof];
    } else {
      AheadOfMarked(frames[1..]);
      assert frames == [frames[0]] + frames[1..];
      PayloadConcat([frames[0]], frames[1..]);
      PayloadOne(frames[0]);
    }
  }

  /** A body that ends cleanly within the cap is read without any error, and whole: more non-empty buffers than it has
      bytes bring all of it and then the end of file. */
  lemma WholeBodyIsRead(items: seq<BodyItem>, cap: nat, wants: seq<nat>)
    requires CleanEnd(items) && |BodyBytes(items)| <= cap
    ensures var s := Reads(Open(Pumped(items, cap, 0)), wants);
      && (s.last.Some? ==> s.last.value.Count?)
      && |s.out| <= |BodyBytes(items)| && s.out == BodyBytes(items)[..|s.out|]
      && (|wants| > |BodyBytes(items)| && (forall i | 0 <= i < |wants| :: wants[i] > 0) ==>
          s.out == BodyBytes(items) && s.last == Some(Count(0)))
  {
    hide Reads, Payload, Pumped, CleanEnd, BodyBytes, EndsClean, Ahead;
    var frames := Pumped(items, cap, 0);
    PumpMarksWholeBody(items, cap, 0);
    EofEndsClean(frames);
    CleanStreamNeverFails(Open(frames), wants);
    OutputIsPrefix(frames, wants);
    AheadOfMarked(frames);
    assert [] + Ahead(frames) == Ahead(frames);
    if |wants| > |BodyBytes(items)| && forall i | 0 <= i < |wants| :: wants[i] > 0 {
      EnoughReads(Open(frames), wants);
    }
  }
}
