/**
 The Mix path of the highlight cache of one buffer view. Relex results arrive late and
 are tagged with the generation of the text they were computed on.
 */
module Highlight {
  import opened Seqs
  import opened Texts

  const MIX_MAX_BYTES: nat := 2 * 1024 * 1024
  const MAX_CACHED_LINES := 4096
  const MAX_TOUCHED := 4096

  datatype ResultTag = ResultTag(epoch: string, buffer: string, viewGen: nat, language: string, cfg: nat)
  {
    predicate SameSource(other: ResultTag) {
      epoch == other.epoch && buffer == other.buffer && language == other.language && cfg == other.cfg
    }
  }

  datatype DeltaKind = Local | Remote | Undo | Redo | Reload | Revert | Resync

  datatype ViewDelta = ViewDelta(edits: seq<Edit>, kind: DeltaKind, viewGen: nat)

  /** A class of `plain` draws nothing. */
  datatype Span = Span(start: nat, end: nat, class_: nat)

  const PLAIN := 0

  datatype MixState = MixState(viewGen: nat, spans: seq<Span>, valid: Lines)

  /** A delta's generation and the first line it touched. */
  datatype Touch = Touch(viewGen: nat, line: nat)

  datatype Inner = Inner(
    mix: Option<MixState>,
    current: Option<ResultTag>,
    requested: Option<nat>,
    touched: seq<Touch>,
    touchedFloor: nat,
    lines: map<nat, seq<Span>>)

  const EMPTY := Inner(None, None, None, [], 0, map[])

  // ---- Deltas ----

  function MinOffset(edits: seq<Edit>): (p: nat)
    requires edits != []
    ensures forall i | 0 <= i < |edits| :: p <= edits[i].offset
    ensures exists i | 0 <= i < |edits| :: p == edits[i].offset
  {
    if |edits| == 1 then edits[0].offset
    else
      var rest := MinOffset(edits[1..]);
      assert forall i | 1 <= i < |edits| :: edits[i] == edits[1..][i - 1];
      if edits[0].offset <= rest then edits[0].offset else rest
  }

  /** The first line a delta touched in the new text, or `None` when it has no steps. */
  function FirstTouched(text: Text, d: ViewDelta): Option<nat> {
    if d.kind == Resync then Some(1)
    else if d.edits == [] then None
    else Some(Newlines(text[..Min(MinOffset(d.edits), |text|)]) + 1)
  }

  function Narrow(mix: Option<MixState>, first: nat): Option<MixState> {
    if mix.None? then None else Some(mix.value.(valid := mix.value.valid.Meet(Before(first))))
  }

  function LinesAbove(lines: map<nat, seq<Span>>, first: nat): map<nat, seq<Span>> {
    map l | l in lines && l < first :: lines[l]
  }

  /** Log a touch, dropping the oldest beyond the bound and raising the floor to it. */
  function Logged(inner: Inner, touch: Touch): Inner {
    var touched := inner.touched + [touch];
    if |touched| > MAX_TOUCHED then inner.(touched := touched[1..], touchedFloor := touched[0].viewGen)
    else inner.(touched := touched)
  }

  /** `apply_delta` */
  function AfterDelta(inner: Inner, text: Text, d: ViewDelta): Inner {
    match FirstTouched(text, d)
    case None => inner
    case Some(first) =>
      Logged(inner.(lines := LinesAbove(inner.lines, first), mix := Narrow(inner.mix, first)),
             Touch(d.viewGen, first))
  }

  // ---- Requests and results ----

  /** `mix_request` of a cache for a Mix `language`: the new state, and whether a relex of the text is due. */
  function AfterRequest(language: string, inner: Inner, text: Text, tag: ResultTag): (Inner, bool) {
    if tag.language != language then (inner, false) else AfterOwnRequest(inner, text, tag)
  }

  function AfterOwnRequest(inner: Inner, text: Text, tag: ResultTag): (Inner, bool) {
    var known := inner.current.Some? && inner.current.value.SameSource(tag);
    var kept := if known then inner else inner.(mix := None, requested := None, lines := map[]);
    var named := kept.(current := Some(tag));
    if |text| > MIX_MAX_BYTES then (named.(mix := None, lines := map[]), false)
    else if named.mix.Some? && named.mix.value.viewGen == tag.viewGen && named.mix.value.valid.AllLines? then (named, false)
    else if named.requested == Some(tag.viewGen) then (named, false)
    else (named.(requested := Some(tag.viewGen)), true)
  }

  /** The lines no delta after generation `gen` touched. */
  function UntouchedSince(touched: seq<Touch>, gen: nat): Lines {
    if touched == [] then AllLines
    else
      var rest := UntouchedSince(touched[..|touched| - 1], gen);
      var last := touched[|touched| - 1];
      if last.viewGen > gen then rest.Meet(Before(last.line)) else rest
  }

  /** `mix_result` */
  function AfterResult(inner: Inner, tag: ResultTag, spans: seq<Span>): Inner {
    if inner.current.None? || !inner.current.value.SameSource(tag) then inner
    else
      var answered := if inner.requested == Some(tag.viewGen) then inner.(requested := None) else inner;
      if answered.mix.Some? && answered.mix.value.viewGen > tag.viewGen then answered
      else if tag.viewGen < answered.touchedFloor then answered
      else answered.(mix := Some(MixState(tag.viewGen, spans, UntouchedSince(answered.touched, tag.viewGen))), lines := map[])
  }

  // ---- Drawing a line ----

  /** Sorted, non-overlapping spans, as the lexer yields them. */
  ghost predicate Ordered(spans: seq<Span>) {
    && (forall i | 0 <= i < |spans| :: spans[i].start <= spans[i].end)
    && forall i, j | 0 <= i < j < |spans| :: spans[i].end <= spans[j].start
  }

  function ClipOne(s: Span, lo: nat, hi: nat): seq<Span> {
    var from, to := if s.start < lo then lo else s.start, if s.end < hi then s.end else hi;
    if s.class_ != PLAIN && from < to then [Span(from, to, s.class_)] else []
  }

  /** The visible parts of `spans` inside `lo..hi`, in order. */
  function Clip(spans: seq<Span>, lo: nat, hi: nat): seq<Span> {
    if spans == [] then [] else ClipOne(spans[0], lo, hi) + Clip(spans[1..], lo, hi)
  }

  /** `insert_line`: a full cache keeps only the lines around the new one. */
  function InsertLine(lines: map<nat, seq<Span>>, line: nat, spans: seq<Span>): map<nat, seq<Span>> {
    var kept := if |lines| >= MAX_CACHED_LINES
                then map l | l in lines && line <= l + MAX_CACHED_LINES / 4 && l < line + MAX_CACHED_LINES / 4 :: lines[l]
                else lines;
    kept[line := spans]
  }

  /** `mix_line` */
  function AfterAsk(inner: Inner, text: Text, line: nat): Inner {
    if line in inner.lines || inner.mix.None? || !inner.mix.value.valid.Has(line) || LineRange(text, line).None? then inner
    else
      var (lo, hi) := LineRange(text, line).value;
      inner.(lines := InsertLine(inner.lines, line, Clip(inner.mix.value.spans, lo, hi)))
  }

  // ---- The mutable cache ----

  /** `partition_point` of `end <= lo`, by bisection: on spans in any other order it finds some position. */
  method PartitionPoint(spans: seq<Span>, lo: nat) returns (from: nat)
    ensures from <= |spans|
    ensures Ordered(spans) ==> forall i | 0 <= i < from :: spans[i].end <= lo
    ensures Ordered(spans) ==> forall i | from <= i < |spans| :: spans[i].end > lo
  {
    var a, b := 0, |spans|;
    while a < b
      invariant 0 <= a <= b <= |spans|
      invariant Ordered(spans) ==> forall i | 0 <= i < a :: spans[i].end <= lo
      invariant Ordered(spans) ==> forall i | b <= i < |spans| :: spans[i].end > lo
    {
      var mid := (a + b) / 2;
      assert Ordered(spans) ==> forall i | 0 <= i < mid :: spans[i].end <= spans[mid].start;
      assert Ordered(spans) ==> forall i | mid < i < |spans| :: spans[mid].end <= spans[i].start;
      if spans[mid].end <= lo { a := mid + 1; } else { b := mid; }
    }
    from := a;
  }

  lemma {:induction false} ClipNothing(spans: seq<Span>, lo: nat, hi: nat)
    requires forall i | 0 <= i < |spans| :: spans[i].end <= lo || hi <= spans[i].start
    ensures Clip(spans, lo, hi) == []
  {
    if spans != [] {
      assert forall i | 0 <= i < |spans[1..]| :: spans[1..][i] == spans[i + 1];
      ClipNothing(spans[1..], lo, hi);
    }
  }

  lemma {:induction false} ClipSplit(a: seq<Span>, b: seq<Span>, lo: nat, hi: nat)
    ensures Clip(a + b, lo, hi) == Clip(a, lo, hi) + Clip(b, lo, hi)
  {
    if a == [] {
      assert a + b == b;
    } else {
      assert (a + b)[1..] == a[1..] + b;
      ClipSplit(a[1..], b, lo, hi);
    }
  }

  lemma ClipRest(spans: seq<Span>, i: nat, lo: nat, hi: nat)
    requires Ordered(spans) && i <= |spans| && (i < |spans| ==> hi <= spans[i].start)
    ensures Clip(spans[i..], lo, hi) == []
  {
    forall k | 0 <= k < |spans[i..]| ensures hi <= spans[i..][k].start {
      assert spans[i..][k] == spans[i + k];
    }
    ClipNothing(spans[i..], lo, hi);
  }

  lemma ClipFront(spans: seq<Span>, from: nat, lo: nat, hi: nat)
    requires from <= |spans| && forall i | 0 <= i < from :: spans[i].end <= lo
    ensures Clip(spans, lo, hi) == Clip(spans[from..], lo, hi)
  {
    ClipNothing(spans[..from], lo, hi);
    ClipSplit(spans[..from], spans[from..], lo, hi);
    assert spans == spans[..from] + spans[from..];
  }

  /** The binary search and the early stop of `mix_line` take a stretch of the spans and, of spans in order, every
      one that meets the line. */
  method ClipLine(spans: seq<Span>, lo: nat, hi: nat) returns (r: seq<Span>)
    ensures exists from, to :: 0 <= from <= to <= |spans| && r == Clip(spans[from..to], lo, hi)
    ensures Ordered(spans) ==> r == Clip(spans, lo, hi)
  {
    hide Clip, ClipOne, Ordered;
    var from := PartitionPoint(spans, lo);
    r := [];
    var i := from;
    ClipNone(lo, hi);
    assert spans[from..i] == [];
    while i < |spans| && spans[i].start < hi
      invariant from <= i <= |spans|
      invariant r == Clip(spans[from..i], lo, hi)
    {
      ClipPush(spans[from..i], spans[i], lo, hi);
      assert spans[from..i + 1] == spans[from..i] + [spans[i]];
      r := r + ClipOne(spans[i], lo, hi);
      i := i + 1;
    }
    if Ordered(spans) { ClipMiddle(spans, from, i, lo, hi); }
  }

  lemma ClipNone(lo: nat, hi: nat)
    ensures Clip([], lo, hi) == []
  {
  }

  lemma ClipPush(spans: seq<Span>, s: Span, lo: nat, hi: nat)
    ensures Clip(spans + [s], lo, hi) == Clip(spans, lo, hi) + ClipOne(s, lo, hi)
  {
    hide ClipOne;
    ClipSplit(spans, [s], lo, hi);
    assert [s][1..] == [];
    assert Clip([s], lo, hi) == ClipOne(s, lo, hi) + [];
  }

  /** Nothing before the search or after the stop meets the line. */
  lemma ClipMiddle(spans: seq<Span>, from: nat, to: nat, lo: nat, hi: nat)
    requires Ordered(spans) && from <= to <= |spans| && (to < |spans| ==> hi <= spans[to].start)
    requires forall i | 0 <= i < from :: spans[i].end <= lo
    ensures Clip(spans, lo, hi) == Clip(spans[from..to], lo, hi)
  {
    hide Clip, Ordered;
    ClipFront(spans, from, lo, hi);
    ClipRest(spans, to, lo, hi);
    ClipSplit(spans[from..to], spans[to..], lo, hi);
    assert spans[from..] == spans[from..to] + spans[to..];
  }

  class HighlightCache {
    const language: string
    var mix: Option<MixState>
    var current: Option<ResultTag>
    var requested: Option<nat>
    var touched: seq<Touch>
    var touchedFloor: nat
    var lines: map<nat, seq<Span>>

    ghost function Value(): Inner
      reads this
    {
      Inner(mix, current, requested, touched, touchedFloor, lines)
    }

    constructor (language: string)
      ensures this.language == language && Value() == EMPTY
    {
      this.language := language;
      mix, current, requested, touched, touchedFloor, lines := None, None, None, [], 0, map[];
    }

    /** Push a touch and pop the oldest ones beyond the bound, raising the floor. */
    method LogTouch(touch: Touch)
      requires |touched| <= MAX_TOUCHED
      modifies this
      ensures Value() == Logged(old(Value()), touch)
      ensures |touched| <= MAX_TOUCHED
    {
      touched := touched + [touch];
      ghost var logged, pushed := touched, Value();
      while |touched| > MAX_TOUCHED
        invariant touched == logged || (|logged| > MAX_TOUCHED && touched == logged[1..])
        invariant Value() == pushed.(touched := touched, touchedFloor := touchedFloor)
        invariant touchedFloor == if touched == logged then old(touchedFloor) else logged[0].viewGen
        decreases |touched|
      {
        touchedFloor := touched[0].viewGen;
        touched := touched[1..];
      }
    }

    method ApplyDelta(text: Text, d: ViewDelta)
      requires |touched| <= MAX_TOUCHED
      modifies this
      ensures Value() == AfterDelta(old(Value()), text, d)
      ensures |touched| <= MAX_TOUCHED
    {
      hide MinOffset, Newlines, LineStarts, Logged;
      var first := 1;
      if d.kind != Resync {
        if d.edits == [] { return; }
        first := LineOf(text, Min(MinOffset(d.edits), |text|));
      }
      assert FirstTouched(text, d) == Some(first);
      lines := LinesAbove(lines, first);
      if mix.Some? { mix := Some(mix.value.(valid := mix.value.valid.Meet(Before(first)))); }
      assert mix == Narrow(old(mix), first);
      LogTouch(Touch(d.viewGen, first));
    }

    method MixRequest(text: Text, tag: ResultTag) returns (due: bool)
      modifies this
      ensures (Value(), due) == AfterRequest(language, old(Value()), text, tag)
    {
      if tag.language != language { return false; }
      if !(current.Some? && current.value.SameSource(tag)) {
        mix, requested, lines := None, None, map[];
      }
      current := Some(tag);
      if |text| > MIX_MAX_BYTES {
        mix, lines := None, map[];
        return false;
      }
      var upToDate := mix.Some? && mix.value.viewGen == tag.viewGen && mix.value.valid.AllLines?;
      if upToDate || requested == Some(tag.viewGen) { return false; }
      requested := Some(tag.viewGen);
      due := true;
    }

    method MixResult(tag: ResultTag, spans: seq<Span>)
      modifies this
      ensures Value() == AfterResult(old(Value()), tag, spans)
    {
      if !(current.Some? && current.value.SameSource(tag)) { return; }
      if requested == Some(tag.viewGen) { requested := None; }
      if mix.Some? && mix.value.viewGen > tag.viewGen { return; }
      if tag.viewGen < touchedFloor { return; }
      var valid := AllLines;
      for i := 0 to |touched|
        invariant valid == UntouchedSince(touched[..i], tag.viewGen)
      {
        assert touched[..i + 1][..i] == touched[..i];
        if touched[i].viewGen > tag.viewGen { valid := valid.Meet(Before(touched[i].line)); }
      }
      assert touched[..|touched|] == touched;
      mix := Some(MixState(tag.viewGen, spans, valid));
      lines := map[];
    }

    /** `spans`: what is drawn on a line; nothing where no result is known to describe it. */
    method Spans(text: Text, line: nat) returns (r: seq<Span>)
      modifies this
      ensures (mix.Some? ==> Ordered(mix.value.spans)) ==> Value() == AfterAsk(old(Value()), text, line)
      ensures Value() == old(Value()) || Filled(old(Value()), text, line, Value())
      ensures r == if line in lines then lines[line] else []
    {
      hide Ordered, Clip, InsertLine, LineRange;
      if line !in lines && mix.Some? && mix.value.valid.Has(line) && LineRange(text, line).Some? {
        var (lo, hi) := LineRange(text, line).value;
        var clipped := ClipLine(mix.value.spans, lo, hi);
        lines := InsertLine(lines, line, clipped);
      }
      r := if line in lines then lines[line] else [];
    }
  }

  /** The line was filled from a stretch of the result's spans, cut to the line. */
  ghost predicate Filled(inner: Inner, text: Text, line: nat, after: Inner) {
    && inner.mix.Some? && inner.mix.value.valid.Has(line) && LineRange(text, line).Some?
    && var (lo, hi) := LineRange(text, line).value;
    exists from, to ::
      && 0 <= from <= to <= |inner.mix.value.spans|
      && after == inner.(lines := InsertLine(inner.lines, line, Clip(inner.mix.value.spans[from..to], lo, hi)))
  }
}
