/** When the covered range of a diagnostic is still a whole line of the text it is shown on. */
module DiagLines {
  import opened Seqs
  import opened Texts
  import opened Diag
  import opened DiagTruth
  import opened DiagRuns
  import Highlight
  import DiagSources

  predicate StartsLine(t: Text, i: nat) { i == 0 || (i <= |t| && t[i - 1] == NEWLINE) }

  /** No newline but possibly the last byte. */
  predicate OneLine(s: Text) { forall i | 0 <= i < |s| - 1 :: s[i] != NEWLINE }

  /** A line with its newline, or the rest of a text that does not end in one. */
  predicate WholeLine(t: Text, r: Range) {
    && r.In(t) && StartsLine(t, r.start) && OneLine(t[r.start..r.end])
    && (EndsInNewline(t[r.start..r.end]) || r.end == |t|)
  }

  // ---- The line index ----

  lemma {:induction false} NoNewlineBetween(t: Text, a: nat, b: nat)
    requires a <= b <= |t| && forall i | a <= i < b :: t[i] != NEWLINE
    ensures Newlines(t[..a]) == Newlines(t[..b])
    decreases b
  {
    if a < b {
      NoNewlineBetween(t, a, b - 1);
      assert t[..b][..b - 1] == t[..b - 1];
    }
  }

  lemma {:induction false} FirstNewline(t: Text, from: nat)
    requires from <= |t|
    ensures var end := (match NthNewline(t, from, 0) case None => |t| case Some(i) => i);
      forall i | from <= i < end :: t[i] != NEWLINE
    decreases |t| - from
  {
    if from < |t| && t[from] != NEWLINE { FirstNewline(t, from + 1); }
  }

  /** What `locate` covers is a whole line. */
  lemma LocatedIsWhole(cls: CharClasses, t: Text, line: nat, column: Option<nat>)
    requires line >= 1 && Locate(cls, t, line, column).Some?
    ensures WholeLine(t, Locate(cls, t, line, column).value.0)
  {
    hide NthNewline, Squiggle;
    var cov := Locate(cls, t, line, column).value.0;
    FirstNewline(t, cov.start);
    var s := t[cov.start..cov.end];
    assert forall i | 0 <= i < |s| :: s[i] == t[cov.start + i];
  }

  lemma StartIndexed(t: Text, i: nat)
    requires StartsLine(t, i) && i <= |t|
    ensures Newlines(t[..i]) < LineCount(t) && LineStarts(t)[Newlines(t[..i])] == i
  {
    hide LineStarts, Newlines;
    if i == 0 {
      FirstLineStarts(t);
      NewlinesOfNothing(t);
    } else {
      NewlineStartsLine(t, i - 1);
    }
  }

  lemma TerminatedIndexed(t: Text, r: Range)
    requires WholeLine(t, r) && EndsInNewline(t[r.start..r.end])
    ensures var line := Newlines(t[..r.start]) + 1;
      line < LineCount(t) && LineStarts(t)[line] == r.end
  {
    hide LineStarts, Newlines;
    var s := t[r.start..r.end];
    assert forall i | r.start <= i < r.end :: t[i] == s[i - r.start];
    NoNewlineBetween(t, r.start, r.end - 1);
    NewlineStartsLine(t, r.end - 1);
  }

  lemma LastIndexed(t: Text, r: Range)
    requires WholeLine(t, r) && !EndsInNewline(t[r.start..r.end])
    ensures Newlines(t[..r.start]) + 1 == LineCount(t)
  {
    hide Newlines;
    var s := t[r.start..r.end];
    assert forall i | r.start <= i < r.end :: t[i] == s[i - r.start];
    NoNewlineBetween(t, r.start, |t|);
    assert t[..|t|] == t;
  }

  /** Whole lines are exactly the lines of the line index, each with its newline. */
  lemma WholeLinesAreIndexed(t: Text, r: Range)
    ensures WholeLine(t, r) <==> exists line: nat :: IsIndexed(t, r, line)
  {
    hide LineStarts, Newlines, WholeLine, LineRange;
    if WholeLine(t, r) { WholeIsIndexed(t, r); }
    if line: nat :| IsIndexed(t, r, line) { IndexedIsWhole(t, r, line); }
  }

  predicate IsIndexed(t: Text, r: Range, line: nat) {
    && LineRange(t, line).Some?
    && var (lo, hi) := LineRange(t, line).value; r == Range(lo, if hi + 1 <= |t| then hi + 1 else |t|)
  }

  lemma IndexedIsWhole(t: Text, r: Range, line: nat)
    requires IsIndexed(t, r, line)
    ensures WholeLine(t, r)
  {
    hide LineStarts, WholeLine, Locate;
    LocateIsLine(CharClasses(_ => false, _ => false), t, line, None);
    LocatedIsWhole(CharClasses(_ => false, _ => false), t, line, None);
  }

  lemma WholeIsIndexed(t: Text, r: Range)
    requires WholeLine(t, r)
    ensures IsIndexed(t, r, Newlines(t[..r.start]) + 1)
  {
    hide LineStarts, Newlines;
    StartIndexed(t, r.start);
    if EndsInNewline(t[r.start..r.end]) { TerminatedIndexed(t, r); } else { LastIndexed(t, r); }
  }

  // ---- One edit ----

  /** The edit neither joins the line to what comes before it nor appends to it when it is the unterminated last. */
  predicate KeepsLine(t: Text, cov: Range, e: Edit)
    requires cov.In(t) && Applicable(t, e)
  {
    && (e.offset + e.delete == cov.start ==> if e.insert != [] then EndsInNewline(e.insert) else StartsLine(t, e.offset))
    && !(e.offset == cov.end == |t| && e.insert != [] && cov.start < cov.end && t[cov.end - 1] != NEWLINE)
  }

  lemma StartMoves(t: Text, cov: Range, e: Edit)
    requires WholeLine(t, cov) && Applicable(t, e) && !Touches(cov, e)
    ensures StartsLine(ApplyEdit(t, e), MapRange(cov, e).start) <==>
      (e.offset + e.delete == cov.start ==> if e.insert != [] then EndsInNewline(e.insert) else StartsLine(t, e.offset))
  {
    hide OneLine;
    var t', start := ApplyEdit(t, e), MapRange(cov, e).start;
    if e.offset + e.delete == cov.start {
      assert start == e.offset + |e.insert|;
      assert start <= |t'|;
      if e.insert != [] { assert t'[start - 1] == e.insert[|e.insert| - 1]; }
      else if start > 0 { assert t'[start - 1] == t[e.offset - 1]; }
    } else if e.offset + e.delete < cov.start {
      assert start == cov.start - e.delete + |e.insert|;
      assert t'[start - 1] == t[cov.start - 1];
    } else {
      assert e.offset > cov.start && start == cov.start;
      if start > 0 { assert t'[start - 1] == t[start - 1]; }
    }
  }

  lemma EndMoves(t: Text, cov: Range, e: Edit)
    requires WholeLine(t, cov) && Applicable(t, e) && !Touches(cov, e) && !EndsInNewline(t[cov.start..cov.end])
    ensures MapRange(cov, e).end == |ApplyEdit(t, e)| <==> !(e.offset == cov.end && e.insert != [] && cov.start < cov.end)
  {
  }

  /** An untouched line stays a whole line iff the edit neither joins nor extends it. */
  lemma LineStaysWholeExactly(t: Text, cov: Range, e: Edit)
    requires WholeLine(t, cov) && Applicable(t, e) && !Touches(cov, e)
    ensures WholeLine(ApplyEdit(t, e), MapRange(cov, e)) <==> KeepsLine(t, cov, e)
  {
    UntouchedMoves(t, cov, e);
    StartMoves(t, cov, e);
    hide Touches, MapRange, ApplyEdit, StartsLine, OneLine;
    if !EndsInNewline(t[cov.start..cov.end]) { EndMoves(t, cov, e); }
    if cov.start < cov.end {
      var s := t[cov.start..cov.end];
      assert s[|s| - 1] == t[cov.end - 1];
    }
  }

  /** The edit keeps every line it does not touch: what it deletes up to a line start it replaces by whole lines or
      takes from a line start, and it does not append to an unterminated last line. */
  predicate Gentle(t: Text, e: Edit)
    requires Applicable(t, e)
  {
    && (e.delete > 0 && StartsLine(t, e.offset + e.delete) ==>
        if e.insert != [] then EndsInNewline(e.insert) else StartsLine(t, e.offset))
    && !(e.offset == |t| && e.insert != [] && t != [] && t[|t| - 1] != NEWLINE)
  }

  lemma GentleKeepsLine(t: Text, cov: Range, e: Edit)
    requires Applicable(t, e) && Gentle(t, e) && WholeLine(t, cov) && !Touches(cov, e)
    ensures KeepsLine(t, cov, e)
  {
    hide OneLine;
  }

  /** The line that starts at `start`. */
  lemma LineFrom(t: Text, start: nat) returns (r: Range)
    requires start <= |t| && StartsLine(t, start)
    ensures r.start == start && WholeLine(t, r)
  {
    FirstNewline(t, start);
    var end := (match NthNewline(t, start, 0) case None => |t| case Some(i) => i + 1);
    r := Range(start, end);
    var s := t[start..end];
    assert forall i | 0 <= i < |s| :: s[i] == t[start + i];
  }

  /** The unterminated last line. */
  lemma {:induction false} LastLine(t: Text, end: nat) returns (r: Range)
    requires 0 < end <= |t| && t[end - 1] != NEWLINE
    ensures r.end == end && r.start < end && StartsLine(t, r.start) && forall i | r.start <= i < end :: t[i] != NEWLINE
    decreases end
  {
    if end == 1 || t[end - 2] == NEWLINE {
      r := Range(end - 1, end);
    } else {
      var shorter := LastLine(t, end - 1);
      r := Range(shorter.start, end);
    }
  }

  lemma HarshBreaksLine(t: Text, e: Edit) returns (cov: Range)
    requires Applicable(t, e) && !Gentle(t, e)
    ensures WholeLine(t, cov) && !Touches(cov, e) && !KeepsLine(t, cov, e)
  {
    if e.offset == |t| && e.insert != [] && t != [] && t[|t| - 1] != NEWLINE {
      cov := LastLine(t, |t|);
      var s := t[cov.start..cov.end];
      assert forall i | 0 <= i < |s| :: s[i] == t[cov.start + i];
    } else {
      cov := LineFrom(t, e.offset + e.delete);
    }
  }

  /** An edit leaves whole every line it does not touch iff it is gentle. */
  lemma LinesStayWholeExactly(t: Text, e: Edit)
    requires Applicable(t, e)
    ensures Gentle(t, e) <==>
      forall cov | WholeLine(t, cov) && !Touches(cov, e) :: WholeLine(ApplyEdit(t, e), MapRange(cov, e))
  {
    hide WholeLine, Touches, MapRange, ApplyEdit, KeepsLine, Gentle;
    if Gentle(t, e) {
      forall cov | WholeLine(t, cov) && !Touches(cov, e) ensures WholeLine(ApplyEdit(t, e), MapRange(cov, e)) {
        GentleKeepsLine(t, cov, e);
        LineStaysWholeExactly(t, cov, e);
      }
    } else {
      var cov := HarshBreaksLine(t, e);
      LineStaysWholeExactly(t, cov, e);
    }
  }

  // ---- Runs ----

  predicate GentleEdits(t: Text, edits: seq<Edit>)
    decreases |edits|
  {
    edits == [] || (Applicable(t, edits[0]) && Gentle(t, edits[0]) && GentleEdits(ApplyEdit(t, edits[0]), edits[1..]))
  }

  predicate GentleDelta(t: Text, d: Highlight.ViewDelta) { d.kind == Highlight.Resync || GentleEdits(t, d.edits) }

  ghost predicate GentleHistory(texts: seq<Text>, ds: seq<Highlight.ViewDelta>) {
    |texts| == |ds| + 1 && forall i | 0 <= i < |ds| :: GentleDelta(texts[i], ds[i])
  }

  ghost predicate AllWhole(t: Text, ms: seq<Marker>) { forall m | m in ms :: WholeLine(t, m.covered) }

  lemma EditWhole(t: Text, ms: seq<Marker>, e: Edit)
    requires AllWhole(t, ms) && Applicable(t, e) && Gentle(t, e)
    ensures AllWhole(ApplyEdit(t, e), AfterEdit(ms, e))
  {
    hide WholeLine, Touches, MapRange, ApplyEdit, AfterEdit, Gentle;
    SurvivorsExactly(ms, e);
    LinesStayWholeExactly(t, e);
    forall m' | m' in AfterEdit(ms, e) ensures WholeLine(ApplyEdit(t, e), m'.covered) {
      var m :| m in ms && !Touches(m.covered, e) && m' == Moved(m, e);
    }
  }

  lemma {:induction false} EditsWhole(t: Text, ms: seq<Marker>, edits: seq<Edit>)
    requires AllWhole(t, ms) && AllApplicable(t, edits) && GentleEdits(t, edits)
    ensures AllWhole(ApplyEdits(t, edits), AfterEdits(ms, edits))
    decreases |edits|
  {
    hide AllWhole, AfterEdit, ApplyEdit, Gentle;
    if edits != [] {
      EditWhole(t, ms, edits[0]);
      EditsWhole(ApplyEdit(t, edits[0]), AfterEdit(ms, edits[0]), edits[1..]);
      AfterEditsFirst(ms, edits);
    }
  }

  lemma DeltaWhole(t: Text, ms: seq<Marker>, d: Highlight.ViewDelta, u: Text)
    requires AllWhole(t, ms) && Leads(t, d, u) && GentleDelta(t, d)
    ensures AllWhole(u, AfterDelta(ms, d))
  {
    if d.kind != Highlight.Resync { EditsWhole(t, ms, d.edits); }
  }

  lemma {:induction false} DeltasWhole(ms: seq<Marker>, texts: seq<Text>, ds: seq<Highlight.ViewDelta>)
    requires History(texts, ds) && GentleHistory(texts, ds) && AllWhole(texts[0], ms)
    ensures AllWhole(texts[|ds|], AfterDeltas(ms, ds))
    decreases |ds|
  {
    hide AllWhole, AfterDelta, Leads, GentleDelta;
    if ds != [] {
      var n := |ds| - 1;
      DeltasWhole(ms, texts[..n + 1], ds[..n]);
      DeltaWhole(texts[n], AfterDeltas(ms, ds[..n]), ds[n], texts[n + 1]);
    }
  }

  lemma {:induction false} LocatedWhole(cls: CharClasses, source: string, t: Text, items: seq<DiagItem>)
    ensures AllWhole(t, LocatedAll(cls, source, t, items))
  {
    hide Locate, WholeLine;
    if items != [] {
      LocatedWhole(cls, source, t, items[..|items| - 1]);
      var item := items[|items| - 1];
      var line := if item.line >= 1 then item.line else 1;
      if Locate(cls, t, line, item.column).Some? { LocatedIsWhole(cls, t, line, item.column); }
    }
  }

  /** The deltas of a run so far were gentle, and every marker covers a whole line of the current text. */
  ghost predicate Whole(w: World) {
    History(w.texts, w.ds) && GentleHistory(w.texts, w.ds) && AllWhole(w.texts[|w.ds|], w.ms)
  }

  predicate GentleEvent(w: World, e: Event)
    requires Possible(w, e)
  {
    e.Delta? ==> GentleDelta(w.texts[|w.texts| - 1], e.d)
  }

  predicate GentleRun(cls: CharClasses, w: World, events: seq<Event>)
    requires Follows(cls, w, events)
    decreases |events|
  {
    events == [] || (GentleEvent(w, events[0]) && GentleRun(cls, Advance(cls, w, events[0]), events[1..]))
  }

  lemma StepWhole(cls: CharClasses, w: World, e: Event)
    requires Whole(w) && Possible(w, e) && GentleEvent(w, e)
    ensures Whole(Advance(cls, w, e))
  {
    hide WholeLine, Leads, AfterDelta, AfterDeltas, LocatedAll, Replaced, GentleDelta;
    match e
    case Delta(d, text) => DeltaWhole(w.texts[|w.ds|], w.ms, d, text);
    case Accept(source, tag, text, since, items) =>
      if !Stale(w.Current(), tag) {
        var found, g := LocatedAll(cls, source, text, items), tag.viewGen;
        LocatedWhole(cls, source, text, items);
        assert History(w.texts[g..], w.ds[g..]) && GentleHistory(w.texts[g..], w.ds[g..]);
        DeltasWhole(found, w.texts[g..], w.ds[g..]);
        ReplacedFrom(source, w.ms, AfterDeltas(found, since));
      }
  }

  lemma {:induction false} RunWhole(cls: CharClasses, w: World, events: seq<Event>)
    requires Whole(w) && Follows(cls, w, events) && GentleRun(cls, w, events)
    ensures Whole(After(cls, w, events))
    decreases |events|
  {
    hide Whole, Advance, GentleEvent, Possible;
    if events != [] {
      StepWhole(cls, w, events[0]);
      RunWhole(cls, Advance(cls, w, events[0]), events[1..]);
    }
  }

  /** After any run of gentle deltas, resyncs and late sets, every shown diagnostic covers a whole line of the text it
      is shown on. */
  lemma ShownLinesAreWhole(cls: CharClasses, text: Text, tag: Highlight.ResultTag, events: seq<Event>)
    requires Follows(cls, Start(text, tag), events) && GentleRun(cls, Start(text, tag), events)
    ensures var w := After(cls, Start(text, tag), events);
      |w.texts| == |w.ds| + 1 && AllWhole(w.texts[|w.ds|], w.ms)
  {
    hide AllWhole, Follows, After, GentleRun;
    StartWhole(text, tag);
    RunWhole(cls, Start(text, tag), events);
  }

  lemma StartWhole(text: Text, tag: Highlight.ResultTag)
    ensures Whole(Start(text, tag))
  {
  }

  lemma LineHasOneLine(t: Text, line: nat)
    requires FullLine(t, line).Some?
    ensures OneLine(FullLine(t, line).value)
  {
    hide LineStarts, StartsLine, OneLine;
    var (lo, hi) := LineRange(t, line).value;
    IndexedIsWhole(t, Range(lo, if hi + 1 <= |t| then hi + 1 else |t|), line);
  }

  /** After any run at all, a shown diagnostic covers a whole line of the current text iff a line starts where it
      starts, and it ends in a newline or at the end of the text. */
  lemma ShownLineIsWholeExactly(cls: CharClasses, text: Text, tag: Highlight.ResultTag, events: seq<Event>, m: Marker)
    requires Follows(cls, Start(text, tag), events) && m in After(cls, Start(text, tag), events).ms
    ensures var w := After(cls, Start(text, tag), events);
      && |w.texts| == |w.ds| + 1
      && var now := w.texts[|w.ds|];
      WholeLine(now, m.covered) <==>
        StartsLine(now, m.covered.start) && (EndsInNewline(m.origin) || m.covered.end == |now|)
  {
    hide Follows, After, StartsLine, OneLine, FullLine, DiagSources.Grouped;
    EmptyTruthful(text, tag);
    RunTruthful(cls, Start(text, tag), events);
    var w := After(cls, Start(text, tag), events);
    assert Holds(w.texts[|w.ds|], m) && Known(w.texts, m);
    var g :| 0 <= g < |w.texts| && OnLine(w.texts[g], m);
    LineHasOneLine(w.texts[g], m.diag.line);
  }
}
