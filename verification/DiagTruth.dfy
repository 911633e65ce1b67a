/** Marks stay on the text they were made for, through any edits. */
module DiagTruth {
  import opened Seqs
  import opened Texts
  import opened Diag
  import Highlight

  // ---- One edit ----

  /** The covered range lies in the text and holds the bytes it held when it was located. */
  predicate Holds(t: Text, m: Marker) {
    m.covered.In(t) && t[m.covered.start..m.covered.end] == m.origin
  }

  /** A range before the edit stays, with its bytes. */
  lemma BytesBefore(t: Text, r: Range, e: Edit)
    requires r.In(t) && Applicable(t, e) && r.end <= e.offset
    ensures r.In(ApplyEdit(t, e)) && ApplyEdit(t, e)[r.start..r.end] == t[r.start..r.end]
  {
    var front, rest := t[..e.offset], e.insert + t[e.offset + e.delete..];
    assert ApplyEdit(t, e) == front + rest;
    hide ApplyEdit;
    SliceOfFront(front, rest, r.start, r.end);
    SliceOfPrefix(t, e.offset, r.start, r.end);
  }

  /** A range after the edit moves by what the edit adds or removes, with its bytes. */
  lemma BytesAfter(t: Text, r: Range, e: Edit)
    requires r.In(t) && Applicable(t, e) && e.offset + e.delete <= r.start
    ensures var shift := |e.insert| - e.delete;
      && r.start + shift >= 0 && r.end + shift <= |ApplyEdit(t, e)|
      && ApplyEdit(t, e)[r.start + shift..r.end + shift] == t[r.start..r.end]
  {
    var front, rest := t[..e.offset] + e.insert, t[e.offset + e.delete..];
    assert ApplyEdit(t, e) == front + rest;
    hide ApplyEdit;
    var i, j := r.start - e.offset - e.delete, r.end - e.offset - e.delete;
    SliceOfBack(front, rest, i, j);
    SliceOfSuffix(t, e.offset + e.delete, i, j);
  }

  /** An edit that changes nothing moves nothing. */
  lemma IdleEdit(t: Text, cov: Range, e: Edit)
    requires cov.In(t) && Applicable(t, e) && e.delete == 0 && e.insert == []
    ensures ApplyEdit(t, e) == t && MapRange(cov, e) == cov
  {
    assert t == t[..e.offset] + t[e.offset..];
  }

  /** Where an untouched range that is not empty goes. */
  lemma UntouchedSide(cov: Range, e: Edit)
    requires cov.start < cov.end && !Touches(cov, e) && (e.delete > 0 || e.insert != [])
    ensures || (cov.end <= e.offset && MapRange(cov, e) == cov)
            || (e.offset + e.delete <= cov.start
                && MapRange(cov, e) == Range(cov.start - e.delete + |e.insert|, cov.end - e.delete + |e.insert|))
  {
  }

  lemma EmptyMoves(t: Text, cov: Range, e: Edit)
    requires cov.In(t) && Applicable(t, e) && cov.start == cov.end
    ensures MapRange(cov, e).In(ApplyEdit(t, e)) && MapRange(cov, e).start == MapRange(cov, e).end
  {
    assert |ApplyEdit(t, e)| == |t| - e.delete + |e.insert|;
  }

  /** An untouched range moves onto identical bytes. */
  lemma UntouchedMoves(t: Text, cov: Range, e: Edit)
    requires cov.In(t) && Applicable(t, e) && !Touches(cov, e)
    ensures var t', cov' := ApplyEdit(t, e), MapRange(cov, e);
      cov'.In(t') && t'[cov'.start..cov'.end] == t[cov.start..cov.end]
  {
    hide ApplyEdit, MapRange, Touches;
    if cov.start == cov.end {
      EmptyMoves(t, cov, e);
    } else if e.delete == 0 && e.insert == [] {
      IdleEdit(t, cov, e);
    } else {
      UntouchedSide(cov, e);
      if cov.end <= e.offset && MapRange(cov, e) == cov { BytesBefore(t, cov, e); } else { BytesAfter(t, cov, e); }
    }
  }

  /** The squiggle lies on its line. */
  predicate Placed(m: Marker) {
    m.covered.start <= m.diag.range.start <= m.diag.range.end <= m.covered.end
  }

  /** The squiggle is where it was relative to its line. */
  predicate KeepsPlace(m: Marker, m': Marker) {
    && m'.diag.range.start - m'.covered.start == m.diag.range.start - m.covered.start
    && m'.diag.range.end - m'.covered.start == m.diag.range.end - m.covered.start
    && m'.covered.end - m'.covered.start == m.covered.end - m.covered.start
  }

  /** An empty squiggle at the very end of a last line that has no newline, and text appended right there. */
  predicate Escapes(m: Marker, e: Edit) {
    m.covered.start < m.covered.end == m.diag.range.start == e.offset && e.insert != []
  }

  /** A surviving squiggle keeps its place on its line, unless it was an empty mark at the end and text is appended
      there: then, and only then, it is carried past its line. */
  lemma SquiggleStaysExactly(m: Marker, e: Edit)
    requires Placed(m) && !Touches(m.covered, e)
    ensures KeepsPlace(m, Moved(m, e)) <==> !Escapes(m, e)
    ensures Escapes(m, e) ==> Moved(m, e).diag.range.start > Moved(m, e).covered.end
  {
  }

  /** A mark that starts before the end of its line, or on an empty one, is never carried away. */
  predicate Anchored(m: Marker) {
    Placed(m) && (m.diag.range.start < m.covered.end || m.covered.start == m.covered.end)
  }

  /** An edit touches a line iff it deletes a byte of it, inserts inside it, or inserts at its start anything but whole
      lines; an empty last line is also touched by deleting across it. */
  lemma TouchesExactly(cov: Range, e: Edit)
    requires cov.start <= cov.end
    ensures Touches(cov, e) <==>
      || (exists i :: cov.start <= i < cov.end && DeletesByte(e, i))
      || (cov.start == cov.end && e.offset < cov.start < e.offset + e.delete)
      || (e.insert != [] && cov.start < e.offset < cov.end)
      || (e.insert != [] && e.offset == cov.start && e.insert[|e.insert| - 1] != NEWLINE)
  {
    if cov.start < cov.end && e.delete > 0 && e.offset < cov.end && e.offset + e.delete > cov.start {
      assert DeletesByte(e, if e.offset < cov.start then cov.start else e.offset);
    }
  }

  predicate DeletesByte(e: Edit, i: nat) { e.offset <= i < e.offset + e.delete }

  // ---- Lists and sequences of edits ----

  /** Exactly the untouched markers survive an edit. */
  lemma {:induction false} SurvivorsExactly(ms: seq<Marker>, e: Edit)
    ensures forall m' | m' in AfterEdit(ms, e) :: exists m | m in ms :: !Touches(m.covered, e) && m' == Moved(m, e)
    ensures forall m | m in ms && !Touches(m.covered, e) :: Moved(m, e) in AfterEdit(ms, e)
  {
    hide Touches, Moved;
    if ms != [] {
      var front, last := ms[..|ms| - 1], ms[|ms| - 1];
      SurvivorsExactly(front, e);
      assert ms == front + [last];
    }
  }

  /** What stays true of a marker whatever happens to it. */
  ghost predicate SameFinding(m: Marker, m': Marker) {
    m'.origin == m.origin && m'.diag == m.diag.(range := m'.diag.range)
  }

  /** `m'` is `m` later: the same finding, in its place if it was anchored. */
  ghost predicate Later(m: Marker, m': Marker) {
    SameFinding(m, m') && (Anchored(m) ==> Anchored(m') && KeepsPlace(m, m'))
  }

  /** Every marker of `ms'` descends from one of `ms`, and keeps its place on its line if it was anchored. */
  ghost predicate Descends(ms: seq<Marker>, ms': seq<Marker>) {
    forall m' | m' in ms' :: exists m | m in ms :: Later(m, m')
  }

  lemma LaterTrans(x: Marker, y: Marker, z: Marker)
    requires Later(x, y) && Later(y, z)
    ensures Later(x, z)
  {
    hide Anchored;
  }

  lemma DescendsTrans(a: seq<Marker>, b: seq<Marker>, c: seq<Marker>)
    requires Descends(a, b) && Descends(b, c)
    ensures Descends(a, c)
  {
    hide Later;
    forall z | z in c ensures exists x | x in a :: Later(x, z) {
      var y :| y in b && Later(y, z);
      var x :| x in a && Later(x, y);
      LaterTrans(x, y, z);
    }
  }

  lemma DescendsSelf(a: seq<Marker>)
    ensures Descends(a, a)
  {
    hide Anchored;
    forall m | m in a ensures Later(m, m) { }
  }

  ghost predicate AllHold(t: Text, ms: seq<Marker>) { forall m | m in ms :: Holds(t, m) }

  lemma AnchoredStays(m: Marker, e: Edit)
    requires !Touches(m.covered, e) && Anchored(m)
    ensures Anchored(Moved(m, e)) && KeepsPlace(m, Moved(m, e))
  {
    SquiggleStaysExactly(m, e);
  }

  lemma EditHolds(t: Text, ms: seq<Marker>, e: Edit)
    requires AllHold(t, ms) && Applicable(t, e)
    ensures AllHold(ApplyEdit(t, e), AfterEdit(ms, e)) && Descends(ms, AfterEdit(ms, e))
  {
    hide Anchored, KeepsPlace, Touches, MapRange, ApplyEdit, AfterEdit;
    SurvivorsExactly(ms, e);
    forall m' | m' in AfterEdit(ms, e)
      ensures Holds(ApplyEdit(t, e), m')
      ensures exists m | m in ms :: Later(m, m')
    {
      var m :| m in ms && !Touches(m.covered, e) && m' == Moved(m, e);
      UntouchedMoves(t, m.covered, e);
      if Anchored(m) { AnchoredStays(m, e); }
      assert Later(m, m');
    }
  }

  lemma {:induction false} AfterEditsFirst(ms: seq<Marker>, edits: seq<Edit>)
    requires edits != []
    ensures AfterEdits(ms, edits) == AfterEdits(AfterEdit(ms, edits[0]), edits[1..])
    decreases |edits|
  {
    hide AfterEdit;
    var front := edits[..|edits| - 1];
    if front == [] {
      assert AfterEdits(ms, edits) == AfterEdit(AfterEdits(ms, []), edits[0]);
    } else {
      AfterEditsFirst(ms, front);
      assert edits[1..][..|edits| - 2] == front[1..];
    }
  }

  lemma {:induction false} EditsHold(t: Text, ms: seq<Marker>, edits: seq<Edit>)
    requires AllHold(t, ms) && AllApplicable(t, edits)
    ensures AllHold(ApplyEdits(t, edits), AfterEdits(ms, edits)) && Descends(ms, AfterEdits(ms, edits))
    decreases |edits|
  {
    hide AllHold, Descends, AfterEdit, ApplyEdit;
    if edits == [] {
      DescendsSelf(ms);
    } else {
      EditHolds(t, ms, edits[0]);
      EditsHold(ApplyEdit(t, edits[0]), AfterEdit(ms, edits[0]), edits[1..]);
      AfterEditsFirst(ms, edits);
      DescendsTrans(ms, AfterEdit(ms, edits[0]), AfterEdits(ms, edits));
    }
  }

  // ---- Histories ----

  /** A delta takes one text to the next; a resync may take it anywhere. */
  predicate Leads(t: Text, d: Highlight.ViewDelta, u: Text) {
    d.kind == Highlight.Resync || (AllApplicable(t, d.edits) && u == ApplyEdits(t, d.edits))
  }

  ghost predicate History(texts: seq<Text>, ds: seq<Highlight.ViewDelta>) {
    |texts| == |ds| + 1 && forall i | 0 <= i < |ds| :: Leads(texts[i], ds[i], texts[i + 1])
  }

  lemma DeltaHolds(t: Text, ms: seq<Marker>, d: Highlight.ViewDelta, u: Text)
    requires AllHold(t, ms) && Leads(t, d, u)
    ensures AllHold(u, AfterDelta(ms, d)) && Descends(ms, AfterDelta(ms, d))
  {
    if d.kind != Highlight.Resync { EditsHold(t, ms, d.edits); }
  }

  lemma {:induction false} DeltasHold(ms: seq<Marker>, texts: seq<Text>, ds: seq<Highlight.ViewDelta>)
    requires History(texts, ds) && AllHold(texts[0], ms)
    ensures AllHold(texts[|ds|], AfterDeltas(ms, ds)) && Descends(ms, AfterDeltas(ms, ds))
    decreases |ds|
  {
    hide AllHold, Descends, AfterDelta, Leads;
    if ds == [] {
      DescendsSelf(ms);
    } else {
      var n := |ds| - 1;
      DeltasHold(ms, texts[..n + 1], ds[..n]);
      DeltaHolds(texts[n], AfterDeltas(ms, ds[..n]), ds[n], texts[n + 1]);
      DescendsTrans(ms, AfterDeltas(ms, ds[..n]), AfterDeltas(ms, ds));
    }
  }

  // ---- Locating ----

  lemma {:induction false} NthNewlineCounts(t: Text, from: nat, n: nat)
    requires from <= |t|
    ensures match NthNewline(t, from, n)
      case None => Newlines(t) <= Newlines(t[..from]) + n
      case Some(i) => Newlines(t[..i]) == Newlines(t[..from]) + n
    decreases |t| - from
  {
    if from == |t| {
      assert t[..from] == t;
    } else {
      assert t[..from + 1][..from] == t[..from];
      NthNewlineCounts(t, from + 1, if t[from] == NEWLINE && n > 0 then n - 1 else n);
    }
  }

  lemma LastStart(t: Text)
    requires EndsInNewline(t)
    ensures Newlines(t) == Newlines(t[..|t| - 1]) + 1
    ensures LineStarts(t)[Newlines(t)] == |t|
  {
  }

  /** The line after the newline at `i` starts right behind it. */
  lemma NewlineStartsLine(t: Text, i: nat)
    requires i < |t| && t[i] == NEWLINE
    ensures Newlines(t[..i]) + 1 < LineCount(t) && LineStarts(t)[Newlines(t[..i]) + 1] == i + 1
    ensures Newlines(t[..i + 1]) == Newlines(t[..i]) + 1
  {
    hide LineStarts, Newlines;
    assert t[..i + 1][..i] == t[..i];
    LastStart(t[..i + 1]);
    PrefixStarts(t, i + 1, Newlines(t[..i + 1]));
  }

  lemma {:induction false} FirstLineStarts(t: Text)
    ensures LineStarts(t)[0] == 0
  {
    if t != [] { FirstLineStarts(t[..|t| - 1]); }
  }

  /** `locate` finds exactly the lines the line index has, and covers the line with its newline. */
  lemma LocateIsLine(cls: CharClasses, t: Text, line: nat, column: Option<nat>)
    requires line >= 1
    ensures Locate(cls, t, line, column).Some? <==> LineRange(t, line).Some?
    ensures Locate(cls, t, line, column).Some? ==>
      var (lo, hi) := LineRange(t, line).value;
      Locate(cls, t, line, column).value.0 == Range(lo, if hi + 1 <= |t| then hi + 1 else |t|)
  {
    hide LineStarts, NthNewline, Newlines, Squiggle, TrimCarriageReturns;
    FirstLineStarts(t);
    NewlinesOfNothing(t);
    var start := 0;
    var found := true;
    if line > 1 {
      NthNewlineCounts(t, 0, line - 2);
      match NthNewline(t, 0, line - 2)
      case None => found := false;
      case Some(i) =>
        NewlineStartsLine(t, i);
        start := i + 1;
    }
    if found {
      NthNewlineCounts(t, start, 0);
      var next := NthNewline(t, start, 0);
      if next.Some? { NewlineStartsLine(t, next.value); }
    }
  }

  lemma NewlinesOfNothing(t: Text)
    ensures Newlines(t[..0]) == 0
  {
  }

  lemma LineInOrder(t: Text, line: nat)
    requires LineRange(t, line).Some?
    ensures LineRange(t, line).value.0 <= LineRange(t, line).value.1 <= |t|
  {
    LocateIsLine(CharClasses(_ => false, _ => false), t, line, None);
  }

  /** The bytes of a line, with its newline if it has one. */
  function FullLine(t: Text, line: nat): Option<Text> {
    match LineRange(t, line)
    case None => None
    case Some((lo, hi)) => if lo <= hi <= |t| then Some(t[lo..if hi + 1 <= |t| then hi + 1 else |t|]) else None
  }

  ghost predicate OnLine(t: Text, m: Marker) {
    m.diag.line >= 1 && FullLine(t, m.diag.line) == Some(m.origin)
  }

  lemma {:induction false} LocatedHold(cls: CharClasses, source: string, t: Text, items: seq<DiagItem>)
    ensures forall m | m in LocatedAll(cls, source, t, items) ::
      Holds(t, m) && OnLine(t, m) && Placed(m) && m.diag.source == source
  {
    hide Holds, OnLine, Placed, Located;
    if items != [] {
      LocatedHold(cls, source, t, items[..|items| - 1]);
      LocatedOne(cls, source, t, items[|items| - 1]);
    }
  }

  lemma LocatePlaces(cls: CharClasses, t: Text, line: nat, column: Option<nat>)
    requires line >= 1
    ensures Locate(cls, t, line, column).Some? ==>
      var (covered, range) := Locate(cls, t, line, column).value;
      covered.In(t) && covered.start <= range.start <= range.end <= covered.end
  {
    hide NthNewline, TrimCarriageReturns;
  }

  /** A located marker says what was found. */
  lemma {:induction false} LocatedSays(cls: CharClasses, source: string, t: Text, items: seq<DiagItem>)
    ensures forall m | m in LocatedAll(cls, source, t, items) :: exists i :: 0 <= i < |items| && SaysItem(m, items[i], source)
    decreases |items|
  {
    hide Locate;
    if items != [] {
      var n := |items| - 1;
      LocatedSays(cls, source, t, items[..n]);
      forall m | m in LocatedAll(cls, source, t, items) ensures exists i :: 0 <= i < |items| && SaysItem(m, items[i], source) {
        if m in LocatedAll(cls, source, t, items[..n]) {
          var i :| 0 <= i < n && SaysItem(m, items[..n][i], source);
          assert SaysItem(m, items[i], source);
        } else {
          assert SaysItem(m, items[n], source);
        }
      }
    }
  }

  predicate SaysItem(m: Marker, item: DiagItem, source: string) {
    && m.diag.source == source && m.diag.severity == item.severity && m.diag.code == item.code
    && m.diag.message == item.message && m.diag.hint == item.hint
    && m.diag.line == (if item.line == 0 then 1 else item.line)
  }

  /** Every item on a line the text has is located, one marker for each, in order. */
  lemma {:induction false} LocatedAllOf(cls: CharClasses, source: string, t: Text, items: seq<DiagItem>)
    requires forall i | 0 <= i < |items| :: LineRange(t, if items[i].line == 0 then 1 else items[i].line).Some?
    ensures var ms := LocatedAll(cls, source, t, items);
      |ms| == |items| && forall i | 0 <= i < |items| :: SaysItem(ms[i], items[i], source)
    decreases |items|
  {
    hide Locate, LineRange;
    if items != [] {
      var n := |items| - 1;
      LocatedAllOf(cls, source, t, items[..n]);
      LocateIsLine(cls, t, if items[n].line == 0 then 1 else items[n].line, items[n].column);
    }
  }

  lemma LocatedOne(cls: CharClasses, source: string, t: Text, item: DiagItem)
    ensures forall m | m in Located(cls, source, t, item) :: Holds(t, m) && OnLine(t, m) && Placed(m) && m.diag.source == source
  {
    hide LineStarts, Newlines, Locate;
    var line := if item.line >= 1 then item.line else 1;
    LocateIsLine(cls, t, line, item.column);
    LocatePlaces(cls, t, line, item.column);
    if LineRange(t, line).Some? {
      LineInOrder(t, line);
      var covered := Locate(cls, t, line, item.column).value.0;
      assert FullLine(t, line) == Some(t[covered.start..covered.end]);
    }
  }
}
