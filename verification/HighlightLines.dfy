/** Which lines the highlight cache trusts, keeps and draws, exactly. */
module HighlightLines {
  import opened Seqs
  import opened Texts
  import opened Highlight
  import opened HighlightRuns
  import opened HighlightDuty

  // ---- What a delta touches ----

  lemma NewlinesInside(t: Text, p: nat)
    requires p <= |t|
    ensures Newlines(t[..p]) < LineCount(t)
  {
    NewlinesGrow(t, p, |t|);
    assert t[..|t|] == t;
  }

  /** A line lies before the first touched one iff its newline lies before every step of the delta. */
  lemma TouchedExactly(text: Text, d: ViewDelta, line: nat)
    requires d.kind != Resync && d.edits != [] && LineRange(text, line).Some?
    ensures line < FirstTouched(text, d).value <==>
      var end := LineRange(text, line).value.1; end < |text| && end < MinOffset(d.edits)
  {
    hide LineStarts, Newlines, MinOffset;
    var p := Min(MinOffset(d.edits), |text|);
    NewlinesInside(text, p);
    if line < LineCount(text) {
      StartsCountNewlines(text, p, line);
      StartsArePositive(text, line);
    }
  }

  lemma StartsArePositive(t: Text, line: nat)
    requires 1 <= line < LineCount(t)
    ensures 0 < LineStarts(t)[line] <= |t|
  {
  }

  /** A delta leaves trusted exactly the trusted lines before the first it touched, and keeps what it had of them. */
  lemma DeltaNarrowsExactly(inner: Inner, text: Text, d: ViewDelta, line: nat)
    requires FirstTouched(text, d).Some?
    ensures var after, first := AfterDelta(inner, text, d), FirstTouched(text, d).value;
      && (inner.mix.Some? <==> after.mix.Some?)
      && (inner.mix.Some? ==> (after.mix.value.valid.Has(line) <==> inner.mix.value.valid.Has(line) && line < first))
      && (line in after.lines <==> line in inner.lines && line < first)
      && (line in after.lines ==> after.lines[line] == inner.lines[line])
  {
    hide FirstTouched;
  }

  // ---- What a result is trusted for ----

  lemma {:induction false} UntouchedExactly(touched: seq<Touch>, gen: nat, line: nat)
    ensures UntouchedSince(touched, gen).Has(line) <==> forall i | 0 <= i < |touched| && touched[i].viewGen > gen :: line < touched[i].line
  {
    if touched != [] { UntouchedExactly(touched[..|touched| - 1], gen, line); }
  }

  /** Every touch of a run. */
  ghost function Touches(events: seq<Event>): seq<Touch> {
    if events == [] then []
    else
      var rest, last := Touches(events[..|events| - 1]), events[|events| - 1];
      if last.Delta? && FirstTouched(last.text, last.d).Some?
      then rest + [Touch(last.d.viewGen, FirstTouched(last.text, last.d).value)] else rest
  }

  /** The log is the end of all the touches, and its floor the last one it lost. */
  ghost predicate LogIsEnd(inner: Inner, all: seq<Touch>, lost: nat) {
    && lost <= |all| && inner.touched == all[lost..] && |inner.touched| <= MAX_TOUCHED
    && (lost > 0 ==> |inner.touched| == MAX_TOUCHED)
    && inner.touchedFloor == if lost == 0 then 0 else all[lost - 1].viewGen
  }

  lemma LoggedIsEnd(inner: Inner, all: seq<Touch>, lost: nat, touch: Touch)
    requires LogIsEnd(inner, all, lost)
    ensures var after := Logged(inner, touch);
      LogIsEnd(after, all + [touch], if |inner.touched| == MAX_TOUCHED then lost + 1 else lost)
  {
    var more := all + [touch];
    assert more[lost..] == all[lost..] + [touch];
    if |inner.touched| == MAX_TOUCHED {
      assert (inner.touched + [touch])[1..] == more[lost + 1..];
      assert more[lost] == (inner.touched + [touch])[0];
    }
  }

  lemma StepLogIsEnd(lex: Lexer, w: World, e: Event, all: seq<Touch>, lost: nat) returns (lost': nat)
    requires Possible(lex, w, e) && LogIsEnd(w.inner, all, lost)
    ensures var touch := e.Delta? && FirstTouched(e.text, e.d).Some?;
      LogIsEnd(Advance(w, e).inner, if touch then all + [Touch(e.d.viewGen, FirstTouched(e.text, e.d).value)] else all, lost')
  {
    hide FirstTouched, Logged, Clip, LineRange, UntouchedSince, InsertLine;
    lost' := lost;
    if e.Delta? && FirstTouched(e.text, e.d).Some? {
      var first := FirstTouched(e.text, e.d).value;
      var inner := w.inner.(lines := LinesAbove(w.inner.lines, first), mix := Narrow(w.inner.mix, first));
      LoggedIsEnd(inner, all, lost, Touch(e.d.viewGen, first));
      lost' := if |inner.touched| == MAX_TOUCHED then lost + 1 else lost;
    }
  }

  lemma {:induction false} RunLogIsEnd(lex: Lexer, w: World, events: seq<Event>) returns (lost: nat)
    requires Follows(lex, w, events) && w.inner == EMPTY
    ensures LogIsEnd(After(w, events).inner, Touches(events), lost)
    decreases |events|
  {
    hide Follows, Advance, FirstTouched, LogIsEnd;
    if events == [] {
      EmptyLogIsEnd(lex, w);
      lost := 0;
    } else {
      AfterLast(lex, w, events);
      var before := RunLogIsEnd(lex, w, events[..|events| - 1]);
      lost := StepLogIsEnd(lex, After(w, events[..|events| - 1]), events[|events| - 1], Touches(events[..|events| - 1]), before);
    }
  }

  lemma EmptyLogIsEnd(lex: Lexer, w: World)
    requires w.inner == EMPTY
    ensures Follows(lex, w, []) && LogIsEnd(After(w, []).inner, Touches([]), 0)
  {
  }

  ghost predicate Rising(all: seq<Touch>, gen: nat) {
    && (forall i | 0 <= i < |all| :: all[i].viewGen <= gen)
    && forall i, j | 0 <= i < j < |all| :: all[i].viewGen < all[j].viewGen
  }

  lemma {:induction false} TouchesRise(lex: Lexer, w: World, events: seq<Event>)
    requires Follows(lex, w, events)
    ensures Rising(Touches(events), After(w, events).gen)
    decreases |events|
  {
    hide Follows, FirstTouched, AfterDelta, AfterRequest, AfterResult, AfterAsk;
    if events != [] {
      AfterLast(lex, w, events);
      TouchesRise(lex, w, events[..|events| - 1]);
    }
  }

  /** The cache takes the result: it is of its source, no older than the one it holds, and its log reaches back. */
  predicate Takes(inner: Inner, tag: ResultTag) {
    && Serves(inner, tag) && (inner.mix.Some? ==> inner.mix.value.viewGen <= tag.viewGen) && inner.touchedFloor <= tag.viewGen
  }

  /** A result is installed iff the cache takes it; a result it does not take changes nothing that is drawn. */
  lemma ResultTakenExactly(inner: Inner, tag: ResultTag, spans: seq<Span>)
    ensures var after := AfterResult(inner, tag, spans);
      if Takes(inner, tag) then
        && after.lines == map[] && after.mix.Some? && after.mix.value.viewGen == tag.viewGen && after.mix.value.spans == spans
        && after.mix.value.valid == UntouchedSince(inner.touched, tag.viewGen)
      else after.mix == inner.mix && after.lines == inner.lines
  {
  }

  lemma LostAreOld(inner: Inner, all: seq<Touch>, lost: nat, gen: nat, tag: ResultTag, line: nat)
    requires LogIsEnd(inner, all, lost) && Rising(all, gen) && inner.touchedFloor <= tag.viewGen
    ensures (forall i | 0 <= i < |inner.touched| && inner.touched[i].viewGen > tag.viewGen :: line < inner.touched[i].line) <==>
            (forall i | 0 <= i < |all| && all[i].viewGen > tag.viewGen :: line < all[i].line)
  {
    assert forall i | 0 <= i < lost :: all[i].viewGen <= tag.viewGen;
    assert forall i | 0 <= i < |inner.touched| :: inner.touched[i] == all[lost + i];
    assert forall i | lost <= i < |all| :: all[i] == inner.touched[i - lost];
  }

  /** In any run, a result that is taken is trusted for exactly the lines that no delta after its generation touched. */
  lemma TrustedExactly(lex: Lexer, language: string, text: Text, gen: nat, events: seq<Event>, tag: ResultTag, spans: seq<Span>, line: nat)
    requires var w := Start(language, text, gen); Follows(lex, w, events) && Takes(After(w, events).inner, tag)
    ensures var all := Touches(events);
      var inner := Advance(After(Start(language, text, gen), events), Result(tag, spans)).inner;
      inner.mix.Some? && (inner.mix.value.valid.Has(line) <==> forall i | 0 <= i < |all| && all[i].viewGen > tag.viewGen :: line < all[i].line)
  {
    hide Follows, After, Touches, LogIsEnd, Rising, UntouchedSince, AfterResult;
    var start := Start(language, text, gen);
    var w := After(start, events);
    var lost := RunLogIsEnd(lex, start, events);
    TouchesRise(lex, start, events);
    ResultTakenExactly(w.inner, tag, spans);
    UntouchedExactly(w.inner.touched, tag.viewGen, line);
    LostAreOld(w.inner, Touches(events), lost, w.gen, tag, line);
  }

  /** While the source stays and the text is not too large, a held result is only ever replaced by one as new. */
  lemma ResultsNeverGoBack(lex: Lexer, w: World, e: Event)
    requires Possible(lex, w, e) && w.inner.mix.Some?
    requires e.Request? && e.tag.language == w.language ==> Serves(w.inner, e.tag) && |w.text| <= MIX_MAX_BYTES
    ensures var mix := Advance(w, e).inner.mix; mix.Some? && mix.value.viewGen >= w.inner.mix.value.viewGen
  {
    hide AfterDelta, UntouchedSince, Clip, InsertLine, LineRange;
    if e.Delta? { LoggedKeepsRest(w.inner, e.text, e.d); }
  }

  // ---- What is drawn ----

  /** Some span gives position `i` the class `c`. */
  ghost predicate Paints(spans: seq<Span>, i: nat, c: nat) {
    exists k :: 0 <= k < |spans| && spans[k].start <= i < spans[k].end && spans[k].class_ == c
  }

  lemma PaintsConcat(a: seq<Span>, b: seq<Span>, i: nat, c: nat)
    ensures Paints(a + b, i, c) <==> Paints(a, i, c) || Paints(b, i, c)
  {
    var all := a + b;
    if Paints(a, i, c) {
      var k :| 0 <= k < |a| && a[k].start <= i < a[k].end && a[k].class_ == c;
      assert all[k] == a[k];
    }
    if Paints(b, i, c) {
      var k :| 0 <= k < |b| && b[k].start <= i < b[k].end && b[k].class_ == c;
      assert all[|a| + k] == b[k];
    }
    if Paints(all, i, c) {
      var k :| 0 <= k < |all| && all[k].start <= i < all[k].end && all[k].class_ == c;
      if k < |a| { assert a[k] == all[k]; } else { assert b[k - |a|] == all[k]; }
    }
  }

  lemma PaintsOne(s: Span, lo: nat, hi: nat, i: nat, c: nat)
    ensures Paints(ClipOne(s, lo, hi), i, c) <==> Paints([s], i, c) && lo <= i < hi && c != PLAIN
  {
    var one := [s];
    assert one[0] == s;
    assert Paints(one, i, c) <==> s.start <= i < s.end && s.class_ == c;
    var clipped := ClipOne(s, lo, hi);
    if clipped != [] { assert clipped[0].class_ == s.class_; }
  }

  /** A line is painted exactly where the tokens are: a position gets a class iff it lies on the line, some token there
      has that class, and the class is not the plain one. */
  lemma {:induction false} ClipPaintsExactly(spans: seq<Span>, lo: nat, hi: nat, i: nat, c: nat)
    ensures Paints(Clip(spans, lo, hi), i, c) <==> Paints(spans, i, c) && lo <= i < hi && c != PLAIN
  {
    hide ClipOne;
    if spans != [] {
      hide Paints;
      ClipPaintsExactly(spans[1..], lo, hi, i, c);
      PaintsConcat(ClipOne(spans[0], lo, hi), Clip(spans[1..], lo, hi), i, c);
      PaintsConcat([spans[0]], spans[1..], i, c);
      PaintsOne(spans[0], lo, hi, i, c);
      assert spans == [spans[0]] + spans[1..];
    }
  }

  /** In any run, asking for a line draws it iff the held result is trusted for it and the text has it. */
  lemma AskDrawsExactly(lex: Lexer, language: string, text: Text, gen: nat, events: seq<Event>, line: nat)
    requires Follows(lex, Start(language, text, gen), events)
    ensures var w := After(Start(language, text, gen), events);
      line in Advance(w, Ask(line)).inner.lines <==>
        w.inner.mix.Some? && w.inner.mix.value.valid.Has(line) && LineRange(w.text, line).Some?
  {
    hide Follows, After, LineRange, Clip, LogTruthful, LogInOrder, MixTruthful, InsertLine;
    StartTruthful(lex, language, text, gen);
    RunTruthful(lex, Start(language, text, gen), events);
    var w := After(Start(language, text, gen), events);
    InsertHas(w.inner, w.text, line);
  }

  lemma InsertHas(inner: Inner, text: Text, line: nat)
    ensures line !in inner.lines && inner.mix.Some? && inner.mix.value.valid.Has(line) && LineRange(text, line).Some? ==>
            line in AfterAsk(inner, text, line).lines
  {
    hide LineRange, Clip;
  }

  // ---- The bound of the cache ----

  lemma {:induction false} IntervalSize(s: set<nat>, a: nat, n: nat)
    requires forall x | x in s :: a <= x < a + n
    ensures |s| <= n
    decreases n
  {
    if n == 0 {
      assert s == {};
    } else {
      var last := a + n - 1;
      IntervalSize(s - {last}, a, n - 1);
      if last in s { assert |s| == |s - {last}| + 1; } else { assert s - {last} == s; }
    }
  }

  /** A full cache keeps exactly the lines around the new one; any other keeps all. */
  lemma InsertKeepsExactly(lines: map<nat, seq<Span>>, line: nat, spans: seq<Span>, l: nat)
    requires l != line
    ensures var after := InsertLine(lines, line, spans);
      && (l in after <==> l in lines && (|lines| < MAX_CACHED_LINES || (line <= l + 1024 && l < line + 1024)))
      && (l in after ==> after[l] == lines[l])
  {
  }

  lemma InsertBounded(lines: map<nat, seq<Span>>, line: nat, spans: seq<Span>)
    requires |lines| <= MAX_CACHED_LINES
    ensures |InsertLine(lines, line, spans)| <= MAX_CACHED_LINES
  {
    var after := InsertLine(lines, line, spans);
    var others := after.Keys - {line};
    assert after.Keys == others + {line};
    if |lines| >= MAX_CACHED_LINES {
      IntervalSize(others, if line >= 1024 then line - 1024 else 0, 2048);
    } else {
      assert others <= lines.Keys;
      SmallerSet(others, lines.Keys);
    }
  }

  lemma {:induction false} SmallerSet(a: set<nat>, b: set<nat>)
    requires a <= b
    ensures |a| <= |b|
  {
    var same := map x | x in a :: x;
    assert same.Keys == a;
    InjectionBound(same, b);
  }

  lemma DeltaBounded(inner: Inner, text: Text, d: ViewDelta)
    ensures |AfterDelta(inner, text, d).lines| <= |inner.lines|
  {
    hide FirstTouched;
    SmallerSet(AfterDelta(inner, text, d).lines.Keys, inner.lines.Keys);
  }

  /** However many lines are drawn, the cache never holds more than its bound. */
  lemma {:induction false} CacheIsBounded(lex: Lexer, w: World, events: seq<Event>)
    requires Follows(lex, w, events) && |w.inner.lines| <= MAX_CACHED_LINES
    ensures |After(w, events).inner.lines| <= MAX_CACHED_LINES
    decreases |events|
  {
    hide AfterDelta, Clip, InsertLine, LineRange, UntouchedSince;
    if events != [] {
      match events[0] {
        case Delta(d, text) => DeltaBounded(w.inner, text, d);
        case Ask(line) => AskBounded(w.inner, w.text, line);
        case _ =>
      }
      CacheIsBounded(lex, Advance(w, events[0]), events[1..]);
    }
  }

  lemma AskBounded(inner: Inner, text: Text, line: nat)
    requires |inner.lines| <= MAX_CACHED_LINES
    ensures |AfterAsk(inner, text, line).lines| <= MAX_CACHED_LINES
  {
    hide InsertLine, Clip, LineRange;
    if LineRange(text, line).Some? && inner.mix.Some? {
      var (lo, hi) := LineRange(text, line).value;
      InsertBounded(inner.lines, line, Clip(inner.mix.value.spans, lo, hi));
    }
  }
}
