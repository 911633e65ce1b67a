/**
 Whole runs of the highlight cache: deltas, relex requests, late results and drawing,
 in any order. A drawn line never shows tokens of text that has changed since.
 */
module HighlightRuns {
  import opened Seqs
  import opened Texts
  import opened Highlight

  /** The cache and its language, the view text it draws, its generation, and the text of every generation so far. */
  datatype World = World(language: string, inner: Inner, text: Text, gen: nat, history: map<nat, Text>)

  datatype Event =
    | Delta(d: ViewDelta, text: Text)
    | Request(tag: ResultTag)
    | Result(tag: ResultTag, spans: seq<Span>)
    | Ask(line: nat)

  /** What the relex worker computes for a source from a whole text. */
  type Lexer = (ResultTag, Text) -> seq<Span>

  /** A tag without its generation. */
  function Source(tag: ResultTag): ResultTag { tag.(viewGen := 0) }

  function Start(language: string, text: Text, gen: nat): World { World(language, EMPTY, text, gen, map[gen := text]) }

  /** Delta generations increase, and deltas do what they say. A result of the source last asked for is for a
      generation that existed, computed on its text; of a result of any other buffer, epoch, language or configuration
      nothing is known. */
  ghost predicate Possible(lex: Lexer, w: World, e: Event) {
    match e
    case Delta(d, text) =>
      d.viewGen > w.gen && (d.kind == Resync || (AllApplicable(w.text, d.edits) && text == ApplyEdits(w.text, d.edits)))
    case Result(tag, spans) =>
      w.inner.current.Some? && Source(w.inner.current.value) == Source(tag) ==>
        tag.viewGen in w.history && spans == lex(Source(tag), w.history[tag.viewGen])
    case _ => true
  }

  function Advance(w: World, e: Event): World {
    match e
    case Delta(d, text) => World(w.language, AfterDelta(w.inner, text, d), text, d.viewGen, w.history[d.viewGen := text])
    case Request(tag) => w.(inner := AfterRequest(w.language, w.inner, w.text, tag).0)
    case Result(tag, spans) => w.(inner := AfterResult(w.inner, tag, spans))
    case Ask(line) => w.(inner := AfterAsk(w.inner, w.text, line))
  }

  ghost predicate Follows(lex: Lexer, w: World, events: seq<Event>)
    decreases |events|
  {
    events == [] || (Possible(lex, w, events[0]) && Follows(lex, Advance(w, events[0]), events[1..]))
  }

  function After(w: World, events: seq<Event>): World
    decreases |events|
  {
    if events == [] then w else After(Advance(w, events[0]), events[1..])
  }

  // ---- The invariant ----

  ghost predicate Timeline(w: World) {
    && w.gen in w.history && w.history[w.gen] == w.text
    && forall g | g in w.history :: g <= w.gen
  }

  /** The touched log is in generation order, above its floor. */
  ghost predicate LogInOrder(w: World) {
    && w.inner.touchedFloor <= w.gen
    && (forall i | 0 <= i < |w.inner.touched| :: w.inner.touchedFloor < w.inner.touched[i].viewGen <= w.gen)
    && forall i, j | 0 <= i < j < |w.inner.touched| :: w.inner.touched[i].viewGen < w.inner.touched[j].viewGen
  }

  /** From the floor on, the log says which lines of an old text still stand. */
  ghost predicate LogTruthful(w: World) {
    forall g | g in w.history && w.inner.touchedFloor <= g ::
      Share(w.history[g], w.text, UntouchedSince(w.inner.touched, g))
  }

  ghost predicate MixTruthful(lex: Lexer, w: World) {
    w.inner.mix.Some? ==>
      var m := w.inner.mix.value;
      && w.inner.current.Some? && m.viewGen in w.history
      && m.spans == lex(Source(w.inner.current.value), w.history[m.viewGen]) && Share(w.history[m.viewGen], w.text, m.valid)
  }

  ghost predicate LinesTruthful(w: World) {
    forall l | l in w.inner.lines ::
      && w.inner.mix.Some? && w.inner.mix.value.valid.Has(l) && LineRange(w.text, l).Some?
      && var (lo, hi) := LineRange(w.text, l).value; w.inner.lines[l] == Clip(w.inner.mix.value.spans, lo, hi)
  }

  ghost predicate Truthful(lex: Lexer, w: World) {
    Timeline(w) && LogInOrder(w) && LogTruthful(w) && MixTruthful(lex, w) && LinesTruthful(w)
  }

  lemma UntouchedAppend(touched: seq<Touch>, t: Touch, gen: nat)
    ensures UntouchedSince(touched + [t], gen) ==
            if t.viewGen > gen then UntouchedSince(touched, gen).Meet(Before(t.line)) else UntouchedSince(touched, gen)
  {
    assert (touched + [t])[..|touched|] == touched;
  }

  /** Dropping an entry at or below `gen` loses nothing for results of `gen`. */
  lemma {:induction false} UntouchedDropFirst(touched: seq<Touch>, gen: nat)
    requires touched != [] && touched[0].viewGen <= gen
    ensures UntouchedSince(touched[1..], gen) == UntouchedSince(touched, gen)
  {
    if |touched| > 1 {
      var front := touched[..|touched| - 1];
      UntouchedDropFirst(front, gen);
      assert touched[1..][..|touched| - 2] == front[1..];
    }
  }

  lemma {:induction false} UntouchedByNone(touched: seq<Touch>, gen: nat)
    requires forall i | 0 <= i < |touched| :: touched[i].viewGen <= gen
    ensures UntouchedSince(touched, gen) == AllLines
  {
    if touched != [] { UntouchedByNone(touched[..|touched| - 1], gen); }
  }

  // ---- Deltas ----

  /** A delta leaves every line before the first one it touched as it was. */
  lemma DeltaShares(lex: Lexer, w: World, d: ViewDelta, text: Text)
    requires Possible(lex, w, Delta(d, text))
    ensures match FirstTouched(text, d)
      case None => text == w.text
      case Some(first) => Share(w.text, text, Before(first))
  {
    if d.kind == Resync {
      assert SharePrefix(w.text, text, 0);
    } else if d.edits != [] {
      var p := MinOffset(d.edits);
      MinOffsetInText(w.text, d.edits);
      EditsKeepPrefix(w.text, d.edits, p);
      assert SharePrefix(w.text, text, p);
    }
  }

  lemma MinOffsetInText(t: Text, edits: seq<Edit>)
    requires edits != [] && AllApplicable(t, edits)
    ensures MinOffset(edits) <= |t|
  {
    assert edits[0].offset <= |t|;
  }

  lemma LoggedInOrder(inner: Inner, gen: nat, touch: Touch)
    requires inner.touchedFloor <= gen < touch.viewGen
    requires forall i | 0 <= i < |inner.touched| :: inner.touchedFloor < inner.touched[i].viewGen <= gen
    requires forall i, j | 0 <= i < j < |inner.touched| :: inner.touched[i].viewGen < inner.touched[j].viewGen
    ensures var after := Logged(inner, touch);
      && after.touchedFloor <= touch.viewGen
      && (forall i | 0 <= i < |after.touched| :: after.touchedFloor < after.touched[i].viewGen <= touch.viewGen)
      && forall i, j | 0 <= i < j < |after.touched| :: after.touched[i].viewGen < after.touched[j].viewGen
  {
    var logged := inner.touched + [touch];
    assert forall i, j | 0 <= i < j < |logged| :: logged[i].viewGen < logged[j].viewGen;
  }

  lemma DeltaKeepsOrder(w: World, d: ViewDelta, text: Text)
    requires LogInOrder(w) && d.viewGen > w.gen
    ensures LogInOrder(Advance(w, Delta(d, text)))
  {
    hide FirstTouched, Logged;
    if FirstTouched(text, d).Some? {
      var first := FirstTouched(text, d).value;
      LoggedInOrder(w.inner.(lines := LinesAbove(w.inner.lines, first), mix := Narrow(w.inner.mix, first)), w.gen, Touch(d.viewGen, first));
    }
  }

  lemma DeltaKeepsLog(lex: Lexer, w: World, d: ViewDelta, text: Text)
    requires Truthful(lex, w) && Possible(lex, w, Delta(d, text))
    ensures LogTruthful(Advance(w, Delta(d, text)))
  {
    hide Share, LinesTruthful, MixTruthful;
    DeltaKeepsOrder(w, d, text);
    var w' := Advance(w, Delta(d, text));
    DeltaShares(lex, w, d, text);
    var first := FirstTouched(text, d);
    forall g | g in w'.history && w'.inner.touchedFloor <= g
      ensures Share(w'.history[g], text, UntouchedSince(w'.inner.touched, g))
    {
      if g == d.viewGen {
        UntouchedByNone(w'.inner.touched, g);
        ShareSelf(text);
      } else if first.Some? {
        var touch := Touch(d.viewGen, first.value);
        UntouchedAppend(w.inner.touched, touch, g);
        if |w.inner.touched| + 1 > MAX_TOUCHED { UntouchedDropFirst(w.inner.touched + [touch], g); }
        ShareTrans(w.history[g], w.text, text, UntouchedSince(w.inner.touched, g), Before(first.value));
      }
    }
  }

  lemma ShareSelf(t: Text)
    ensures Share(t, t, AllLines)
  {
  }

  lemma DeltaKeepsMix(lex: Lexer, w: World, d: ViewDelta, text: Text)
    requires Truthful(lex, w) && Possible(lex, w, Delta(d, text))
    ensures MixTruthful(lex, Advance(w, Delta(d, text)))
  {
    hide Share, LinesTruthful, LogTruthful, LogInOrder;
    DeltaShares(lex, w, d, text);
    if w.inner.mix.Some? && FirstTouched(text, d).Some? {
      var m := w.inner.mix.value;
      ShareTrans(w.history[m.viewGen], w.text, text, m.valid, Before(FirstTouched(text, d).value));
    }
  }

  lemma DeltaKeepsLines(lex: Lexer, w: World, d: ViewDelta, text: Text)
    requires Truthful(lex, w) && Possible(lex, w, Delta(d, text))
    ensures LinesTruthful(Advance(w, Delta(d, text)))
  {
    hide Share, MixTruthful, LogTruthful, LogInOrder, Timeline, Clip;
    DeltaShares(lex, w, d, text);
    var w', first := Advance(w, Delta(d, text)), FirstTouched(text, d);
    if first.Some? {
      forall l | l in w'.inner.lines ensures LineRange(text, l) == LineRange(w.text, l) && LineRange(text, l).Some? {
        ShareSymmetric(w.text, text, Before(first.value));
        SharedLine(text, w.text, Before(first.value), l);
      }
    }
  }

  lemma ShareSymmetric(t: Text, u: Text, lines: Lines)
    requires Share(t, u, lines)
    ensures Share(u, t, lines)
  {
    if lines.Before? {
      var p: nat :| SharePrefix(t, u, p) && lines.line <= Newlines(t[..p]) + 1;
      assert SharePrefix(u, t, p);
    }
  }

  // ---- The other events ----

  lemma StepTruthful(lex: Lexer, w: World, e: Event)
    requires Truthful(lex, w) && Possible(lex, w, e)
    ensures Truthful(lex, Advance(w, e))
  {
    match e
    case Delta(d, text) => DeltaTruthful(lex, w, d, text);
    case Request(tag) => RequestTruthful(lex, w, tag);
    case Result(tag, spans) => ResultTruthful(lex, w, tag, spans);
    case Ask(line) => AskTruthful(lex, w, line);
  }

  lemma DeltaTruthful(lex: Lexer, w: World, d: ViewDelta, text: Text)
    requires Truthful(lex, w) && Possible(lex, w, Delta(d, text))
    ensures Truthful(lex, Advance(w, Delta(d, text)))
  {
    DeltaKeepsOrder(w, d, text);
    DeltaKeepsLog(lex, w, d, text);
    DeltaKeepsMix(lex, w, d, text);
    DeltaKeepsLines(lex, w, d, text);
    hide LogInOrder, LogTruthful, MixTruthful, LinesTruthful, AfterDelta;
  }

  lemma RequestTruthful(lex: Lexer, w: World, tag: ResultTag)
    requires Truthful(lex, w)
    ensures Truthful(lex, Advance(w, Request(tag)))
  {
    hide Share, Clip, LogTruthful, LogInOrder;
    LogUnchanged(w, Advance(w, Request(tag)));
  }

  lemma ResultTruthful(lex: Lexer, w: World, tag: ResultTag, spans: seq<Span>)
    requires Truthful(lex, w) && Possible(lex, w, Result(tag, spans))
    ensures Truthful(lex, Advance(w, Result(tag, spans)))
  {
    hide Share, Clip, LogTruthful, LogInOrder, UntouchedSince;
    LogUnchanged(w, Advance(w, Result(tag, spans)));
    if w.inner.touchedFloor <= tag.viewGen && tag.viewGen in w.history { ResultShares(w, tag); }
  }

  lemma AskTruthful(lex: Lexer, w: World, line: nat)
    requires Truthful(lex, w)
    ensures Truthful(lex, Advance(w, Ask(line)))
  {
    hide Share, Clip, LogTruthful, LogInOrder, LineRange;
    LogUnchanged(w, Advance(w, Ask(line)));
  }

  lemma LogUnchanged(w: World, w': World)
    requires LogInOrder(w) && LogTruthful(w)
    requires w'.inner.touched == w.inner.touched && w'.inner.touchedFloor == w.inner.touchedFloor
    requires w'.text == w.text && w'.gen == w.gen && w'.history == w.history
    ensures LogInOrder(w') && LogTruthful(w')
  {
  }

  /** A late result is trusted exactly for the lines the log knows to be untouched since its generation. */
  lemma ResultShares(w: World, tag: ResultTag)
    requires LogTruthful(w) && tag.viewGen in w.history && w.inner.touchedFloor <= tag.viewGen
    ensures Share(w.history[tag.viewGen], w.text, UntouchedSince(w.inner.touched, tag.viewGen))
  {
  }

  lemma {:induction false} RunTruthful(lex: Lexer, w: World, events: seq<Event>)
    requires Truthful(lex, w) && Follows(lex, w, events)
    ensures Truthful(lex, After(w, events))
    decreases |events|
  {
    hide Truthful, Advance;
    if events != [] {
      StepTruthful(lex, w, events[0]);
      RunTruthful(lex, Advance(w, events[0]), events[1..]);
    }
  }

  lemma StartTruthful(lex: Lexer, language: string, text: Text, gen: nat)
    ensures Truthful(lex, Start(language, text, gen))
  {
  }

  /** Staleness: after any run, whatever is drawn on a line comes from a result of some generation `g` of the source
      last asked for, is that result's tokens on that line, and the text up to the end of the line is byte for byte what
      it was at `g`. */
  lemma DrawnLinesAreTruthful(
    lex: Lexer, language: string, text: Text, gen: nat, events: seq<Event>, line: nat)
    requires Follows(lex, Start(language, text, gen), events)
    requires line in After(Start(language, text, gen), events).inner.lines
    ensures var w := After(Start(language, text, gen), events);
      && w.inner.mix.Some? && w.inner.mix.value.viewGen in w.history && w.inner.current.Some?
      && var old' := w.history[w.inner.mix.value.viewGen];
      && LineRange(w.text, line).Some? && LineRange(old', line) == LineRange(w.text, line)
      && var (lo, hi) := LineRange(w.text, line).value;
      && SharePrefix(old', w.text, hi)
      && w.inner.lines[line] == Clip(lex(Source(w.inner.current.value), old'), lo, hi)
  {
    StartTruthful(lex, language, text, gen);
    RunTruthful(lex, Start(language, text, gen), events);
    var w := After(Start(language, text, gen), events);
    SharedLine(w.history[w.inner.mix.value.viewGen], w.text, w.inner.mix.value.valid, line);
  }

  // ---- Requests ----

  /** One relex is asked for once: asking again before anything else happens is not due and changes nothing. */
  lemma RequestedOnce(language: string, inner: Inner, text: Text, tag: ResultTag)
    ensures var (after, due) := AfterRequest(language, inner, text, tag);
      AfterRequest(language, after, text, tag) == (after, false)
  {
    assert tag.SameSource(tag);
  }

  lemma InnerSettles(language: string, inner: Inner, text: Text, tag: ResultTag, spans: seq<Span>)
    requires tag.language == language && |text| <= MIX_MAX_BYTES
    requires inner.touchedFloor <= tag.viewGen && UntouchedSince(inner.touched, tag.viewGen) == AllLines
    requires inner.mix.Some? ==> inner.mix.value.viewGen <= tag.viewGen
    ensures var answered := AfterResult(AfterRequest(language, inner, text, tag).0, tag, spans);
      && answered.mix == Some(MixState(tag.viewGen, spans, AllLines))
      && !AfterRequest(language, answered, text, tag).1
  {
    hide UntouchedSince;
    assert tag.SameSource(tag);
    var asked := AfterRequest(language, inner, text, tag).0;
    assert asked.current == Some(tag) && asked.touched == inner.touched && asked.touchedFloor == inner.touchedFloor;
    assert asked.mix == inner.mix || asked.mix.None?;
    var answered := AfterResult(asked, tag, spans);
    assert answered.current == Some(tag) && answered.mix == Some(MixState(tag.viewGen, spans, AllLines));
  }

  /** A result for the current text settles its request: nothing is due until the text, the language or the
      configuration changes, and every line can be drawn. */
  lemma ResultSettles(lex: Lexer, w: World, tag: ResultTag, spans: seq<Span>)
    requires Truthful(lex, w) && tag.viewGen == w.gen && tag.language == w.language && |w.text| <= MIX_MAX_BYTES
    ensures var asked := Advance(w, Request(tag));
      var answered := Advance(asked, Result(tag, spans));
      && answered.inner.mix == Some(MixState(w.gen, spans, AllLines))
      && !AfterRequest(w.language, answered.inner, w.text, tag).1
  {
    hide AfterRequest, AfterResult, UntouchedSince, LogTruthful, LinesTruthful;
    LogNotAfterNow(w);
    UntouchedByNone(w.inner.touched, w.gen);
    if w.inner.mix.Some? { MixNotAfterNow(lex, w); }
    InnerSettles(w.language, w.inner, w.text, tag, spans);
  }

  lemma LogNotAfterNow(w: World)
    requires LogInOrder(w)
    ensures w.inner.touchedFloor <= w.gen && forall i | 0 <= i < |w.inner.touched| :: w.inner.touched[i].viewGen <= w.gen
  {
  }

  lemma MixNotAfterNow(lex: Lexer, w: World)
    requires Timeline(w) && MixTruthful(lex, w) && w.inner.mix.Some?
    ensures w.inner.mix.value.viewGen <= w.gen
  {
  }
}
