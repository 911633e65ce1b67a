/**
 What the highlight cache must do: when a relex is due, which lines a result is trusted for,
 and that a trusted line is drawn.
 */
module HighlightDuty {
  import opened Seqs
  import opened Texts
  import opened Highlight
  import opened HighlightRuns

  // ---- Requests ----

  /** The cache serves the source of the tag. */
  predicate Serves(inner: Inner, tag: ResultTag) { inner.current.Some? && inner.current.value.SameSource(tag) }

  /** A result for the tag's own text is held, and every line of it still stands. */
  predicate Answered(inner: Inner, tag: ResultTag) {
    Serves(inner, tag) && inner.mix.Some? && inner.mix.value.viewGen == tag.viewGen && inner.mix.value.valid.AllLines?
  }

  /** The tag's generation has been asked for. */
  predicate Asked(inner: Inner, tag: ResultTag) { Serves(inner, tag) && inner.requested == Some(tag.viewGen) }

  predicate Relexable(language: string, text: Text, tag: ResultTag) { tag.language == language && |text| <= MIX_MAX_BYTES }

  lemma DueExactly(language: string, inner: Inner, text: Text, tag: ResultTag)
    ensures var (after, due) := AfterRequest(language, inner, text, tag);
      && (due <==> Relexable(language, text, tag) && !Answered(inner, tag) && !Asked(inner, tag))
      && (due ==> Asked(after, tag))
  {
    assert tag.SameSource(tag);
  }

  /** A text that is too large is neither relexed nor drawn. */
  lemma TooLargeIsNotDrawn(language: string, inner: Inner, text: Text, tag: ResultTag)
    requires tag.language == language && |text| > MIX_MAX_BYTES
    ensures var (after, due) := AfterRequest(language, inner, text, tag);
      !due && after.mix == None && after.lines == map[]
  {
  }

  // ---- Requests over runs ----

  lemma {:induction false} AfterLast(lex: Lexer, w: World, events: seq<Event>)
    requires events != []
    ensures var front, last := events[..|events| - 1], events[|events| - 1];
      && (Follows(lex, w, events) <==> Follows(lex, w, front) && Possible(lex, After(w, front), last))
      && (Follows(lex, w, events) ==> After(w, events) == Advance(After(w, front), last))
    decreases |events|
  {
    hide Advance;
    var front := events[..|events| - 1];
    if |events| == 1 {
      assert events[1..] == [] && front == [];
      assert Possible(lex, w, events[0]) ==> Follows(lex, Advance(w, events[0]), []);
    } else if Possible(lex, w, events[0]) {
      var rest := events[1..];
      AfterLast(lex, Advance(w, events[0]), rest);
      assert front[1..] == rest[..|rest| - 1] && front[0] == events[0] && rest[|rest| - 1] == events[|events| - 1];
    }
  }

  lemma {:induction false} FollowsPrefix(lex: Lexer, w: World, events: seq<Event>, i: nat)
    requires Follows(lex, w, events) && i <= |events|
    ensures Follows(lex, w, events[..i])
    decreases |events|
  {
    hide Follows;
    if i < |events| {
      AfterLast(lex, w, events);
      FollowsPrefix(lex, w, events[..|events| - 1], i);
      assert events[..|events| - 1][..i] == events[..i];
    } else {
      assert events[..i] == events;
    }
  }

  /** The `i`-th event is a request that was due. */
  ghost predicate DueAt(lex: Lexer, w: World, events: seq<Event>, i: nat)
    requires Follows(lex, w, events) && i < |events|
  {
    FollowsPrefix(lex, w, events, i);
    var s := After(w, events[..i]);
    events[i].Request? && AfterRequest(s.language, s.inner, s.text, events[i].tag).1
  }

  /** The `i`-th event ends the waiting for the tag's relex: its answer, another source, or another generation asked. */
  ghost predicate EndsWait(lex: Lexer, w: World, events: seq<Event>, i: nat, tag: ResultTag)
    requires Follows(lex, w, events) && i < |events|
  {
    match events[i]
    case Result(q, spans) => q.SameSource(tag) && q.viewGen == tag.viewGen
    case Request(q) =>
      q.language == w.language && (!q.SameSource(tag) || (q.viewGen != tag.viewGen && DueAt(lex, w, events, i)))
    case _ => false
  }

  ghost predicate AskedAt(lex: Lexer, w: World, events: seq<Event>, i: nat, tag: ResultTag)
    requires Follows(lex, w, events) && i < |events|
  {
    && events[i].Request? && DueAt(lex, w, events, i) && events[i].tag.SameSource(tag) && events[i].tag.viewGen == tag.viewGen
    && forall j | i < j < |events| :: !EndsWait(lex, w, events, j, tag)
  }

  /** The tag's relex was asked for, and nothing since has ended the waiting. */
  ghost predicate Outstanding(lex: Lexer, w: World, events: seq<Event>, tag: ResultTag)
    requires Follows(lex, w, events)
  {
    exists i: nat :: i < |events| && AskedAt(lex, w, events, i, tag)
  }

  lemma DueAtPrefix(lex: Lexer, w: World, events: seq<Event>, i: nat)
    requires Follows(lex, w, events) && i + 1 < |events| && Follows(lex, w, events[..|events| - 1])
    ensures DueAt(lex, w, events, i) <==> DueAt(lex, w, events[..|events| - 1], i)
  {
    hide Follows, After, AfterRequest;
    assert events[..|events| - 1][..i] == events[..i];
  }

  lemma EndsWaitPrefix(lex: Lexer, w: World, events: seq<Event>, i: nat, tag: ResultTag)
    requires Follows(lex, w, events) && i + 1 < |events| && Follows(lex, w, events[..|events| - 1])
    ensures EndsWait(lex, w, events, i, tag) <==> EndsWait(lex, w, events[..|events| - 1], i, tag)
  {
    hide Follows, DueAt;
    DueAtPrefix(lex, w, events, i);
  }

  /** One more event: the waiting goes on unless it ends it, or begins if it asks. */
  lemma OutstandingLast(lex: Lexer, w: World, events: seq<Event>, tag: ResultTag)
    requires events != [] && Follows(lex, w, events) && Follows(lex, w, events[..|events| - 1])
    ensures var n := |events| - 1;
      Outstanding(lex, w, events, tag) <==>
        || (events[n].Request? && DueAt(lex, w, events, n) && events[n].tag.SameSource(tag) && events[n].tag.viewGen == tag.viewGen)
        || (Outstanding(lex, w, events[..n], tag) && !EndsWait(lex, w, events, n, tag))
  {
    hide Follows, DueAt, EndsWait;
    var n := |events| - 1;
    var front := events[..n];
    if Outstanding(lex, w, front, tag) && !EndsWait(lex, w, events, n, tag) {
      var i: nat :| i < n && AskedAt(lex, w, front, i, tag);
      DueAtPrefix(lex, w, events, i);
      forall j | i < j < |events| ensures !EndsWait(lex, w, events, j, tag) {
        if j < n { EndsWaitPrefix(lex, w, events, j, tag); }
      }
      assert AskedAt(lex, w, events, i, tag);
    }
    if events[n].Request? && DueAt(lex, w, events, n) && events[n].tag.SameSource(tag) && events[n].tag.viewGen == tag.viewGen {
      assert AskedAt(lex, w, events, n, tag);
    }
    if Outstanding(lex, w, events, tag) {
      var i: nat :| i < |events| && AskedAt(lex, w, events, i, tag);
      if i < n {
        DueAtPrefix(lex, w, events, i);
        forall j | i < j < n ensures !EndsWait(lex, w, front, j, tag) {
          EndsWaitPrefix(lex, w, events, j, tag);
        }
        assert AskedAt(lex, w, front, i, tag);
      }
    }
  }

  lemma {:induction false} LanguageStays(lex: Lexer, w: World, events: seq<Event>)
    requires Follows(lex, w, events)
    ensures After(w, events).language == w.language
    decreases |events|
  {
    if events != [] { LanguageStays(lex, Advance(w, events[0]), events[1..]); }
  }

  lemma AskedAfterRequest(language: string, inner: Inner, text: Text, q: ResultTag, tag: ResultTag)
    ensures var (after, due) := AfterRequest(language, inner, text, q);
      Asked(after, tag) <==>
        || (due && q.SameSource(tag) && q.viewGen == tag.viewGen)
        || (Asked(inner, tag) && !(q.language == language && (!q.SameSource(tag) || (q.viewGen != tag.viewGen && due))))
  {
  }

  lemma AskedAfterResult(inner: Inner, q: ResultTag, spans: seq<Span>, tag: ResultTag)
    ensures Asked(AfterResult(inner, q, spans), tag) <==> Asked(inner, tag) && !(q.SameSource(tag) && q.viewGen == tag.viewGen)
  {
    hide UntouchedSince;
  }

  /** How one event changes what the cache remembers of its requests. */
  lemma AskedLast(lex: Lexer, s: World, e: Event, tag: ResultTag)
    requires Possible(lex, s, e)
    ensures Asked(Advance(s, e).inner, tag) <==>
      match e
      case Request(q) =>
        var due := AfterRequest(s.language, s.inner, s.text, q).1;
        || (due && q.SameSource(tag) && q.viewGen == tag.viewGen)
        || (Asked(s.inner, tag) && !(q.language == s.language && (!q.SameSource(tag) || (q.viewGen != tag.viewGen && due))))
      case Result(q, spans) => Asked(s.inner, tag) && !(q.SameSource(tag) && q.viewGen == tag.viewGen)
      case _ => Asked(s.inner, tag)
  {
    hide AfterDelta, AfterRequest, AfterResult, Clip, LineRange, InsertLine;
    match e
    case Delta(d, text) => LoggedKeepsRest(s.inner, text, d);
    case Request(q) => AskedAfterRequest(s.language, s.inner, s.text, q, tag);
    case Result(q, spans) => AskedAfterResult(s.inner, q, spans, tag);
    case Ask(_) =>
  }

  /** The cache remembers exactly what was asked for and not yet answered. */
  lemma {:induction false} AskedIsOutstanding(lex: Lexer, language: string, text: Text, gen: nat, events: seq<Event>, tag: ResultTag)
    requires Follows(lex, Start(language, text, gen), events)
    ensures Asked(After(Start(language, text, gen), events).inner, tag) <==>
            Outstanding(lex, Start(language, text, gen), events, tag)
    decreases |events|
  {
    hide Follows, Advance, AfterRequest, Asked;
    var w := Start(language, text, gen);
    if events == [] {
      NothingAsked(lex, language, text, gen, tag);
    } else {
      var n := |events| - 1;
      AfterLast(lex, w, events);
      AskedIsOutstanding(lex, language, text, gen, events[..n], tag);
      OutstandingLast(lex, w, events, tag);
      LanguageStays(lex, w, events[..n]);
      AskedLast(lex, After(w, events[..n]), events[n], tag);
    }
  }

  lemma NothingAsked(lex: Lexer, language: string, text: Text, gen: nat, tag: ResultTag)
    ensures Follows(lex, Start(language, text, gen), [])
    ensures !Asked(After(Start(language, text, gen), []).inner, tag)
  {
  }

  /** In any run, a relex is due iff the text can be relexed, no result for that generation stands on every line, and
      it has not been asked for since its last answer. */
  lemma RequestDueExactly(lex: Lexer, language: string, text: Text, gen: nat, events: seq<Event>, tag: ResultTag)
    requires Follows(lex, Start(language, text, gen), events)
    ensures var w := After(Start(language, text, gen), events);
      AfterRequest(language, w.inner, w.text, tag).1 <==>
        && Relexable(language, w.text, tag) && !Answered(w.inner, tag)
        && !Outstanding(lex, Start(language, text, gen), events, tag)
  {
    hide Follows, AfterRequest, Asked, Answered, Outstanding, After;
    var w := After(Start(language, text, gen), events);
    DueExactly(language, w.inner, w.text, tag);
    AskedIsOutstanding(lex, language, text, gen, events, tag);
  }

  // ---- A changed text is asked for ----

  /** Requests are for the text as it then is, or was. */
  ghost predicate Timely(lex: Lexer, w: World, events: seq<Event>)
    requires Follows(lex, w, events)
    decreases |events|
  {
    events == [] ||
      ((events[0].Request? ==> events[0].tag.viewGen <= w.gen) && Timely(lex, Advance(w, events[0]), events[1..]))
  }

  predicate AskedInTime(w: World) { w.inner.requested.Some? ==> w.inner.requested.value <= w.gen }

  lemma StepAskedInTime(lex: Lexer, w: World, e: Event)
    requires AskedInTime(w) && Possible(lex, w, e) && (e.Request? ==> e.tag.viewGen <= w.gen)
    ensures AskedInTime(Advance(w, e))
  {
    hide AfterDelta, Clip, LineRange, UntouchedSince, InsertLine;
    if e.Delta? { LoggedKeepsRest(w.inner, e.text, e.d); }
  }

  lemma {:induction false} RunAskedInTime(lex: Lexer, w: World, events: seq<Event>)
    requires AskedInTime(w) && Follows(lex, w, events) && Timely(lex, w, events)
    ensures AskedInTime(After(w, events))
    decreases |events|
  {
    hide Advance, AskedInTime;
    if events != [] {
      StepAskedInTime(lex, w, events[0]);
      RunAskedInTime(lex, Advance(w, events[0]), events[1..]);
    }
  }

  lemma NewGenerationIsDue(lex: Lexer, w: World, d: ViewDelta, text: Text, tag: ResultTag)
    requires Truthful(lex, w) && AskedInTime(w) && Possible(lex, w, Delta(d, text))
    requires tag.viewGen == d.viewGen && Relexable(w.language, text, tag)
    ensures AfterRequest(w.language, Advance(w, Delta(d, text)).inner, text, tag).1
  {
    hide LogInOrder, LogTruthful, LinesTruthful, FirstTouched, Logged, LinesAbove, AfterRequest;
    if w.inner.mix.Some? { MixNotAfterNow(lex, w); }
    var after := Advance(w, Delta(d, text)).inner;
    LoggedKeepsRest(w.inner, text, d);
    DueExactly(w.language, after, text, tag);
  }

  lemma LoggedKeepsRest(inner: Inner, text: Text, d: ViewDelta)
    ensures var after := AfterDelta(inner, text, d);
      && after.requested == inner.requested && after.current == inner.current && (after.mix.Some? <==> inner.mix.Some?)
      && (inner.mix.Some? ==> after.mix.value.viewGen == inner.mix.value.viewGen)
  {
    hide FirstTouched, LinesAbove;
  }

  /** After any run of timely requests, a text that has just changed is due for a relex. */
  lemma ChangedTextIsDue(lex: Lexer, language: string, text: Text, gen: nat, events: seq<Event>, d: ViewDelta, changed: Text, tag: ResultTag)
    requires var w := Start(language, text, gen); Follows(lex, w, events) && Timely(lex, w, events)
    requires Possible(lex, After(Start(language, text, gen), events), Delta(d, changed))
    requires tag.viewGen == d.viewGen && Relexable(language, changed, tag)
    ensures var w := After(Start(language, text, gen), events);
      AfterRequest(language, Advance(w, Delta(d, changed)).inner, changed, tag).1
  {
    hide Follows, After, Timely, Possible, Advance, AfterRequest, Truthful;
    var w := Start(language, text, gen);
    StartTruthful(lex, language, text, gen);
    RunTruthful(lex, w, events);
    RunAskedInTime(lex, w, events) by { assert AskedInTime(w); }
    LanguageStays(lex, w, events);
    NewGenerationIsDue(lex, After(w, events), d, changed, tag);
  }

  lemma {:induction false} StaysAsked(lex: Lexer, w: World, events: seq<Event>, tag: ResultTag)
    requires Asked(w.inner, tag) && Follows(lex, w, events) && tag.language == w.language
    requires forall i | 0 <= i < |events| ::
      && (events[i].Request? && events[i].tag.language == w.language ==> events[i].tag.SameSource(tag) && events[i].tag.viewGen == tag.viewGen)
      && (events[i].Result? ==> !(events[i].tag.SameSource(tag) && events[i].tag.viewGen == tag.viewGen))
    ensures Asked(After(w, events).inner, tag)
    decreases |events|
  {
    hide Advance, Asked, AfterRequest;
    if events != [] {
      AskedLast(lex, w, events[0], tag);
      LanguageStays(lex, w, [events[0]]) by { assert Follows(lex, Advance(w, events[0]), []); assert [events[0]][1..] == []; }
      assert After(Advance(w, events[0]), []) == Advance(w, events[0]);
      assert [events[0]][1..] == [];
      StaysAsked(lex, Advance(w, events[0]), events[1..], tag);
    }
  }

  /** Asked for once: after a request that was due, none for the same tag is due until it is answered, however often
      the view asks and draws, and whatever is typed meanwhile. */
  lemma AskedOnlyOnce(lex: Lexer, w: World, events: seq<Event>, tag: ResultTag)
    requires AfterRequest(w.language, w.inner, w.text, tag).1 && Follows(lex, Advance(w, Request(tag)), events)
    requires forall i | 0 <= i < |events| ::
      && (events[i].Request? && events[i].tag.language == w.language ==> events[i].tag.SameSource(tag) && events[i].tag.viewGen == tag.viewGen)
      && (events[i].Result? ==> !(events[i].tag.SameSource(tag) && events[i].tag.viewGen == tag.viewGen))
    ensures var after := After(Advance(w, Request(tag)), events);
      !AfterRequest(w.language, after.inner, after.text, tag).1
  {
    hide Follows, After, AfterRequest, Asked, Answered;
    DueExactly(w.language, w.inner, w.text, tag);
    var asked := Advance(w, Request(tag));
    StaysAsked(lex, asked, events, tag);
    var after := After(asked, events);
    DueExactly(w.language, after.inner, after.text, tag);
  }
}
