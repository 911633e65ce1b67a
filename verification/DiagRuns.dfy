/** Whole runs of a diagnostics list: view deltas interleaved with sets that arrive for any earlier text. */
module DiagRuns {
  import opened Seqs
  import opened Texts
  import opened Diag
  import opened DiagTruth
  import opened DiagSources
  import Highlight

  /** The list, every text the view has had, the deltas between them, and the tag of the view, whose generation counts
      the deltas. */
  datatype World = World(ms: seq<Marker>, texts: seq<Text>, ds: seq<Highlight.ViewDelta>, tag: Highlight.ResultTag)
  {
    function Current(): Highlight.ResultTag { tag.(viewGen := |ds|) }
  }

  /** A set arrives with its tag, the text it was found in, and the deltas since. */
  datatype Event =
    | Delta(d: Highlight.ViewDelta, text: Text)
    | Accept(source: string, tag: Highlight.ResultTag, found: Text, since: seq<Highlight.ViewDelta>, items: seq<DiagItem>)

  function Start(text: Text, tag: Highlight.ResultTag): World { World([], [text], [], tag) }

  predicate Possible(w: World, e: Event) {
    w.texts != [] && match e
    case Delta(d, text) => Leads(w.texts[|w.texts| - 1], d, text)
    case Accept(_, tag, found, since, _) =>
      // Only of a tag of this view, and not of its future, is it known what text and deltas come with it.
      w.tag.SameSource(tag) && tag.viewGen <= |w.ds| ==>
        |w.texts| == |w.ds| + 1 && found == w.texts[tag.viewGen] && since == w.ds[tag.viewGen..]
  }

  function Advance(cls: CharClasses, w: World, e: Event): World
    requires Possible(w, e)
  {
    match e
    case Delta(d, text) => World(AfterDelta(w.ms, d), w.texts + [text], w.ds + [d], w.tag)
    case Accept(source, tag, found, since, items) =>
      if Stale(w.Current(), tag) then w else w.(ms := AfterReplace(cls, w.ms, source, found, items, since))
  }

  predicate Follows(cls: CharClasses, w: World, events: seq<Event>)
    decreases |events|
  {
    events == [] || (Possible(w, events[0]) && Follows(cls, Advance(cls, w, events[0]), events[1..]))
  }

  function After(cls: CharClasses, w: World, events: seq<Event>): World
    requires Follows(cls, w, events)
    decreases |events|
  {
    if events == [] then w else After(cls, Advance(cls, w, events[0]), events[1..])
  }

  /** The marker was made on a whole line of some text of the run. */
  ghost predicate Known(texts: seq<Text>, m: Marker) { exists g :: 0 <= g < |texts| && OnLine(texts[g], m) }

  ghost predicate AllKnown(texts: seq<Text>, ms: seq<Marker>) { forall m | m in ms :: Known(texts, m) }

  ghost predicate Truthful(w: World) {
    && History(w.texts, w.ds)
    && AllHold(w.texts[|w.ds|], w.ms)
    && AllKnown(w.texts, w.ms)
    && Grouped(w.ms)
  }

  lemma KnownDescends(texts: seq<Text>, ms: seq<Marker>, ms': seq<Marker>)
    requires AllKnown(texts, ms) && Descends(ms, ms')
    ensures AllKnown(texts, ms')
  {
    hide Anchored, KeepsPlace, FullLine;
    forall m' | m' in ms' ensures Known(texts, m') {
      var m :| m in ms && Later(m, m');
      var g :| 0 <= g < |texts| && OnLine(texts[g], m);
      assert OnLine(texts[g], m');
    }
  }

  lemma KnownLater(texts: seq<Text>, text: Text, ms: seq<Marker>)
    requires AllKnown(texts, ms)
    ensures AllKnown(texts + [text], ms)
  {
    hide OnLine;
    forall m | m in ms ensures Known(texts + [text], m) {
      var g :| 0 <= g < |texts| && OnLine(texts[g], m);
      assert OnLine((texts + [text])[g], m);
    }
  }

  /** A new set, located in the `g`-th text, holds in the last one. */
  lemma NewSetHolds(cls: CharClasses, w: World, source: string, g: nat, items: seq<DiagItem>)
    requires History(w.texts, w.ds) && g < |w.texts|
    ensures var set_ := AfterDeltas(LocatedAll(cls, source, w.texts[g], items), w.ds[g..]);
      AllHold(w.texts[|w.ds|], set_) && AllKnown(w.texts, set_)
  {
    hide Holds, OnLine, Leads, Descends, LocatedAll, AfterDeltas, Placed;
    var found := LocatedAll(cls, source, w.texts[g], items);
    LocatedHold(cls, source, w.texts[g], items);
    assert History(w.texts[g..], w.ds[g..]);
    DeltasHold(found, w.texts[g..], w.ds[g..]);
    KnownDescends(w.texts, found, AfterDeltas(found, w.ds[g..]));
  }

  lemma ReplacedFrom(source: string, ms: seq<Marker>, set_: seq<Marker>)
    ensures forall m | m in Replaced(source, ms, set_) :: m in ms || m in set_
  {
    hide Slot;
    SlotSurvives(source, ms);
    var at, rest := Slot(source, ms), Others(source, ms);
    assert forall m | m in rest[..at] :: m in rest;
    assert forall m | m in rest[at..] :: m in rest;
  }

  lemma StepTruthful(cls: CharClasses, w: World, e: Event)
    requires Truthful(w) && Possible(w, e)
    ensures Truthful(Advance(cls, w, e))
  {
    hide Holds, Known, Leads, Descends, AfterDelta, AfterDeltas, LocatedAll, Replaced, Grouped;
    match e
    case Delta(d, text) =>
      DeltaHolds(w.texts[|w.ds|], w.ms, d, text);
      KnownDescends(w.texts, w.ms, AfterDelta(w.ms, d));
      KnownLater(w.texts, text, AfterDelta(w.ms, d));
      DeltaThins(w.ms, d);
      ThinnedGrouped(w.ms, AfterDelta(w.ms, d));
    case Accept(source, tag, found, since, items) =>
      if !Stale(w.Current(), tag) {
        var set_ := AfterDeltas(LocatedAll(cls, source, found, items), since);
        NewSetHolds(cls, w, source, tag.viewGen, items);
        NewSetIsOwn(cls, source, found, items, since);
        ReplaceKeepsGroups(source, w.ms, set_);
        ReplacedFrom(source, w.ms, set_);
      }
  }

  lemma {:induction false} RunTruthful(cls: CharClasses, w: World, events: seq<Event>)
    requires Truthful(w) && Follows(cls, w, events)
    ensures Truthful(After(cls, w, events))
    decreases |events|
  {
    hide Truthful, Advance;
    if events != [] {
      StepTruthful(cls, w, events[0]);
      RunTruthful(cls, Advance(cls, w, events[0]), events[1..]);
    }
  }

  /** What the marker covers in the current text is the line it was reported on in some text of the run. */
  ghost predicate CoversItsLine(texts: seq<Text>, now: Text, m: Marker) {
    && m.covered.In(now)
    && exists g :: 0 <= g < |texts| && FullLine(texts[g], m.diag.line) == Some(now[m.covered.start..m.covered.end])
  }

  /** After any run, every shown diagnostic covers, byte for byte, the whole line it was reported on in some text of
      the run, the sets of the sources are contiguous, and the lint set is first. */
  lemma ShownDiagnosticsAreTruthful(cls: CharClasses, text: Text, tag: Highlight.ResultTag, events: seq<Event>)
    requires Follows(cls, Start(text, tag), events)
    ensures var w := After(cls, Start(text, tag), events);
      && Grouped(w.ms)
      && |w.texts| == |w.ds| + 1
      && forall m | m in w.ms :: CoversItsLine(w.texts, w.texts[|w.ds|], m)
  {
    hide FullLine, Grouped;
    assert Truthful(Start(text, tag)) by { EmptyTruthful(text, tag); }
    RunTruthful(cls, Start(text, tag), events);
    var w := After(cls, Start(text, tag), events);
    forall m | m in w.ms ensures CoversItsLine(w.texts, w.texts[|w.ds|], m) {
      assert Holds(w.texts[|w.ds|], m) && Known(w.texts, m);
      var g :| 0 <= g < |w.texts| && OnLine(w.texts[g], m);
    }
  }

  lemma EmptyTruthful(text: Text, tag: Highlight.ResultTag)
    ensures Truthful(Start(text, tag))
  {
  }

  /** A set is stored iff it is of this view, in its language and configuration, and not of the future: then the source
      holds exactly the set, located and carried on, and every other source what it held. Any other set changes
      nothing. */
  lemma StoredExactly(cls: CharClasses, w: World, source: string, tag: Highlight.ResultTag, found: Text, since: seq<Highlight.ViewDelta>, items: seq<DiagItem>)
    requires Possible(w, Accept(source, tag, found, since, items))
    ensures var w' := Advance(cls, w, Accept(source, tag, found, since, items));
      if && tag.epoch == w.tag.epoch && tag.buffer == w.tag.buffer && tag.language == w.tag.language && tag.cfg == w.tag.cfg
         && tag.viewGen <= |w.ds|
      then
        && Of(source, w'.ms) == AfterDeltas(LocatedAll(cls, source, found, items), since)
        && Others(source, w'.ms) == Others(source, w.ms)
      else w' == w
  {
    hide LocatedAll, AfterDeltas, Of, Others, Replaced;
    var set_ := AfterDeltas(LocatedAll(cls, source, found, items), since);
    NewSetIsOwn(cls, source, found, items, since);
    ReplaceKeepsOthers(source, w.ms, set_);
  }

  // ---- A squiggle that leaves its line ----

  const AB: Text := [97, 98]
  const ABC: Text := [97, 98, 99]

  /** A finding past the end of line 1. */
  const PAST_END := DiagItem(1, Some(3), Note, "", "", None)

  /** Text typed at the end of `ab`. */
  const APPEND := Highlight.ViewDelta([Edit(2, 0, [99])], Highlight.Local, 1)

  function AtEnd(range: Range): Marker {
    Marker(Diagnostic(range, 1, Note, "", "", None, LINT_SOURCE), Range(0, 2), AB)
  }

  /** `locate` puts the mark of column 3 after the `b`. */
  lemma LocatedAtEnd(cls: CharClasses)
    ensures LocatedAll(cls, LINT_SOURCE, AB, [PAST_END]) == [AtEnd(Range(2, 2))]
  {
    assert NthNewline(AB, 2, 0) == None;
    assert NthNewline(AB, 1, 0) == None;
    assert AB[0..2] == AB;
    assert TrimCarriageReturns(AB) == AB;
    PastTheEnd(cls);
    assert Located(cls, LINT_SOURCE, AB, PAST_END) == [AtEnd(Range(2, 2))];
    assert [PAST_END][..0] == [];
  }

  lemma PastTheEnd(cls: CharClasses)
    ensures Squiggle(cls, AB, Some(3)) == (2, 2)
  {
    assert AB[1..] == [98] && AB[1..][1..] == [];
    assert CharLen(AB) == 1 && CharLen([98]) == 1;
    assert NthChar([98], 1) == 1;
    assert NthChar(AB, 2) == 2;
    assert AB[2..] == [];
  }

  lemma AppendMoves()
    ensures AfterDeltas([AtEnd(Range(2, 2))], []) == [AtEnd(Range(2, 2))]
    ensures AfterDelta([AtEnd(Range(2, 2))], APPEND) == [AtEnd(Range(3, 3))]
  {
    var e, m := APPEND.edits[0], AtEnd(Range(2, 2));
    assert AfterEdits([m], []) == [m];
    assert [m][..0] == [];
    assert AfterEdit([m], e) == Survivor(m, e);
  }

  lemma AppendLeads()
    ensures Leads(AB, APPEND, ABC)
  {
    var e := APPEND.edits[0];
    assert ApplyEdit(AB, e) == ABC;
    assert ApplyEdits(ABC, []) == ABC;
    assert APPEND.edits[1..] == [];
  }

  lemma ReplaceNothing(set_: seq<Marker>)
    ensures Replaced(LINT_SOURCE, [], set_) == set_
  {
  }

  lemma EscapeAccepted(cls: CharClasses, tag: Highlight.ResultTag)
    requires tag.viewGen == 0
    ensures var accept := Accept(LINT_SOURCE, tag, AB, [], [PAST_END]);
      Possible(Start(AB, tag), accept) && Advance(cls, Start(AB, tag), accept) == World([AtEnd(Range(2, 2))], [AB], [], tag)
  {
    LocatedAtEnd(cls);
    AppendMoves();
    ReplaceNothing([AtEnd(Range(2, 2))]);
    hide LocatedAll, AfterDeltas, Replaced;
    assert Start(AB, tag).ds[0..] == [];
  }

  lemma EscapeAppended(cls: CharClasses, tag: Highlight.ResultTag)
    ensures var w, append := World([AtEnd(Range(2, 2))], [AB], [], tag), Delta(APPEND, ABC);
      Possible(w, append) && Advance(cls, w, append).ms == [AtEnd(Range(3, 3))]
  {
    AppendMoves();
    AppendLeads();
    hide AfterDelta, Leads;
  }

  /** A run in which a squiggle leaves its line: a finding located past the end of `ab` is accepted, then `c` is typed
      there. The diagnostic still covers `ab`, and its mark stands behind the `c`. */
  lemma SquiggleEscapes(cls: CharClasses, tag: Highlight.ResultTag)
    requires tag.viewGen == 0
    ensures var events := [Accept(LINT_SOURCE, tag, AB, [], [PAST_END]), Delta(APPEND, ABC)];
      && Follows(cls, Start(AB, tag), events)
      && After(cls, Start(AB, tag), events).ms == [AtEnd(Range(3, 3))]
  {
    EscapeAccepted(cls, tag);
    EscapeAppended(cls, tag);
    hide Possible, Advance;
    var accept, append := Accept(LINT_SOURCE, tag, AB, [], [PAST_END]), Delta(APPEND, ABC);
    var w := Advance(cls, Start(AB, tag), accept);
    var w' := Advance(cls, w, append);
    assert [accept, append][1..] == [append] && [append][1..] == [];
    assert Follows(cls, w', []) && After(cls, w', []) == w';
    assert Follows(cls, w, [append]) && After(cls, w, [append]) == w';
  }
}
