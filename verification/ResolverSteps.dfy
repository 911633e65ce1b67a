/**
 What one step of the resolver can do: which binding an emitted action belongs to,
 when a pending prefix survives, and what the next state holds.
 */
module ResolverSteps {
  import opened Seqs
  import opened Input
  import opened Keymap
  import opened Resolver

  lemma ActionsAreWinners(top: seq<Binding>, chord: seq<KeyStroke>, ctx: FocusContext, km: Keymap, repeated: bool)
    requires forall b :: b in top <==> TopRanked(b, chord, ctx, km, repeated)
    ensures Elements(Actions(top)) == Winners(chord, ctx, km, repeated)
  {
    hide Actions, Candidates;
    var ids, winners := Elements(Actions(top)), Winners(chord, ctx, km, repeated);
    forall a | a in ids ensures a in winners {
      assert a in Actions(top);
      var b :| b in top && b.action == a;
      assert TopRanked(b, chord, ctx, km, repeated);
    }
    forall a | a in winners ensures a in ids {
      var b :| b in Candidates(chord, ctx, km, repeated) && TopRanked(b, chord, ctx, km, repeated) && b.action == a;
      assert b in top && a in Actions(top);
    }
  }

  lemma TopOfExact(exact: seq<Binding>, chord: seq<KeyStroke>, ctx: FocusContext, km: Keymap, repeated: bool, b: Binding)
    requires exact != [] && forall b :: b in exact <==> b in Candidates(chord, ctx, km, repeated) && b.chord == chord
    ensures b in TopBindings(exact) <==> TopRanked(b, chord, ctx, km, repeated)
  {
    hide TopBindings, Candidates, Outranks;
  }

  lemma ExactAreTop(chord: seq<KeyStroke>, found: seq<Binding>, ctx: FocusContext, km: Keymap, repeated: bool)
    requires Elements(found) == Candidates(chord, ctx, km, repeated)
    requires forall b | b in found :: chord <= b.chord
    requires ExactBindings(found, |chord|) != []
    ensures Elements(Actions(TopBindings(ExactBindings(found, |chord|)))) == Winners(chord, ctx, km, repeated)
  {
    hide Candidates, ExactBindings, TopBindings, TopRanked, Winners, Actions;
    var exact := ExactBindings(found, |chord|);
    forall b ensures b in exact <==> b in Candidates(chord, ctx, km, repeated) && b.chord == chord {
      assert b in found <==> b in Elements(found);
    }
    forall b ensures b in TopBindings(exact) <==> TopRanked(b, chord, ctx, km, repeated) {
      TopOfExact(exact, chord, ctx, km, repeated, b);
    }
    ActionsAreWinners(TopBindings(exact), chord, ctx, km, repeated);
  }

  /** The verdict on a completed chord: nobody, one action, or a conflict naming every contender. */
  ghost predicate Verdict(chord: seq<KeyStroke>, winners: set<ActionId>, r: Resolved) {
    && (winners == {} ==> r == Just(NoMatch))
    && (forall a | winners == {a} :: r == Resolved([a], Complete, []))
    && (|winners| > 1 ==>
          && r.actions == [] && r.outcome == NoMatch
          && |r.issues| == 1 && r.issues[0].BindingConflict? && r.issues[0].chord == chord
          && StrictlyIncreasing(r.issues[0].actions) && Elements(r.issues[0].actions) == winners)
  }

  lemma NobodyCompletes(chord: seq<KeyStroke>, found: seq<Binding>, ctx: FocusContext, km: Keymap, repeated: bool)
    requires Elements(found) == Candidates(chord, ctx, km, repeated) && ExactBindings(found, |chord|) == []
    ensures Winners(chord, ctx, km, repeated) == {}
  {
    hide ExactBindings, Candidates;
    forall b ensures !TopRanked(b, chord, ctx, km, repeated) {
      assert b in found <==> b in Elements(found);
    }
  }

  lemma IdsVerdict(chord: Chord, acts: seq<ActionId>, winners: set<ActionId>)
    requires StrictlyIncreasing(acts) && Elements(acts) == winners && acts != []
    ensures Verdict(chord, winners, if |acts| == 1 then Resolved(acts, Complete, []) else Resolved([], NoMatch, [BindingConflict(chord, acts)]))
  {
    StrictlyIncreasingSize(acts);
    assert acts[0] in winners;
  }

  /** Completion is the precedence rule: scope, then layer, then agreement on one action. */
  lemma CompletionVerdict(chord: seq<KeyStroke>, found: seq<Binding>, ctx: FocusContext, km: Keymap, repeated: bool)
    requires Elements(found) == Candidates(chord, ctx, km, repeated)
    requires forall b | b in found :: chord <= b.chord
    ensures Verdict(chord, Winners(chord, ctx, km, repeated), CompleteCandidates(chord, found))
  {
    hide Candidates, Winners, ExactBindings, TopBindings, Actions, SortUnique;
    var exact := ExactBindings(found, |chord|);
    if exact == [] {
      NobodyCompletes(chord, found, ctx, km, repeated);
    } else {
      ExactAreTop(chord, found, ctx, km, repeated);
      var top := TopBindings(exact);
      var acts := SortUnique(Actions(top));
      assert exact[0] in exact && exact[0].chord == chord;
      assert top[0].action in Actions(top) && top[0].action in Elements(Actions(top));
      assert acts != [];
      IdsVerdict(chord, acts, Winners(chord, ctx, km, repeated));
    }
  }

  lemma {:induction false} StrictlyIncreasingSize(s: seq<nat>)
    requires StrictlyIncreasing(s)
    ensures |Elements(s)| == |s|
    ensures forall a | Elements(s) == {a} :: s == [a]
  {
    if s == [] {
      assert Elements(s) == {};
    } else {
      StrictlyIncreasingSize(s[..|s| - 1]);
      var last := s[|s| - 1];
      assert Elements(s) == Elements(s[..|s| - 1]) + {last};
      assert last !in s[..|s| - 1];
      if |s| == 1 { assert s[0] in Elements(s); }
    }
    forall a | Elements(s) == {a} ensures s == [a] {
      assert |s| == 1 && s[0] in Elements(s);
    }
  }

  // ---- The invariant of the state, and staleness ----

  /** Idle, or a proper prefix of some stamped candidate, all of whose candidates it starts. */
  ghost predicate WellFormed(st: Progress) {
    && (st.sequence == [] <==> st.deadline.None?)
    && (st.sequence == [] <==> st.stamp.None?)
    && (st.stamp.Some? ==>
          && (forall b | b in st.stamp.value.candidates :: Eligible(b, st.sequence, st.stamp.value.context, st.stamp.value.repeated))
          && exists b :: b in st.stamp.value.candidates && |b.chord| > |st.sequence|)
  }

  /** A pending prefix never reaches the chord bound, so it always fits in a longer chord. */
  lemma PendingIsShort(st: Progress)
    requires WellFormed(st)
    ensures |st.sequence| < MAX_CHORD_STROKES
    ensures st.sequence != [] ==> ValidChord(st.sequence)
  {
    if st.stamp.Some? {
      var b :| b in st.stamp.value.candidates && |b.chord| > |st.sequence|;
      assert st.sequence <= b.chord;
    }
  }

  /** A pending prefix that the current context and keymap do not invalidate. */
  ghost predicate Live(st: Progress, ctx: FocusContext, km: Keymap) {
    st.stamp.Some? && StaleReason(ctx, km, st).None?
  }

  /** The pending state that accepting `sequence` leaves. */
  ghost function Accepted(sequence: seq<KeyStroke>, ctx: FocusContext, km: Keymap, repeated: bool, now: U64): Progress {
    Progress(sequence, Some(SaturatingAdd(now, km.chordTimeoutMs)),
             Some(PendingStamp(ctx, repeated, km.chordTimeoutMs, Candidates(sequence, ctx, km, repeated))))
  }

  // ---- A timeout poll ----

  lemma LiveFound(st: Progress, ctx: FocusContext, km: Keymap)
    requires WellFormed(st) && Live(st, ctx, km)
    ensures var e := EvaluatePrefix(st.sequence, ctx, km, st.stamp.value.repeated);
      && e.Bindings? && Elements(e.found) == st.stamp.value.candidates
      && HasLonger(e.found, |st.sequence|)
  {
    var e := EvaluatePrefix(st.sequence, ctx, km, st.stamp.value.repeated);
    var b :| b in st.stamp.value.candidates && |b.chord| > |st.sequence|;
    assert b in Elements(e.found);
  }

  /** What a poll does to a well-formed state. */
  lemma PollStep(ctx: FocusContext, km: Keymap, st: Progress, now: U64)
    requires WellFormed(st)
    ensures var s := ResolveTimeout(ctx, km, st, now);
      if st == IDLE then s == Stepped(IDLE, Just(NoMatch), [], Same)
      else if !ctx.Valid() || !Live(st, ctx, km) then s.next == IDLE && s.resolved.actions == [] && s.via == []
      else if now < st.deadline.value then s == Stepped(st, Just(Pending(st.deadline.value)), [], Same)
      else s.next == IDLE && s.via == ViaEach(s.resolved, Held)
           && Verdict(st.sequence, Winners(st.sequence, ctx, km, st.stamp.value.repeated), s.resolved)
  {
    hide Candidates, EvaluatePrefix, CompleteCandidates, Winners, Verdict;
    if st != IDLE && ctx.Valid() && Live(st, ctx, km) {
      LiveFound(st, ctx, km);
      var e := EvaluatePrefix(st.sequence, ctx, km, st.stamp.value.repeated);
      CompletionVerdict(st.sequence, e.found, ctx, km, st.stamp.value.repeated);
    }
  }

  lemma VerdictSize(chord: seq<KeyStroke>, winners: set<ActionId>, r: Resolved)
    requires Verdict(chord, winners, r)
    ensures |r.actions| <= 1
    ensures forall a | a in r.actions :: winners == {a}
  {
    if winners != {} {
      var a :| a in winners;
      if |winners| == 1 { assert |winners - {a}| == 0; assert winners == {a}; }
    }
  }

  /** A poll emits at most one action, from the held strokes, of which it is the sole winner; then nothing is held. */
  lemma PollFired(ctx: FocusContext, km: Keymap, st: Progress, now: U64)
    requires WellFormed(st)
    ensures var s := ResolveTimeout(ctx, km, st, now);
      && |s.via| == |s.resolved.actions| <= 1
      && (s.via != [] ==>
          && s.via == [Held] && s.next == IDLE && Live(st, ctx, km)
          && Winners(st.sequence, ctx, km, st.stamp.value.repeated) == {s.resolved.actions[0]})
  {
    hide ResolveTimeout, Winners, Verdict, StaleReason;
    PollStep(ctx, km, st, now);
    var s := ResolveTimeout(ctx, km, st, now);
    if s.resolved.actions != [] {
      VerdictSize(st.sequence, Winners(st.sequence, ctx, km, st.stamp.value.repeated), s.resolved);
      assert s.resolved.actions[0] in s.resolved.actions && s.via[0] in s.via;
    }
  }

  // ---- A key press ----

  /** `action` was the sole winner of the strokes that `via` names. */
  ghost predicate Fired(via: Via, action: ActionId, input: RawInput, ctx: FocusContext, km: Keymap, st: Progress, now: U64) {
    match via
    case Held =>
      Live(st, ctx, km) && Winners(st.sequence, ctx, km, st.stamp.value.repeated) == {action}
    case HeldAndPress =>
      && Live(st, ctx, km) && !Expired(st, now)
      && Winners(st.sequence + [input.Stroke()], ctx, km, input.repeat || st.stamp.value.repeated) == {action}
    case PressOnly =>
      Winners([input.Stroke()], ctx, km, input.repeat) == {action}
  }

  /** At most two actions, the fallback first. */
  predicate ViaShape(via: seq<Via>) {
    via == [] || |via| == 1 || via == [Held, PressOnly]
  }

  /** The account of a press: each action fired from the presses `via` names, and the next state. */
  ghost predicate PressAccount(input: RawInput, ctx: FocusContext, km: Keymap, st: Progress, now: U64, s: Stepped) {
    var stroke := input.Stroke();
    && |s.via| == |s.resolved.actions|
    && ViaShape(s.via)
    && (forall i | 0 <= i < |s.via| :: Fired(s.via[i], s.resolved.actions[i], input, ctx, km, st, now))
    && WellFormed(s.next)
    && (s.next.sequence != [] ==> match s.keep
          case Same => s.next == st && s.via == []
          case Grown => Live(st, ctx, km) && !Expired(st, now) && s.via == []
            && s.next == Accepted(st.sequence + [stroke], ctx, km, input.repeat || st.stamp.value.repeated, now)
          case Fresh =>
            (s.via == [] || s.via == [Held]) && s.next == Accepted([stroke], ctx, km, input.repeat, now))
  }

  lemma AcceptedWellFormed(sequence: seq<KeyStroke>, found: seq<Binding>, ctx: FocusContext, km: Keymap, repeated: bool, now: U64)
    requires sequence != [] && HasLonger(found, |sequence|)
    requires Elements(found) == Candidates(sequence, ctx, km, repeated)
    ensures WellFormed(Accepted(sequence, ctx, km, repeated, now))
  {
    var i :| 0 <= i < |found| && |found[i].chord| > |sequence|;
    assert found[i] in Elements(found);
  }

  /** A press that emits nothing and holds nothing. */
  lemma QuietAccount(input: RawInput, ctx: FocusContext, km: Keymap, st: Progress, now: U64, s: Stepped)
    requires s.next == IDLE && s.via == [] && s.resolved.actions == []
    ensures PressAccount(input, ctx, km, st, now, s)
  {
  }

  /** A press that fires and holds nothing. */
  lemma FiringAccount(input: RawInput, ctx: FocusContext, km: Keymap, st: Progress, now: U64, s: Stepped)
    requires s.next == IDLE && |s.via| == |s.resolved.actions| <= 1
    requires forall i | 0 <= i < |s.via| :: Fired(s.via[i], s.resolved.actions[i], input, ctx, km, st, now)
    ensures PressAccount(input, ctx, km, st, now, s)
  {
    hide Fired;
  }

  /** A press that is held, alone. */
  lemma HoldingAccount(input: RawInput, ctx: FocusContext, km: Keymap, st: Progress, now: U64, s: Stepped)
    requires s.via == [] && s.resolved.actions == [] && s.keep == Fresh
    requires s.next == Accepted([input.Stroke()], ctx, km, input.repeat, now) && WellFormed(s.next)
    ensures PressAccount(input, ctx, km, st, now, s)
  {
    hide Fired, WellFormed, Candidates;
  }

  /** A press that is held behind the others. */
  lemma GrowingAccount(input: RawInput, ctx: FocusContext, km: Keymap, st: Progress, now: U64, s: Stepped)
    requires Live(st, ctx, km) && !Expired(st, now) && s.via == [] && s.resolved.actions == [] && s.keep == Grown
    requires WellFormed(s.next)
    requires s.next == Accepted(st.sequence + [input.Stroke()], ctx, km, input.repeat || st.stamp.value.repeated, now)
    ensures PressAccount(input, ctx, km, st, now, s)
  {
    hide Fired, WellFormed, Candidates, Live;
  }

  /** A press that leaves everything as it was. */
  lemma IgnoredAccount(input: RawInput, ctx: FocusContext, km: Keymap, st: Progress, now: U64, s: Stepped)
    requires WellFormed(st) && s.next == st && s.via == [] && s.resolved.actions == [] && s.keep == Same
    ensures PressAccount(input, ctx, km, st, now, s)
  {
    hide WellFormed, Fired;
  }

  ghost predicate FromIdle(input: RawInput, ctx: FocusContext, km: Keymap, now: U64, s: Stepped) {
    && PressAccount(input, ctx, km, IDLE, now, s)
    && (s.next == IDLE || s.keep == Fresh)
    && (s.via == [] || s.via == [PressOnly])
  }

  /** Completing a single stroke from idle. */
  lemma SingleFires(input: RawInput, ctx: FocusContext, km: Keymap, now: U64, found: seq<Binding>, s: Stepped)
    requires Elements(found) == Candidates([input.Stroke()], ctx, km, input.repeat)
    requires forall b | b in found :: [input.Stroke()] <= b.chord
    requires s.next == IDLE && s.resolved == CompleteCandidates([input.Stroke()], found) && s.via == ViaEach(s.resolved, PressOnly)
    ensures FromIdle(input, ctx, km, now, s)
  {
    hide Candidates, CompleteCandidates, Winners, Verdict, PressAccount;
    var chord := [input.Stroke()];
    CompletionVerdict(chord, found, ctx, km, input.repeat);
    VerdictSize(chord, Winners(chord, ctx, km, input.repeat), s.resolved);
    forall i | 0 <= i < |s.via| ensures Fired(s.via[i], s.resolved.actions[i], input, ctx, km, IDLE, now) {
      assert s.via[i] in s.via && s.resolved.actions[i] in s.resolved.actions;
    }
    FiringAccount(input, ctx, km, IDLE, now, s);
    assert |s.via| == 1 ==> s.via[0] in s.via && s.via == [PressOnly];
  }

  /** From idle. */
  lemma FreshStroke(input: RawInput, ctx: FocusContext, km: Keymap, now: U64, mayReprocess: bool)
    ensures FromIdle(input, ctx, km, now, ResolveStroke(input, ctx, km, IDLE, now, mayReprocess))
    decreases mayReprocess
  {
    hide Candidates, EvaluatePrefix, CompleteCandidates, HasLonger, PressAccount, WellFormed;
    var sequence, s := [input.Stroke()], ResolveStroke(input, ctx, km, IDLE, now, mayReprocess);
    assert IDLE.sequence + sequence == sequence;
    var e := EvaluatePrefix(sequence, ctx, km, input.repeat);
    if e.Bindings? {
      if HasLonger(e.found, 1) {
        AcceptedWellFormed(sequence, e.found, ctx, km, input.repeat, now);
        HoldingAccount(input, ctx, km, IDLE, now, s);
      } else {
        SingleFires(input, ctx, km, now, e.found, s);
      }
    } else if e.outcome == IgnoredRepeat {
      QuietAccount(input, ctx, km, IDLE, now, s);
    } else if mayReprocess {
      FreshStroke(input, ctx, km, now, false);
      var retried := ResolveStroke(input, ctx, km, IDLE, now, false);
      assert [] + retried.resolved.actions == retried.resolved.actions;
      assert [] + retried.via == retried.via;
      SameAccount(input, ctx, km, IDLE, now, retried, s);
    } else {
      QuietAccount(input, ctx, km, IDLE, now, s);
    }
  }

  /** The account does not depend on the outcome and the issues. */
  lemma SameAccount(input: RawInput, ctx: FocusContext, km: Keymap, st: Progress, now: U64, s: Stepped, s': Stepped)
    requires PressAccount(input, ctx, km, st, now, s)
    requires s'.next == s.next && s'.via == s.via && s'.keep == s.keep && s'.resolved.actions == s.resolved.actions
    ensures PressAccount(input, ctx, km, st, now, s')
  {
    hide Fired, WellFormed, Live;
  }

  lemma FallbackVerdict(ctx: FocusContext, km: Keymap, st: Progress)
    requires WellFormed(st) && Live(st, ctx, km)
    ensures var r := CompleteFallback(st.sequence, ctx, km, st.stamp.value.repeated);
      Verdict(st.sequence, Winners(st.sequence, ctx, km, st.stamp.value.repeated), r) && |r.actions| <= 1
      && forall a | a in r.actions :: Winners(st.sequence, ctx, km, st.stamp.value.repeated) == {a}
  {
    LiveFound(st, ctx, km);
    var e := EvaluatePrefix(st.sequence, ctx, km, st.stamp.value.repeated);
    CompletionVerdict(st.sequence, e.found, ctx, km, st.stamp.value.repeated);
    VerdictSize(st.sequence, Winners(st.sequence, ctx, km, st.stamp.value.repeated),
                CompleteFallback(st.sequence, ctx, km, st.stamp.value.repeated));
  }

  /** The held strokes fall back, and the press starts over. */
  lemma FallbackThenFresh(
    input: RawInput, ctx: FocusContext, km: Keymap, st: Progress, now: U64, fallback: Resolved, retried: Stepped, s: Stepped)
    requires Live(st, ctx, km) && |fallback.actions| <= 1
    requires forall a | a in fallback.actions :: Winners(st.sequence, ctx, km, st.stamp.value.repeated) == {a}
    requires FromIdle(input, ctx, km, now, retried)
    requires s.next == retried.next && s.keep == retried.keep && s.via == ViaEach(fallback, Held) + retried.via
    requires s.resolved.actions == fallback.actions + retried.resolved.actions
    ensures PressAccount(input, ctx, km, st, now, s)
  {
    hide Winners, WellFormed, StaleReason, Candidates;
    var via := ViaEach(fallback, Held);
    assert |via| == 1 ==> via[0] in via && via == [Held];
    forall i | 0 <= i < |s.via| ensures Fired(s.via[i], s.resolved.actions[i], input, ctx, km, st, now) {
      if i < |via| {
        assert fallback.actions[i] in fallback.actions;
      } else {
        assert Fired(retried.via[i - |via|], retried.resolved.actions[i - |via|], input, ctx, km, IDLE, now);
      }
    }
  }

  lemma GrownFires(input: RawInput, ctx: FocusContext, km: Keymap, st: Progress, now: U64, found: seq<Binding>, s: Stepped)
    requires Live(st, ctx, km) && !Expired(st, now)
    requires var chord := st.sequence + [input.Stroke()];
      && Elements(found) == Candidates(chord, ctx, km, input.repeat || st.stamp.value.repeated)
      && (forall b | b in found :: chord <= b.chord)
      && s.next == IDLE && s.resolved == CompleteCandidates(chord, found) && s.via == ViaEach(s.resolved, HeldAndPress)
    ensures PressAccount(input, ctx, km, st, now, s)
  {
    hide Candidates, CompleteCandidates, Winners, Verdict, PressAccount, StaleReason;
    var chord, repeated := st.sequence + [input.Stroke()], input.repeat || st.stamp.value.repeated;
    CompletionVerdict(chord, found, ctx, km, repeated);
    VerdictSize(chord, Winners(chord, ctx, km, repeated), s.resolved);
    forall i | 0 <= i < |s.via| ensures Fired(s.via[i], s.resolved.actions[i], input, ctx, km, st, now) {
      assert s.via[i] in s.via && s.resolved.actions[i] in s.resolved.actions;
    }
    FiringAccount(input, ctx, km, st, now, s);
  }

  /** The four ends of `resolve_stroke` from a held prefix. */
  lemma StrokeOutcome(input: RawInput, ctx: FocusContext, km: Keymap, st: Progress, now: U64)
    requires st.sequence != [] && st.stamp.Some?
    ensures var repeated := input.repeat || st.stamp.value.repeated;
      var sequence, s := st.sequence + [input.Stroke()], ResolveStroke(input, ctx, km, st, now, true);
      match EvaluatePrefix(sequence, ctx, km, repeated)
      case Bindings(found) =>
        if HasLonger(found, |sequence|) then
          && s.via == [] && s.resolved.actions == [] && s.keep == Grown
          && s.next == Accepted(sequence, ctx, km, repeated, now)
        else s.next == IDLE && s.resolved == CompleteCandidates(sequence, found) && s.via == ViaEach(s.resolved, HeldAndPress)
      case Empty(outcome) =>
        if outcome == IgnoredRepeat then s.next == st && s.via == [] && s.resolved.actions == [] && s.keep == Same
        else
          var fallback, retried :=
            CompleteFallback(st.sequence, ctx, km, st.stamp.value.repeated), ResolveStroke(input, ctx, km, IDLE, now, false);
          && s.next == retried.next && s.keep == retried.keep && s.via == ViaEach(fallback, Held) + retried.via
          && s.resolved.actions == fallback.actions + retried.resolved.actions
  {
    hide Candidates, EvaluatePrefix, CompleteCandidates, CompleteFallback, HasLonger, ViaEach;
  }

  /** From a live prefix whose deadline has not passed. */
  lemma LiveStroke(input: RawInput, ctx: FocusContext, km: Keymap, st: Progress, now: U64)
    requires WellFormed(st) && Live(st, ctx, km) && !Expired(st, now)
    ensures PressAccount(input, ctx, km, st, now, ResolveStroke(input, ctx, km, st, now, true))
  {
    assert st.sequence != [];
    hide Candidates, EvaluatePrefix, CompleteCandidates, Winners, Verdict, CompleteFallback, HasLonger, WellFormed;
    hide PressAccount, StaleReason, ResolveStroke, Accepted, ViaEach, FromIdle;
    StrokeOutcome(input, ctx, km, st, now);
    var repeated := input.repeat || st.stamp.value.repeated;
    var sequence, s := st.sequence + [input.Stroke()], ResolveStroke(input, ctx, km, st, now, true);
    var e := EvaluatePrefix(sequence, ctx, km, repeated);
    if e.Bindings? {
      if HasLonger(e.found, |sequence|) {
        AcceptedWellFormed(sequence, e.found, ctx, km, repeated, now);
        GrowingAccount(input, ctx, km, st, now, s);
      } else {
        GrownFires(input, ctx, km, st, now, e.found, s);
      }
    } else if e.outcome == IgnoredRepeat {
      IgnoredAccount(input, ctx, km, st, now, s);
    } else {
      FallbackVerdict(ctx, km, st);
      FreshStroke(input, ctx, km, now, false);
      FallbackThenFresh(input, ctx, km, st, now, CompleteFallback(st.sequence, ctx, km, st.stamp.value.repeated),
                        ResolveStroke(input, ctx, km, IDLE, now, false), s);
    }
  }

  lemma IdleSettled(input: RawInput, ctx: FocusContext, km: Keymap, now: U64)
    ensures FromIdle(input, ctx, km, now, ResolveSettled(input, ctx, km, IDLE, now))
  {
    hide ResolveStroke, PressAccount;
    FreshStroke(input, ctx, km, now, true);
    var current := ResolveStroke(input, ctx, km, IDLE, now, true);
    assert [] + current.resolved.actions == current.resolved.actions && [] + current.via == current.via;
    SameAccount(input, ctx, km, IDLE, now, current, ResolveSettled(input, ctx, km, IDLE, now));
  }

  /** The press comes after the deadline: the held strokes are decided first. */
  lemma ExpiredAccount(input: RawInput, ctx: FocusContext, km: Keymap, st: Progress, now: U64)
    requires WellFormed(st) && ctx.Valid() && Live(st, ctx, km) && Expired(st, now)
    ensures PressAccount(input, ctx, km, st, now, ResolveSettled(input, ctx, km, st, now))
  {
    hide ResolveStroke, ResolveTimeout, Winners, StaleReason, Verdict, PressAccount, WellFormed;
    PollStep(ctx, km, st, now);
    PollFired(ctx, km, st, now);
    var expired := ResolveTimeout(ctx, km, st, now);
    FreshStroke(input, ctx, km, now, true);
    var current := ResolveStroke(input, ctx, km, IDLE, now, true);
    FallbackThenFresh(input, ctx, km, st, now, expired.resolved, current, ResolveSettled(input, ctx, km, st, now));
  }

  /** The press comes in time. */
  lemma InTimeAccount(input: RawInput, ctx: FocusContext, km: Keymap, st: Progress, now: U64)
    requires WellFormed(st) && Live(st, ctx, km) && !Expired(st, now)
    ensures PressAccount(input, ctx, km, st, now, ResolveSettled(input, ctx, km, st, now))
  {
    hide ResolveStroke, StaleReason, PressAccount, WellFormed;
    var s := ResolveSettled(input, ctx, km, st, now);
    if RepeatsLast(input, st) {
      IgnoredAccount(input, ctx, km, st, now, s);
    } else {
      LiveStroke(input, ctx, km, st, now);
      var current := ResolveStroke(input, ctx, km, st, now, true);
      assert [] + current.resolved.actions == current.resolved.actions && [] + current.via == current.via;
      SameAccount(input, ctx, km, st, now, current, s);
    }
  }

  lemma SettledAccount(input: RawInput, ctx: FocusContext, km: Keymap, st: Progress, now: U64)
    requires WellFormed(st) && ctx.Valid() && StaleReason(ctx, km, st).None?
    ensures PressAccount(input, ctx, km, st, now, ResolveSettled(input, ctx, km, st, now))
  {
    hide ResolveSettled, StaleReason, PressAccount;
    if st == IDLE { IdleSettled(input, ctx, km, now); }
    else if Expired(st, now) { ExpiredAccount(input, ctx, km, st, now); }
    else { InTimeAccount(input, ctx, km, st, now); }
  }

  /** What a press does to a well-formed state. */
  lemma PressStep(input: RawInput, ctx: FocusContext, km: Keymap, st: Progress, now: U64)
    requires WellFormed(st)
    ensures PressAccount(input, ctx, km, st, now, ResolveInput(input, ctx, km, st, now))
  {
    hide ResolveSettled, StaleReason, PressAccount, WellFormed;
    var s := ResolveInput(input, ctx, km, st, now);
    if !input.pressed {
      IgnoredAccount(input, ctx, km, st, now, s);
    } else if !ValidKey(input.key) || !ctx.Valid() {
      QuietAccount(input, ctx, km, st, now, s);
    } else if StaleReason(ctx, km, st).None? {
      SettledAccount(input, ctx, km, st, now);
    } else {
      IdleSettled(input, ctx, km, now);
      var idle := ResolveSettled(input, ctx, km, IDLE, now);
      assert [] + idle.resolved.actions == idle.resolved.actions;
      FromIdleAccount(input, ctx, km, st, now, idle, s);
    }
  }

  /** Dropping a stale prefix first changes nothing about what a press from idle does. */
  lemma FromIdleAccount(input: RawInput, ctx: FocusContext, km: Keymap, st: Progress, now: U64, idle: Stepped, s: Stepped)
    requires FromIdle(input, ctx, km, now, idle)
    requires s.next == idle.next && s.via == idle.via && s.keep == idle.keep && s.resolved.actions == idle.resolved.actions
    ensures PressAccount(input, ctx, km, st, now, s)
  {
    hide WellFormed, Winners, StaleReason, Candidates;
    forall i | 0 <= i < |s.via| ensures Fired(s.via[i], s.resolved.actions[i], input, ctx, km, st, now) {
      assert Fired(idle.via[i], idle.resolved.actions[i], input, ctx, km, IDLE, now);
    }
  }
}
