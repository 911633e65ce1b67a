/**
 What the resolver must answer: the state, the actions, the outcome and the issues of every
 key press, in terms of the candidates and winners of the strokes alone; and, over runs, that
 a held prefix with one winner is never lost.
 */
module ResolverDuty {
  import opened Seqs
  import opened Input
  import opened Keymap
  import opened Resolver
  import opened ResolverSteps
  import opened ResolverRuns

  // ---- Why nothing matches ----

  /** Some candidate is longer than the strokes. */
  ghost predicate CanGrow(prefix: seq<KeyStroke>, ctx: FocusContext, km: Keymap, repeated: bool) {
    exists b :: b in Candidates(prefix, ctx, km, repeated) && |b.chord| > |prefix|
  }

  /** Why a prefix has no candidate: nothing admitted, nothing allowed while editing, or only bindings that do not
      repeat. */
  ghost function Reason(prefix: seq<KeyStroke>, ctx: FocusContext, km: Keymap): Disposition {
    if Candidates(prefix, ctx.(focusedEditable := false), km, false) == {} then
      if ctx.modalScope.Some? then Suppressed(ModalCapture(ctx.modalScope.value)) else NoMatch
    else if Candidates(prefix, ctx, km, false) == {} then Suppressed(EditableFocus)
    else IgnoredRepeat
  }

  lemma AdmittedAreCandidates(prefix: seq<KeyStroke>, ctx: FocusContext, km: Keymap)
    ensures Elements(Admitted(prefix, ctx, km)) == Candidates(prefix, ctx.(focusedEditable := false), km, false)
    ensures Elements(FocusEligible(ctx, Admitted(prefix, ctx, km))) == Candidates(prefix, ctx, km, false)
  {
    hide Admitted, FocusEligible, EffectiveBindings;
  }

  lemma NoElements<T>(s: seq<T>)
    ensures s == [] <==> Elements(s) == {}
  {
    if s != [] { assert s[0] in Elements(s); }
  }

  /** `evaluate_prefix` finds the candidates, or the reason why there are none. */
  lemma EvaluatedExactly(prefix: seq<KeyStroke>, ctx: FocusContext, km: Keymap, repeated: bool)
    ensures var e := EvaluatePrefix(prefix, ctx, km, repeated);
      if Candidates(prefix, ctx, km, repeated) == {} then e == Empty(Reason(prefix, ctx, km))
      else e.Bindings? && (HasLonger(e.found, |prefix|) <==> CanGrow(prefix, ctx, km, repeated))
  {
    AdmittedAreCandidates(prefix, ctx, km);
    FiltersAreCandidates(prefix, ctx, km, repeated);
    var admitted := Admitted(prefix, ctx, km);
    var focused := FocusEligible(ctx, admitted);
    NoElements(admitted);
    NoElements(focused);
    NoElements(RepeatEligible(repeated, focused));
    var e := EvaluatePrefix(prefix, ctx, km, repeated);
    hide Admitted, FocusEligible, RepeatEligible, Candidates;
    if e.Bindings? { LongerIsGrowth(prefix, ctx, km, repeated, e.found); }
  }

  lemma LongerIsGrowth(prefix: seq<KeyStroke>, ctx: FocusContext, km: Keymap, repeated: bool, found: seq<Binding>)
    requires Elements(found) == Candidates(prefix, ctx, km, repeated)
    ensures HasLonger(found, |prefix|) <==> CanGrow(prefix, ctx, km, repeated)
  {
    hide Candidates;
    if HasLonger(found, |prefix|) {
      var i :| 0 <= i < |found| && |found[i].chord| > |prefix|;
      assert found[i] in Elements(found);
    }
    if CanGrow(prefix, ctx, km, repeated) {
      var b :| b in Candidates(prefix, ctx, km, repeated) && |b.chord| > |prefix|;
      assert b in Elements(found);
      var i :| 0 <= i < |found| && found[i] == b;
    }
  }

  // ---- What a press must do ----

  /** The strokes are accepted: held while they can grow, decided otherwise. */
  ghost predicate AcceptEnds(
    chord: seq<KeyStroke>, ctx: FocusContext, km: Keymap, repeated: bool, now: U64, r: Resolved, next: Progress) {
    if CanGrow(chord, ctx, km, repeated) then
      next == Accepted(chord, ctx, km, repeated, now) && r == Just(Pending(Min(now + km.chordTimeoutMs, U64_MAX)))
    else next == IDLE && Verdict(chord, Winners(chord, ctx, km, repeated), r)
  }

  /** A press with nothing held. */
  ghost predicate IdleEnds(input: RawInput, ctx: FocusContext, km: Keymap, now: U64, r: Resolved, next: Progress) {
    var chord := [input.Stroke()];
    if Candidates(chord, ctx, km, input.repeat) == {} then next == IDLE && r == Just(Reason(chord, ctx, km))
    else AcceptEnds(chord, ctx, km, input.repeat, now, r, next)
  }

  /** The held strokes are decided, and then the press stands alone. */
  ghost predicate DecidedFirst(
    input: RawInput, ctx: FocusContext, km: Keymap, st: Progress, now: U64, r: Resolved, next: Progress)
    requires st.stamp.Some?
  {
    exists prior, rest ::
      && Verdict(st.sequence, Winners(st.sequence, ctx, km, st.stamp.value.repeated), prior)
      && IdleEnds(input, ctx, km, now, rest, next) && r == rest.AfterPrior(prior)
  }

  /** The press is the operating system's repeat of the last held key, not a deliberate next stroke. */
  predicate HoldsKeyDown(input: RawInput, st: Progress) {
    input.repeat && |st.sequence| > 0 && st.sequence[|st.sequence| - 1] == KeyStroke(input.key, input.modifiers)
  }

  /** A press behind a live prefix, in time. */
  ghost predicate HeldEnds(
    input: RawInput, ctx: FocusContext, km: Keymap, st: Progress, now: U64, r: Resolved, next: Progress)
    requires st.stamp.Some?
  {
    var chord, repeated := st.sequence + [input.Stroke()], input.repeat || st.stamp.value.repeated;
    if HoldsKeyDown(input, st) then next == st && r == Just(IgnoredRepeat)
    else if Candidates(chord, ctx, km, repeated) != {} then AcceptEnds(chord, ctx, km, repeated, now, r, next)
    else if Reason(chord, ctx, km) == IgnoredRepeat then next == st && r == Just(IgnoredRepeat)
    else DecidedFirst(input, ctx, km, st, now, r, next)
  }

  /** What changed under a prefix that is dropped. */
  ghost function Why(km: Keymap, st: Progress): PendingInvalidation
    requires st.stamp.Some?
  {
    var stamp := st.stamp.value;
    if stamp.timeoutMs == km.chordTimeoutMs && Candidates(st.sequence, stamp.context, km, stamp.repeated) == stamp.candidates
    then FocusContextChanged else KeymapChanged
  }

  /** A prefix that is dropped is reported, and then the press stands alone. */
  ghost predicate DroppedFirst(
    input: RawInput, ctx: FocusContext, km: Keymap, st: Progress, now: U64, r: Resolved, next: Progress)
    requires st.stamp.Some?
  {
    exists rest ::
      IdleEnds(input, ctx, km, now, rest, next) && r == rest.AfterPrior(Resolved([], NoMatch, [PendingInvalidated(Why(km, st))]))
  }

  ghost predicate PressEnds(
    input: RawInput, ctx: FocusContext, km: Keymap, st: Progress, now: U64, r: Resolved, next: Progress) {
    if !input.pressed then next == st && r == Just(IgnoredRelease)
    else if !ValidKey(input.key) then next == IDLE && r == Resolved([], NoMatch, [InvalidInput(input.key)])
    else if !ctx.Valid() then next == IDLE && r == Just(Suppressed(InvalidFocusContext))
    else if st.stamp.None? then IdleEnds(input, ctx, km, now, r, next)
    else if !Live(st, ctx, km) then DroppedFirst(input, ctx, km, st, now, r, next)
    else if Expired(st, now) then DecidedFirst(input, ctx, km, st, now, r, next)
    else HeldEnds(input, ctx, km, st, now, r, next)
  }

  // ---- From idle ----

  lemma AcceptedEnds(
    chord: seq<KeyStroke>, ctx: FocusContext, km: Keymap, repeated: bool, now: U64, found: seq<Binding>, r: Resolved, next: Progress)
    requires Elements(found) == Candidates(chord, ctx, km, repeated) && forall b | b in found :: chord <= b.chord
    requires if HasLonger(found, |chord|) then
               next == Accepted(chord, ctx, km, repeated, now) && r == Just(Pending(SaturatingAdd(now, km.chordTimeoutMs)))
             else next == IDLE && r == CompleteCandidates(chord, found)
    ensures AcceptEnds(chord, ctx, km, repeated, now, r, next)
  {
    hide Candidates, CompleteCandidates, Winners, Verdict, Accepted, CanGrow, HasLonger;
    LongerIsGrowth(chord, ctx, km, repeated, found);
    CompletionVerdict(chord, found, ctx, km, repeated);
  }

  /** The first and the second try from idle come to the same. */
  lemma IdleStroke(input: RawInput, ctx: FocusContext, km: Keymap, now: U64, mayReprocess: bool)
    ensures var s := ResolveStroke(input, ctx, km, IDLE, now, mayReprocess);
      && IdleEnds(input, ctx, km, now, s.resolved, s.next)
      && s == ResolveStroke(input, ctx, km, IDLE, now, true)
    decreases mayReprocess
  {
    hide Candidates, EvaluatePrefix, CompleteCandidates, HasLonger, AcceptEnds, Reason;
    var chord, s := [input.Stroke()], ResolveStroke(input, ctx, km, IDLE, now, mayReprocess);
    assert IDLE.sequence + chord == chord;
    EvaluatedExactly(chord, ctx, km, input.repeat);
    var e := EvaluatePrefix(chord, ctx, km, input.repeat);
    if e.Bindings? {
      AcceptedEnds(chord, ctx, km, input.repeat, now, e.found, s.resolved, s.next);
    } else {
      SecondTry(input, ctx, km, now, e.outcome);
    }
  }

  lemma SecondTry(input: RawInput, ctx: FocusContext, km: Keymap, now: U64, outcome: Disposition)
    requires EvaluatePrefix([input.Stroke()], ctx, km, input.repeat) == Empty(outcome)
    ensures ResolveStroke(input, ctx, km, IDLE, now, true) == Stepped(IDLE, Just(outcome), [], Same)
    ensures ResolveStroke(input, ctx, km, IDLE, now, false) == Stepped(IDLE, Just(outcome), [], Same)
  {
    hide EvaluatePrefix, Candidates;
    assert IDLE.sequence + [input.Stroke()] == [input.Stroke()];
    var retried := ResolveStroke(input, ctx, km, IDLE, now, false);
    assert ViaEach(Just(NoMatch), Held) == [] && [] + retried.via == retried.via;
    assert retried.resolved.AfterPrior(Just(NoMatch)) == retried.resolved;
  }

  predicate Deliberate(input: RawInput, ctx: FocusContext) { input.pressed && ValidKey(input.key) && ctx.Valid() }

  lemma AfterNothing(r: Resolved)
    ensures r.AfterPrior(Just(NoMatch)) == r
  {
  }

  lemma IdlePress(input: RawInput, ctx: FocusContext, km: Keymap, now: U64)
    requires Deliberate(input, ctx)
    ensures var s := ResolveInput(input, ctx, km, IDLE, now);
      && IdleEnds(input, ctx, km, now, s.resolved, s.next)
      && s == ResolveStroke(input, ctx, km, IDLE, now, true)
  {
    hide ResolveStroke, IdleEnds, Candidates;
    IdleStroke(input, ctx, km, now, true);
    var stroke := ResolveStroke(input, ctx, km, IDLE, now, true);
    AfterNothing(stroke.resolved);
    assert [] + stroke.via == stroke.via;
  }

  // ---- Behind a prefix ----

  /** A press past the deadline is a poll and then the same press with nothing held. */
  lemma LatePressIsPollThenPress(input: RawInput, ctx: FocusContext, km: Keymap, st: Progress, now: U64)
    requires WellFormed(st) && Deliberate(input, ctx) && Live(st, ctx, km) && Expired(st, now)
    ensures var s, poll, alone :=
              ResolveInput(input, ctx, km, st, now), ResolveTimeout(ctx, km, st, now), ResolveInput(input, ctx, km, IDLE, now);
      && s.next == alone.next && s.keep == alone.keep && s.via == poll.via + alone.via
      && s.resolved == alone.resolved.AfterPrior(poll.resolved)
      && Verdict(st.sequence, Winners(st.sequence, ctx, km, st.stamp.value.repeated), poll.resolved)
      && poll.via == ViaEach(poll.resolved, Held)
  {
    hide ResolveStroke, ResolveTimeout, StaleReason, Winners, Verdict, WellFormed, IdleEnds;
    PollStep(ctx, km, st, now) by { StampIsNotIdle(st); }
    IdlePress(input, ctx, km, now);
    StampIsNotIdle(st);
    LateSettled(input, ctx, km, st, now);
  }

  lemma StampIsNotIdle(st: Progress)
    requires st.stamp.Some?
    ensures st != IDLE
  {
  }

  lemma LateSettled(input: RawInput, ctx: FocusContext, km: Keymap, st: Progress, now: U64)
    requires Deliberate(input, ctx) && StaleReason(ctx, km, st).None? && Expired(st, now)
    requires ResolveTimeout(ctx, km, st, now).next == IDLE
    ensures var s, poll, stroke :=
              ResolveInput(input, ctx, km, st, now), ResolveTimeout(ctx, km, st, now), ResolveStroke(input, ctx, km, IDLE, now, true);
      s == Stepped(stroke.next, stroke.resolved.AfterPrior(poll.resolved), poll.via + stroke.via, stroke.keep)
  {
    hide ResolveStroke, ResolveTimeout, StaleReason;
  }

  lemma LatePress(input: RawInput, ctx: FocusContext, km: Keymap, st: Progress, now: U64)
    requires WellFormed(st) && Deliberate(input, ctx) && Live(st, ctx, km) && Expired(st, now)
    ensures var s := ResolveInput(input, ctx, km, st, now); DecidedFirst(input, ctx, km, st, now, s.resolved, s.next)
  {
    hide ResolveInput, ResolveTimeout, IdleEnds, Verdict, Winners, WellFormed, Live;
    LatePressIsPollThenPress(input, ctx, km, st, now);
    IdlePress(input, ctx, km, now);
    var alone := ResolveInput(input, ctx, km, IDLE, now);
    assert IdleEnds(input, ctx, km, now, alone.resolved, ResolveInput(input, ctx, km, st, now).next);
  }

  lemma StalePress(input: RawInput, ctx: FocusContext, km: Keymap, st: Progress, now: U64)
    requires Deliberate(input, ctx) && st.stamp.Some? && !Live(st, ctx, km)
    ensures var s := ResolveInput(input, ctx, km, st, now); DroppedFirst(input, ctx, km, st, now, s.resolved, s.next)
  {
    IdlePress(input, ctx, km, now);
    var alone := ResolveInput(input, ctx, km, IDLE, now);
    assert StaleReason(ctx, km, st) == Some(Why(km, st));
    hide ResolveSettled, IdleEnds, Candidates;
    assert IdleEnds(input, ctx, km, now, alone.resolved, ResolveInput(input, ctx, km, st, now).next);
  }

  /** A press that no binding can take along decides what was held. */
  lemma MismatchDecides(input: RawInput, ctx: FocusContext, km: Keymap, st: Progress, now: U64)
    requires WellFormed(st) && Live(st, ctx, km) && Reason(st.sequence + [input.Stroke()], ctx, km) != IgnoredRepeat
    requires Candidates(st.sequence + [input.Stroke()], ctx, km, input.repeat || st.stamp.value.repeated) == {}
    ensures var s, alone := ResolveStroke(input, ctx, km, st, now, true), ResolveStroke(input, ctx, km, IDLE, now, true);
      var prior := CompleteFallback(st.sequence, ctx, km, st.stamp.value.repeated);
      && s.next == alone.next && s.keep == alone.keep && s.via == ViaEach(prior, Held) + alone.via
      && s.resolved == alone.resolved.AfterPrior(prior)
      && Verdict(st.sequence, Winners(st.sequence, ctx, km, st.stamp.value.repeated), prior)
  {
    hide Candidates, EvaluatePrefix, CompleteFallback, Reason, Winners, Verdict, WellFormed, StaleReason, IdleEnds, ViaEach;
    EvaluatedExactly(st.sequence + [input.Stroke()], ctx, km, input.repeat || st.stamp.value.repeated);
    IdleStroke(input, ctx, km, now, false);
    FallbackVerdict(ctx, km, st);
  }

  lemma HeldStroke(input: RawInput, ctx: FocusContext, km: Keymap, st: Progress, now: U64)
    requires WellFormed(st) && Live(st, ctx, km) && !RepeatsLast(input, st)
    ensures var s := ResolveStroke(input, ctx, km, st, now, true); HeldEnds(input, ctx, km, st, now, s.resolved, s.next)
  {
    hide Candidates, EvaluatePrefix, CompleteCandidates, HasLonger, AcceptEnds, Reason, WellFormed, StaleReason;
    hide CompleteFallback, Winners, Verdict, IdleEnds;
    var chord, repeated := st.sequence + [input.Stroke()], input.repeat || st.stamp.value.repeated;
    EvaluatedExactly(chord, ctx, km, repeated);
    var s, e := ResolveStroke(input, ctx, km, st, now, true), EvaluatePrefix(chord, ctx, km, repeated);
    if e.Bindings? {
      AcceptedEnds(chord, ctx, km, repeated, now, e.found, s.resolved, s.next);
    } else if e.outcome != IgnoredRepeat {
      hide ResolveStroke;
      MismatchDecides(input, ctx, km, st, now);
      IdleStroke(input, ctx, km, now, true);
      var alone := ResolveStroke(input, ctx, km, IDLE, now, true);
      assert IdleEnds(input, ctx, km, now, alone.resolved, s.next);
    }
  }

  lemma InTimePress(input: RawInput, ctx: FocusContext, km: Keymap, st: Progress, now: U64)
    requires WellFormed(st) && Deliberate(input, ctx) && Live(st, ctx, km) && !Expired(st, now)
    ensures var s := ResolveInput(input, ctx, km, st, now); HeldEnds(input, ctx, km, st, now, s.resolved, s.next)
  {
    hide Candidates, ResolveStroke, AcceptEnds, Reason, WellFormed, StaleReason, DecidedFirst;
    InTimeSettled(input, ctx, km, st, now);
    if !RepeatsLast(input, st) { HeldStroke(input, ctx, km, st, now); }
  }

  lemma InTimeSettled(input: RawInput, ctx: FocusContext, km: Keymap, st: Progress, now: U64)
    requires Deliberate(input, ctx) && StaleReason(ctx, km, st).None? && !Expired(st, now)
    ensures var s := ResolveInput(input, ctx, km, st, now);
      if RepeatsLast(input, st) then s.next == st && s.resolved == Just(IgnoredRepeat) && s.via == []
      else s == ResolveStroke(input, ctx, km, st, now, true)
  {
    hide ResolveStroke, StaleReason, ResolveTimeout;
    var stroke := ResolveStroke(input, ctx, km, st, now, true);
    AfterNothing(stroke.resolved);
    AfterNothing(Just(IgnoredRepeat));
    assert [] + stroke.via == stroke.via;
  }

  /** Every key event, from every reachable kind of state: the next state, the actions, the outcome and the issues. */
  lemma PressMeaning(input: RawInput, ctx: FocusContext, km: Keymap, st: Progress, now: U64)
    requires WellFormed(st)
    ensures var s := ResolveInput(input, ctx, km, st, now); PressEnds(input, ctx, km, st, now, s.resolved, s.next)
  {
    if Deliberate(input, ctx) {
      hide ResolveInput, IdleEnds, HeldEnds, DecidedFirst, DroppedFirst, Live;
      if st.stamp.None? {
        assert st == IDLE;
        IdlePress(input, ctx, km, now);
      } else if !Live(st, ctx, km) {
        StalePress(input, ctx, km, st, now);
      } else if Expired(st, now) {
        LatePress(input, ctx, km, st, now);
      } else {
        InTimePress(input, ctx, km, st, now);
      }
    }
  }

  /** A poll that drops a prefix says why; one past the deadline gives the verdict. */
  lemma PollMeaning(ctx: FocusContext, km: Keymap, st: Progress, now: U64)
    requires WellFormed(st)
    ensures var s := ResolveTimeout(ctx, km, st, now);
      if st.stamp.None? then s.next == st && s.resolved == Just(NoMatch)
      else if !ctx.Valid() then s.next == IDLE && s.resolved == Just(Suppressed(InvalidFocusContext))
      else if !Live(st, ctx, km) then s.next == IDLE && s.resolved == Resolved([], NoMatch, [PendingInvalidated(Why(km, st))])
      else if !Expired(st, now) then s.next == st && s.resolved == Just(Pending(st.deadline.value))
      else s.next == IDLE && Verdict(st.sequence, Winners(st.sequence, ctx, km, st.stamp.value.repeated), s.resolved)
  {
    hide Candidates, Winners, Verdict;
    PollStep(ctx, km, st, now);
    hide EvaluatePrefix, CompleteCandidates, HasLonger;
  }

  /** What focus demands of a binding that may fire: a modal takes everything and only its own; without one, only
      globals and present focus tags fire, and a tag beats a global; editing and repeating need the binding's leave. */
  lemma WinnersObeyFocus(b: Binding, chord: seq<KeyStroke>, ctx: FocusContext, km: Keymap, repeated: bool)
    requires TopRanked(b, chord, ctx, km, repeated)
    ensures b in EffectiveBindings(km) && b.chord == chord
    ensures ctx.modalScope.Some? ==> b.scope == Modal(ctx.modalScope.value)
    ensures ctx.modalScope.None? ==> b.scope.Global? || (b.scope.FocusTag? && b.scope.name in ctx.focusTags)
    ensures b.scope.Global? ==>
      forall other | other in EffectiveBindings(km) && other.chord == chord && other.scope.FocusTag? && other.scope.name in ctx.focusTags ::
        !BindingEligible(other, repeated, ctx.focusedEditable)
    ensures ctx.focusedEditable ==> b.allowInEditable
    ensures repeated ==> b.repeat == Allow
  {
    hide EffectiveBindings;
    if b.scope.Global? {
      forall other | other in EffectiveBindings(km) && other.chord == chord && other.scope.FocusTag? && other.scope.name in ctx.focusTags
        ensures !BindingEligible(other, repeated, ctx.focusedEditable)
      {
        IsCandidate(other, chord, ctx, km, repeated);
      }
    }
  }

  // ---- Over runs ----

  /** The event decides a live prefix: it comes past the deadline, or it is a press that no binding can take along. */
  ghost predicate Forces(e: Event, st: Progress)
    requires !e.Cancel? && st.stamp.Some?
  {
    match e
    case Poll(_, _, now) => Expired(st, now)
    case Press(input, ctx, km, now) =>
      && Deliberate(input, ctx)
      && (Expired(st, now)
          || (!HoldsKeyDown(input, st)
              && Candidates(st.sequence + [input.Stroke()], ctx, km, input.repeat || st.stamp.value.repeated) == {}
              && Reason(st.sequence + [input.Stroke()], ctx, km) != IgnoredRepeat))
  }

  /** The first action is `a`, from the held strokes. */
  predicate FiresHeld(s: Stepped, a: ActionId) {
    |s.via| == |s.resolved.actions| > 0 && s.via[0] == Held && s.resolved.actions[0] == a
  }

  lemma SoleVerdict(chord: seq<KeyStroke>, a: ActionId, prior: Resolved, alone: Stepped, s: Stepped)
    requires Verdict(chord, {a}, prior) && |alone.via| == |alone.resolved.actions|
    requires s.resolved.actions == prior.actions + alone.resolved.actions && s.via == ViaEach(prior, Held) + alone.via
    ensures FiresHeld(s, a)
  {
    assert prior.actions == [a];
    var via := ViaEach(prior, Held);
    assert via[0] in via;
  }

  lemma ForcedPollFires(ctx: FocusContext, km: Keymap, st: Progress, now: U64, a: ActionId)
    requires WellFormed(st) && ctx.Valid() && Live(st, ctx, km) && Expired(st, now)
    requires Winners(st.sequence, ctx, km, st.stamp.value.repeated) == {a}
    ensures FiresHeld(ResolveTimeout(ctx, km, st, now), a)
  {
    hide ResolveTimeout, Winners, Verdict, StaleReason, WellFormed;
    StampIsNotIdle(st);
    PollStep(ctx, km, st, now);
    var s := ResolveTimeout(ctx, km, st, now);
    var none := Stepped(IDLE, Just(NoMatch), [], Same);
    assert s.resolved.actions + [] == s.resolved.actions && s.via + [] == s.via;
    SoleVerdict(st.sequence, a, s.resolved, none, s);
  }

  lemma ForcedPressFires(input: RawInput, ctx: FocusContext, km: Keymap, st: Progress, now: U64, a: ActionId)
    requires WellFormed(st) && Live(st, ctx, km) && Forces(Press(input, ctx, km, now), st)
    requires Winners(st.sequence, ctx, km, st.stamp.value.repeated) == {a}
    ensures FiresHeld(ResolveInput(input, ctx, km, st, now), a)
  {
    hide ResolveInput, ResolveTimeout, ResolveStroke, Winners, Verdict, StaleReason, WellFormed, Candidates, Reason, CompleteFallback, ViaEach;
    var s := ResolveInput(input, ctx, km, st, now);
    if Expired(st, now) {
      LatePressIsPollThenPress(input, ctx, km, st, now);
      SoleVerdict(st.sequence, a, ResolveTimeout(ctx, km, st, now).resolved, ResolveInput(input, ctx, km, IDLE, now), s);
    } else {
      InTimeSettled(input, ctx, km, st, now);
      MismatchDecides(input, ctx, km, st, now);
      SoleVerdict(st.sequence, a, CompleteFallback(st.sequence, ctx, km, st.stamp.value.repeated),
                  ResolveStroke(input, ctx, km, IDLE, now, true), s);
    }
  }

  /** No prefix is lost: in any run, a live held prefix with one winner is emitted, for exactly the presses it holds, by
      the first poll or press past its deadline and by the first press in time that cannot extend it. */
  lemma HeldPrefixIsDecided(events: seq<Event>, n: nat, a: ActionId)
    requires n < |events| && !events[n].Cancel? && events[n].ctx.Valid()
    requires var st := Run(events, n).progress;
      && Live(st, events[n].ctx, events[n].km) && Forces(events[n], st)
      && Winners(st.sequence, events[n].ctx, events[n].km, st.stamp.value.repeated) == {a}
    ensures var t, t' := Run(events, n), Run(events, n + 1);
      && |t'.emitted| > |t.emitted| && t'.emitted[..|t.emitted|] == t.emitted
      && t'.emitted[|t.emitted|] == Emission(a, t.held, n)
  {
    hide Winners, StaleReason, ResolveInput, ResolveTimeout, WellFormed, Forces, HeldInvariant, Justified, Ordered, AllPresses;
    RunKeepsInvariant(events, n);
    var t := Run(events, n);
    match events[n]
    case Press(input, ctx, km, now) =>
      ForcedPressFires(input, ctx, km, t.progress, now, a);
      EmitsFirst(t, ResolveInput(input, ctx, km, t.progress, now), n, a);
    case Poll(ctx, km, now) =>
      ForcedIsExpired(events[n], t.progress);
      ForcedPollFires(ctx, km, t.progress, now, a);
      EmitsFirst(t, ResolveTimeout(ctx, km, t.progress, now), n, a);
  }

  lemma ForcedIsExpired(e: Event, st: Progress)
    requires e.Poll? && st.stamp.Some? && Forces(e, st)
    ensures Expired(st, e.now)
  {
  }

  lemma EmitsFirst(t: Trace, s: Stepped, n: nat, a: ActionId)
    requires FiresHeld(s, a)
    ensures var t' := Record(t, s, n);
      && |t'.emitted| > |t.emitted| && t'.emitted[..|t.emitted|] == t.emitted
      && t'.emitted[|t.emitted|] == Emission(a, t.held, n)
  {
  }

  /** No completed chord is lost: a press in time that completes the held strokes, which nothing longer starts with,
      emits their sole winner for exactly those presses. */
  lemma CompletedChordFires(events: seq<Event>, n: nat, a: ActionId)
    requires n < |events| && events[n].Press? && Deliberate(events[n].input, events[n].ctx)
    requires var st, e := Run(events, n).progress, events[n];
      && (st == IDLE || (Live(st, e.ctx, e.km) && !Expired(st, e.now) && !HoldsKeyDown(e.input, st)))
      && var chord, repeated := st.sequence + [e.input.Stroke()], e.input.repeat || PriorRepeat(st);
      && !CanGrow(chord, e.ctx, e.km, repeated) && Winners(chord, e.ctx, e.km, repeated) == {a}
    ensures var t, t' := Run(events, n), Run(events, n + 1);
      t'.progress == IDLE && t'.emitted == t.emitted + [Emission(a, t.held + [n], n)]
  {
    hide Winners, StaleReason, ResolveInput, WellFormed, HeldInvariant, Justified, Ordered, AllPresses, CanGrow;
    RunKeepsInvariant(events, n);
    var t, e := Run(events, n), events[n];
    if t.progress == IDLE { NothingHeld(events, n); } else { LiveIsHeld(t.progress); }
    CompletionFires(e.input, e.ctx, e.km, t.progress, e.now, a);
    var s := ResolveInput(e.input, e.ctx, e.km, t.progress, e.now);
    assert Consumed(s.via[0], t.held, n) == t.held + [n];
    assert Emissions(s, t.held, n) == [Emission(a, t.held + [n], n)];
  }

  lemma LiveIsHeld(st: Progress)
    requires WellFormed(st) && st.stamp.Some?
    ensures st.sequence != []
  {
  }

  lemma NothingHeld(events: seq<Event>, n: nat)
    requires n <= |events| && Run(events, n).progress == IDLE
    ensures Run(events, n).held == []
  {
    hide Justified, Ordered, AllPresses, Run;
    RunKeepsInvariant(events, n);
  }

  lemma WinnersAreCandidates(chord: seq<KeyStroke>, ctx: FocusContext, km: Keymap, repeated: bool)
    requires Winners(chord, ctx, km, repeated) != {}
    ensures Candidates(chord, ctx, km, repeated) != {}
  {
  }

  lemma CompletionFires(input: RawInput, ctx: FocusContext, km: Keymap, st: Progress, now: U64, a: ActionId)
    requires Deliberate(input, ctx)
    requires st == IDLE || (Live(st, ctx, km) && !Expired(st, now) && !RepeatsLast(input, st) && st.sequence != [])
    requires var chord, repeated := st.sequence + [input.Stroke()], input.repeat || PriorRepeat(st);
      !CanGrow(chord, ctx, km, repeated) && Winners(chord, ctx, km, repeated) == {a}
    ensures var s := ResolveInput(input, ctx, km, st, now);
      && s.next == IDLE && s.resolved == Resolved([a], Complete, [])
      && s.via == [if st == IDLE then PressOnly else HeldAndPress]
  {
    hide Winners, CanGrow, Candidates, EvaluatePrefix, HasLonger, CompleteCandidates, ResolveInput, ResolveStroke;
    hide StaleReason, Verdict, Reason, ViaEach;
    var chord, repeated := st.sequence + [input.Stroke()], input.repeat || PriorRepeat(st);
    StrokeIsPress(input, ctx, km, st, now);
    EvaluatedExactly(chord, ctx, km, repeated);
    WinnersAreCandidates(chord, ctx, km, repeated);
    var e := EvaluatePrefix(chord, ctx, km, repeated);
    CompletionVerdict(chord, e.found, ctx, km, repeated);
    SoleResolved(chord, a, CompleteCandidates(chord, e.found));
    StrokeCompletes(input, ctx, km, st, now);
    var via := ViaEach(Resolved([a], Complete, []), if st.sequence == [] then PressOnly else HeldAndPress);
    assert |via| == 1 && via[0] in via;
  }

  lemma StrokeCompletes(input: RawInput, ctx: FocusContext, km: Keymap, st: Progress, now: U64)
    requires var chord := st.sequence + [input.Stroke()]; var e := EvaluatePrefix(chord, ctx, km, input.repeat || PriorRepeat(st));
      e.Bindings? && !HasLonger(e.found, |chord|)
    ensures var chord, s := st.sequence + [input.Stroke()], ResolveStroke(input, ctx, km, st, now, true);
      && s.next == IDLE && s.resolved == CompleteCandidates(chord, EvaluatePrefix(chord, ctx, km, input.repeat || PriorRepeat(st)).found)
      && s.via == ViaEach(s.resolved, if st.sequence == [] then PressOnly else HeldAndPress)
  {
    hide EvaluatePrefix, HasLonger, CompleteCandidates, ViaEach, PriorRepeat;
  }

  lemma SoleResolved(chord: seq<KeyStroke>, a: ActionId, r: Resolved)
    requires Verdict(chord, {a}, r)
    ensures r == Resolved([a], Complete, [])
  {
  }

  lemma StrokeIsPress(input: RawInput, ctx: FocusContext, km: Keymap, st: Progress, now: U64)
    requires Deliberate(input, ctx)
    requires st == IDLE || (Live(st, ctx, km) && !Expired(st, now) && !RepeatsLast(input, st))
    ensures ResolveInput(input, ctx, km, st, now) == ResolveStroke(input, ctx, km, st, now, true)
  {
    hide ResolveStroke, StaleReason, ResolveInput, Candidates;
    if st == IDLE { IdlePress(input, ctx, km, now); } else { InTimeSettled(input, ctx, km, st, now); }
  }
}
