/**
 Menu accelerator hints: `binding_for` names a global chord only when pressing that
 chord really runs the action, and it names one whenever such a chord exists.
 */
module Accelerators {
  import opened Seqs
  import opened Input
  import opened Keymap
  import opened Resolver
  import opened ResolverSteps
  import opened ResolverRuns

  function GlobalExact(km: Keymap, chord: Chord): (r: seq<Binding>)
    ensures forall b | b in r :: b in EffectiveBindings(km) && b.chord == chord && b.scope.Global?
    ensures forall b | b in EffectiveBindings(km) && b.chord == chord && b.scope.Global? :: b in r
  {
    Filter((b: Binding) => b.chord == chord && b.scope.Global?, EffectiveBindings(km))
  }

  /** `global_exact_winners` */
  function GlobalExactWinners(km: Keymap, chord: Chord): (r: seq<ActionId>)
    ensures StrictlyIncreasing(r)
  {
    var exact := GlobalExact(km, chord);
    if exact == [] then [] else SortUnique(Actions(TopLayer(exact)))
  }

  function FirstWinning(km: Keymap, action: ActionId, bindings: seq<Binding>): (r: Option<Chord>)
    ensures r.Some? ==> exists b :: b in bindings && b.action == action && b.scope.Global? && b.chord == r.value
    ensures r.Some? ==> GlobalExactWinners(km, r.value) == [action]
    ensures r.None? ==> forall b | b in bindings && b.action == action && b.scope.Global? :: GlobalExactWinners(km, b.chord) != [action]
  {
    if bindings == [] then None
    else
      var b := bindings[0];
      if b.action == action && b.scope.Global? && GlobalExactWinners(km, b.chord) == [action] then Some(b.chord)
      else FirstWinning(km, action, bindings[1..])
  }

  /** `binding_for`, before display. */
  function BindingFor(km: Keymap, action: ActionId): Option<Chord> {
    FirstWinning(km, action, EffectiveBindings(km))
  }

  /** The `i`-th binding would do as the accelerator of the action. */
  predicate Advertisable(km: Keymap, action: ActionId, bindings: seq<Binding>, i: nat)
    requires i < |bindings|
  {
    bindings[i].action == action && bindings[i].scope.Global? && GlobalExactWinners(km, bindings[i].chord) == [action]
  }

  lemma {:induction false} FirstIsFirst(km: Keymap, action: ActionId, bindings: seq<Binding>) returns (i: nat)
    requires FirstWinning(km, action, bindings).Some?
    ensures i < |bindings| && Advertisable(km, action, bindings, i) && bindings[i].chord == FirstWinning(km, action, bindings).value
    ensures forall j: nat | j < i :: !Advertisable(km, action, bindings, j)
  {
    hide GlobalExactWinners;
    if Advertisable(km, action, bindings, 0) {
      i := 0;
    } else {
      var k := FirstIsFirst(km, action, bindings[1..]);
      i := k + 1;
      forall j: nat | j < i ensures !Advertisable(km, action, bindings, j) {
        if j > 0 { assert bindings[1..][j - 1] == bindings[j] && !Advertisable(km, action, bindings[1..], j - 1); }
      }
    }
  }

  /** The advertised chord is that of the first effective binding that would do: defaults before overrides, in order. */
  lemma AcceleratorIsFirst(km: Keymap, action: ActionId) returns (i: nat)
    requires BindingFor(km, action).Some?
    ensures var bindings := EffectiveBindings(km);
      && i < |bindings| && Advertisable(km, action, bindings, i) && bindings[i].chord == BindingFor(km, action).value
      && forall j: nat | j < i :: !Advertisable(km, action, bindings, j)
  {
    i := FirstIsFirst(km, action, EffectiveBindings(km));
  }

  /** The static winners are the resolver's winners in the global context. */
  lemma GlobalWinnersResolve(km: Keymap, chord: Chord)
    ensures Elements(GlobalExactWinners(km, chord)) == Winners(chord, GLOBAL_CONTEXT, km, false)
  {
    hide GlobalExact, Candidates, TopLayer, TopRanked, Winners, Actions, SortUnique;
    var exact := GlobalExact(km, chord);
    forall b ensures b in exact <==> b in Candidates(chord, GLOBAL_CONTEXT, km, false) && b.chord == chord {
      IsCandidate(b, chord, GLOBAL_CONTEXT, km, false);
    }
    if exact == [] {
      NoneTop(km, chord);
    } else {
      forall b ensures b in TopLayer(exact) <==> TopRanked(b, chord, GLOBAL_CONTEXT, km, false) {
        TopGlobal(exact, km, chord, b);
      }
      ActionsAreWinners(TopLayer(exact), chord, GLOBAL_CONTEXT, km, false);
    }
  }

  lemma NoneTop(km: Keymap, chord: Chord)
    requires forall b | b in Candidates(chord, GLOBAL_CONTEXT, km, false) :: b.chord != chord
    ensures Winners(chord, GLOBAL_CONTEXT, km, false) == {} && Elements<ActionId>([]) == {}
  {
    hide Candidates;
  }

  /** Among global bindings the layer alone ranks. */
  lemma TopGlobal(exact: seq<Binding>, km: Keymap, chord: Chord, b: Binding)
    requires exact != [] && forall b | b in exact :: b.scope.Global?
    requires forall b :: b in exact <==> b in Candidates(chord, GLOBAL_CONTEXT, km, false) && b.chord == chord
    ensures b in TopLayer(exact) <==> TopRanked(b, chord, GLOBAL_CONTEXT, km, false)
  {
    hide TopLayer, Candidates;
  }

  // ---- Pressing a chord ----

  function PressOf(stroke: KeyStroke): RawInput { RawInput(stroke.key, stroke.modifiers, true, false) }

  /** Releases and global polls, which may fall between the presses. */
  ghost predicate Harmless(e: Event, km: Keymap) {
    || (e.Poll? && e.ctx == GLOBAL_CONTEXT && e.km == km)
    || (e.Press? && !e.input.pressed)
  }

  /** The first `n` events press the first `k` strokes of `chord` in the global context, each event
      before the deadline then pending, with releases and polls in between. */
  ghost predicate Plays(events: seq<Event>, km: Keymap, chord: Chord, n: nat, k: nat) {
    && n <= |events| && k <= |chord|
    && if n == 0 then k == 0
       else
         var e := events[n - 1];
         && !e.Cancel? && !Expired(Run(events, n - 1).progress, e.now)
         && if Harmless(e, km) then Plays(events, km, chord, n - 1, k)
            else k > 0 && e == Press(PressOf(chord[k - 1]), GLOBAL_CONTEXT, km, e.now)
                 && Plays(events, km, chord, n - 1, k - 1)
  }

  /** Nothing emitted, and the first `k` strokes held (for some time of the last press). */
  ghost predicate Waiting(t: Trace, km: Keymap, chord: Chord, k: nat)
    requires k <= |chord|
  {
    && t.emitted == []
    && if k == 0 then t.progress == IDLE
       else exists now :: t.progress == Accepted(chord[..k], GLOBAL_CONTEXT, km, false, now)
  }

  ghost predicate BoundGlobally(km: Keymap, chord: Chord) {
    exists b :: b in EffectiveBindings(km) && b.chord == chord && b.scope.Global?
  }

  /** The chord has been decided as `winners` demand: one action and idle, or none. */
  ghost predicate Decided(t: Trace, winners: set<ActionId>) {
    && t.progress == IDLE
    && (if |winners| == 1 then |t.emitted| == 1 && winners == {t.emitted[0].action} else t.emitted == [])
  }

  lemma HarmlessKeepsWaiting(t: Trace, e: Event, at: nat, km: Keymap, chord: Chord, k: nat)
    requires k <= |chord| && Waiting(t, km, chord, k) && WellFormed(t.progress)
    requires Harmless(e, km) && !Expired(t.progress, e.now)
    ensures Waiting(Advance(t, e, at), km, chord, k)
  {
    hide Candidates, EvaluatePrefix, Winners;
    if e.Poll? {
      PollStep(GLOBAL_CONTEXT, km, t.progress, e.now);
    }
  }

  /** A deliberate press in time is just a stroke. */
  lemma PressIsStroke(input: RawInput, ctx: FocusContext, km: Keymap, st: Progress, now: U64)
    requires input.pressed && !input.repeat && ValidKey(input.key) && ctx.Valid()
    requires StaleReason(ctx, km, st).None? && !Expired(st, now)
    ensures var s, stroke := ResolveInput(input, ctx, km, st, now), ResolveStroke(input, ctx, km, st, now, true);
      s.next == stroke.next && s.resolved == stroke.resolved
  {
    hide ResolveStroke, StaleReason, ResolveTimeout;
    var stroke := ResolveStroke(input, ctx, km, st, now, true);
    assert [] + stroke.resolved.actions == stroke.resolved.actions && [] + stroke.resolved.issues == stroke.resolved.issues;
  }

  lemma AcceptedIsLive(sequence: seq<KeyStroke>, ctx: FocusContext, km: Keymap, now: U64)
    ensures StaleReason(ctx, km, Accepted(sequence, ctx, km, false, now)).None?
    ensures !PriorRepeat(Accepted(sequence, ctx, km, false, now))
  {
    hide Candidates;
  }

  /** A stroke whose prefix has a binding either is held or completes the chord. */
  lemma StrokeHoldsOrCompletes(input: RawInput, ctx: FocusContext, km: Keymap, st: Progress, now: U64)
    requires !input.repeat && !PriorRepeat(st)
    requires EvaluatePrefix(st.sequence + [input.Stroke()], ctx, km, false).Bindings?
    ensures var sequence, s := st.sequence + [input.Stroke()], ResolveStroke(input, ctx, km, st, now, true);
      var found := EvaluatePrefix(sequence, ctx, km, false).found;
      if HasLonger(found, |sequence|) then s.next == Accepted(sequence, ctx, km, false, now) && s.resolved.actions == []
      else s.next == IDLE && s.resolved == CompleteCandidates(sequence, found)
  {
    hide EvaluatePrefix, Candidates, HasLonger, CompleteCandidates;
  }

  lemma BoundIsFound(km: Keymap, chord: Chord, k: nat)
    requires k < |chord| && BoundGlobally(km, chord)
    ensures var e := EvaluatePrefix(chord[..k + 1], GLOBAL_CONTEXT, km, false);
      e.Bindings? && (k + 1 < |chord| ==> HasLonger(e.found, k + 1))
  {
    hide EvaluatePrefix, Candidates;
    var b :| b in EffectiveBindings(km) && b.chord == chord && b.scope.Global?;
    IsCandidate(b, chord[..k + 1], GLOBAL_CONTEXT, km, false);
    var e := EvaluatePrefix(chord[..k + 1], GLOBAL_CONTEXT, km, false);
    assert e.Bindings? && b in Elements(e.found);
    assert b in e.found;
  }

  /** One more stroke of a bound chord, in time. */
  lemma NextStroke(st: Progress, km: Keymap, chord: Chord, k: nat, now: U64)
    requires k < |chord| && BoundGlobally(km, chord) && WellFormed(st) && !Expired(st, now)
    requires if k == 0 then st == IDLE else exists was :: st == Accepted(chord[..k], GLOBAL_CONTEXT, km, false, was)
    ensures var s := ResolveInput(PressOf(chord[k]), GLOBAL_CONTEXT, km, st, now);
      || (s.next == Accepted(chord[..k + 1], GLOBAL_CONTEXT, km, false, now) && s.resolved.actions == [])
      || (k + 1 == |chord| && s.next == IDLE && Verdict(chord, Winners(chord, GLOBAL_CONTEXT, km, false), s.resolved))
  {
    hide Winners, Verdict, CompleteCandidates, EvaluatePrefix, HasLonger, StaleReason, ResolveInput, ResolveStroke, Candidates;
    hide BoundGlobally, WellFormed;
    var input, sequence := PressOf(chord[k]), chord[..k + 1];
    assert chord[..k] + [chord[k]] == sequence && chord[..0] == [];
    if k > 0 {
      var was :| st == Accepted(chord[..k], GLOBAL_CONTEXT, km, false, was);
      AcceptedIsLive(chord[..k], GLOBAL_CONTEXT, km, was);
    } else {
      IdleIsFresh(km);
    }
    BoundIsFound(km, chord, k);
    PressIsStroke(input, GLOBAL_CONTEXT, km, st, now);
    StrokeHoldsOrCompletes(input, GLOBAL_CONTEXT, km, st, now);
    var e := EvaluatePrefix(sequence, GLOBAL_CONTEXT, km, false);
    if !HasLonger(e.found, |sequence|) {
      assert sequence == chord;
      CompletionVerdict(chord, e.found, GLOBAL_CONTEXT, km, false);
    }
  }

  lemma IdleIsFresh(km: Keymap)
    ensures StaleReason(GLOBAL_CONTEXT, km, IDLE).None? && !PriorRepeat(IDLE)
  {
  }

  lemma VerdictDecides(t: Trace, s: Stepped, at: nat, chord: Chord, winners: set<ActionId>)
    requires t.emitted == [] && s.next == IDLE && |s.via| == |s.resolved.actions| && Verdict(chord, winners, s.resolved)
    ensures Decided(Record(t, s, at), winners)
  {
    if |winners| == 1 {
      var a :| a in winners;
      assert |winners - {a}| == 0;
      assert winners == {a};
    }
    VerdictSize(chord, winners, s.resolved);
  }

  lemma RunWellFormed(events: seq<Event>, n: nat)
    requires n <= |events|
    ensures WellFormed(Run(events, n).progress)
  {
    RunKeepsInvariant(events, n);
  }

  lemma PressKeepsWaiting(t: Trace, at: nat, km: Keymap, chord: Chord, k: nat, now: U64)
    requires k + 1 < |chord| && Waiting(t, km, chord, k) && WellFormed(t.progress)
    requires BoundGlobally(km, chord) && !Expired(t.progress, now)
    ensures Waiting(Advance(t, Press(PressOf(chord[k]), GLOBAL_CONTEXT, km, now), at), km, chord, k + 1)
  {
    hide Winners, Candidates, EvaluatePrefix, ResolveInput, WellFormed, Verdict, BoundGlobally;
    NextStroke(t.progress, km, chord, k, now);
  }

  lemma IdleWaits(km: Keymap, chord: Chord)
    ensures Waiting(Trace(IDLE, [], []), km, chord, 0)
  {
  }

  /** Every proper prefix waits in silence. */
  lemma {:induction false} PrefixesWait(events: seq<Event>, km: Keymap, chord: Chord, n: nat, k: nat)
    requires Plays(events, km, chord, n, k) && k < |chord| && BoundGlobally(km, chord)
    ensures Waiting(Run(events, n), km, chord, k)
  {
    hide Advance, WellFormed, BoundGlobally, Waiting, Expired;
    if n == 0 {
      IdleWaits(km, chord);
    } else {
      var e := events[n - 1];
      RunWellFormed(events, n - 1);
      if Harmless(e, km) {
        PrefixesWait(events, km, chord, n - 1, k);
        HarmlessKeepsWaiting(Run(events, n - 1), e, n - 1, km, chord, k);
      } else {
        PrefixesWait(events, km, chord, n - 1, k - 1);
        PressKeepsWaiting(Run(events, n - 1), n - 1, km, chord, k - 1, e.now);
      }
    }
  }

  lemma PollDecides(t: Trace, at: nat, km: Keymap, chord: Chord, now: U64)
    requires Waiting(t, km, chord, |chord|) && WellFormed(t.progress) && t.progress.deadline.Some?
    requires now >= t.progress.deadline.value
    ensures Decided(Advance(t, Poll(GLOBAL_CONTEXT, km, now), at), Winners(chord, GLOBAL_CONTEXT, km, false))
  {
    hide Winners, Candidates, EvaluatePrefix, ResolveTimeout, Verdict, Decided, WellFormed;
    assert chord[..|chord|] == chord;
    PollStep(GLOBAL_CONTEXT, km, t.progress, now);
    VerdictDecides(t, ResolveTimeout(GLOBAL_CONTEXT, km, t.progress, now), at, chord, Winners(chord, GLOBAL_CONTEXT, km, false));
  }

  lemma LastPress(t: Trace, at: nat, km: Keymap, chord: Chord, now: U64)
    requires Waiting(t, km, chord, |chord| - 1) && WellFormed(t.progress)
    requires BoundGlobally(km, chord) && !Expired(t.progress, now)
    ensures var t' := Advance(t, Press(PressOf(chord[|chord| - 1]), GLOBAL_CONTEXT, km, now), at);
      Waiting(t', km, chord, |chord|) || Decided(t', Winners(chord, GLOBAL_CONTEXT, km, false))
  {
    hide Winners, Candidates, EvaluatePrefix, ResolveInput, WellFormed, Verdict, BoundGlobally, Decided;
    NextStroke(t.progress, km, chord, |chord| - 1, now);
    var s := ResolveInput(PressOf(chord[|chord| - 1]), GLOBAL_CONTEXT, km, t.progress, now);
    if s.next == IDLE {
      VerdictDecides(t, s, at, chord, Winners(chord, GLOBAL_CONTEXT, km, false));
    }
  }

  /** The last stroke decides the chord at once, or leaves it to the timeout poll that decides it. */
  lemma LastStrokeDecides(events: seq<Event>, km: Keymap, chord: Chord, n: nat)
    requires Plays(events, km, chord, n, |chord|) && n > 0 && !Harmless(events[n - 1], km) && BoundGlobally(km, chord)
    ensures var t := Run(events, n); var winners := Winners(chord, GLOBAL_CONTEXT, km, false);
      || Decided(t, winners)
      || (t.emitted == [] && t.progress.deadline.Some?
          && forall now: U64 | now >= t.progress.deadline.value ::
               Decided(Advance(t, Poll(GLOBAL_CONTEXT, km, now), n), winners))
  {
    hide Winners, Advance, Decided, WellFormed, BoundGlobally, Expired;
    var t, winners := Run(events, n), Winners(chord, GLOBAL_CONTEXT, km, false);
    RunWellFormed(events, n - 1);
    RunWellFormed(events, n);
    PrefixesWait(events, km, chord, n - 1, |chord| - 1);
    LastPress(Run(events, n - 1), n - 1, km, chord, events[n - 1].now);
    if !Decided(t, winners) {
      forall now: U64 | now >= t.progress.deadline.value
        ensures Decided(Advance(t, Poll(GLOBAL_CONTEXT, km, now), n), winners)
      {
        PollDecides(t, n, km, chord, now);
      }
    }
  }

  lemma AdvertisedIsBound(km: Keymap, action: ActionId)
    requires BindingFor(km, action).Some?
    ensures BoundGlobally(km, BindingFor(km, action).value) && GlobalExactWinners(km, BindingFor(km, action).value) == [action]
  {
  }

  lemma WaitingIsSilent(t: Trace, km: Keymap, chord: Chord, k: nat)
    requires k <= |chord| && Waiting(t, km, chord, k)
    ensures t.emitted == []
  {
  }

  /** Accelerator soundness: pressing the advertised chord in time, in the global context, emits nothing
      on any proper prefix and exactly the action after the last stroke or at the timeout poll after it. */
  lemma AcceleratorRuns(events: seq<Event>, km: Keymap, action: ActionId, n: nat, k: nat)
    requires BindingFor(km, action).Some?
    requires Plays(events, km, BindingFor(km, action).value, n, k)
    ensures k < |BindingFor(km, action).value| ==> Run(events, n).emitted == []
    ensures k == |BindingFor(km, action).value| && n > 0 && !Harmless(events[n - 1], km) ==>
      var t := Run(events, n);
      || Decided(t, {action})
      || (t.emitted == [] && t.progress.deadline.Some?
          && forall now: U64 | now >= t.progress.deadline.value ::
               Decided(Advance(t, Poll(GLOBAL_CONTEXT, km, now), n), {action}))
  {
    AdvertisedIsBound(km, action);
    hide Advance, Run, Plays, Winners, BindingFor, GlobalExactWinners, BoundGlobally, Decided, Waiting;
    var chord := BindingFor(km, action).value;
    if k < |chord| {
      PrefixesWait(events, km, chord, n, k);
      WaitingIsSilent(Run(events, n), km, chord, k);
    } else if n > 0 && !Harmless(events[n - 1], km) {
      GlobalWinnersResolve(km, chord);
      assert Elements([action]) == {action};
      LastStrokeDecides(events, km, chord, n);
    }
  }

  /** Accelerator completeness: a chord is advertised iff some globally bound chord has the action as its sole winner. */
  lemma AcceleratorExists(km: Keymap, action: ActionId)
    ensures BindingFor(km, action).Some? <==>
      exists b :: b in EffectiveBindings(km) && b.action == action && b.scope.Global?
                  && Winners(b.chord, GLOBAL_CONTEXT, km, false) == {action}
  {
    hide Winners, GlobalExactWinners, EffectiveBindings;
    if BindingFor(km, action).Some? {
      GlobalWinnersResolve(km, BindingFor(km, action).value);
      assert Elements([action]) == {action};
    }
    forall b | b in EffectiveBindings(km) && b.action == action && b.scope.Global?
               && Winners(b.chord, GLOBAL_CONTEXT, km, false) == {action}
      ensures GlobalExactWinners(km, b.chord) == [action]
    {
      GlobalWinnersResolve(km, b.chord);
      assert Elements([action]) == {action};
      StrictlyIncreasingUnique(GlobalExactWinners(km, b.chord), [action]);
    }
  }

  // ---- The chord can be pressed ----

  /** The strokes of a chord, pressed at once. */
  function Typed(km: Keymap, chord: Chord): (events: seq<Event>)
    ensures |events| == |chord|
    ensures forall i | 0 <= i < |events| :: events[i] == Press(PressOf(chord[i]), GLOBAL_CONTEXT, km, 0)
  {
    seq(|chord|, i requires 0 <= i < |chord| => Press(PressOf(chord[i]), GLOBAL_CONTEXT, km, 0))
  }

  lemma TypedInTime(km: Keymap, chord: Chord, n: nat)
    requires km.chordTimeoutMs > 0 && n <= |chord|
    ensures !Expired(Run(Typed(km, chord), n).progress, 0)
  {
    hide Run, Typed, Candidates, Winners, Meant, Justified, Eligible;
    RunKeepsInvariant(Typed(km, chord), n);
  }

  /** With a positive timeout, which a valid keymap has, every chord can be pressed in time. */
  lemma {:induction false} ChordCanBePressed(km: Keymap, chord: Chord, k: nat)
    requires km.chordTimeoutMs > 0 && k <= |chord|
    ensures Plays(Typed(km, chord), km, chord, k, k)
  {
    hide Run, Typed, Expired;
    if k > 0 {
      ChordCanBePressed(km, chord, k - 1);
      TypedInTime(km, chord, k - 1);
    }
  }

  /** End to end: type the advertised chord, then poll past whatever deadline is pending: exactly the action runs. */
  lemma TypingTheAcceleratorRunsIt(km: Keymap, action: ActionId, now: U64)
    requires km.chordTimeoutMs > 0 && BindingFor(km, action).Some?
    ensures var chord := BindingFor(km, action).value;
      var t := Run(Typed(km, chord), |chord|);
      || Decided(t, {action})
      || (t.progress.deadline.Some?
          && (now >= t.progress.deadline.value ==> Decided(Advance(t, Poll(GLOBAL_CONTEXT, km, now), |chord|), {action})))
  {
    hide Run, Advance, Decided, BindingFor, Typed;
    var chord := BindingFor(km, action).value;
    ChordCanBePressed(km, chord, |chord|);
    AcceleratorRuns(Typed(km, chord), km, action, |chord|, |chord|);
  }
}
