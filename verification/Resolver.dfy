/**
 The chord resolver: one key press or one timeout poll against the current focus
 context and the current keymap. `ResolveInput` and `ResolveTimeout` are the value-level
 specification; class `ResolveState` is the mutable adapter state proved against it.
 */
module Resolver {
  import opened Seqs
  import opened Input
  import opened Keymap

  datatype SuppressionReason = EditableFocus | ModalCapture(modal: string) | InvalidFocusContext

  datatype Disposition =
    | Complete
    | Pending(deadline: U64)
    | NoMatch
    | Suppressed(reason: SuppressionReason)
    | IgnoredRelease
    | IgnoredRepeat

  datatype PendingInvalidation = FocusContextChanged | KeymapChanged

  datatype Issue =
    | BindingConflict(chord: Chord, actions: seq<ActionId>)
    | InvalidInput(key: Key)
    | PendingInvalidated(why: PendingInvalidation)

  datatype Resolved = Resolved(actions: seq<ActionId>, outcome: Disposition, issues: seq<Issue>)
  {
    function AfterPrior(prior: Resolved): Resolved {
      Resolved(prior.actions + actions, outcome, prior.issues + issues)
    }
  }

  function Just(outcome: Disposition): Resolved { Resolved([], outcome, []) }

  /** The candidates a pending prefix stood for when it was accepted. The sorted,
      deduplicated vector of the source is only ever compared for equality, so it is a set here. */
  datatype PendingStamp = PendingStamp(
    context: FocusContext, repeated: bool, timeoutMs: U64, candidates: set<Binding>)

  datatype Progress = Progress(
    sequence: seq<KeyStroke>, deadline: Option<U64>, stamp: Option<PendingStamp>)

  const IDLE := Progress([], None, None)

  // ---- What a prefix means ----

  datatype Evaluation = Bindings(found: seq<Binding>) | Empty(outcome: Disposition)

  function NotCaptured(ctx: FocusContext): Disposition {
    if ctx.modalScope.Some? then Suppressed(ModalCapture(ctx.modalScope.value)) else NoMatch
  }

  /** The bindings that match the prefix and whose scope the context admits. */
  function Admitted(prefix: seq<KeyStroke>, ctx: FocusContext, km: Keymap): (r: seq<Binding>)
    ensures forall b | b in r :: b in EffectiveBindings(km) && prefix <= b.chord && ctx.Admits(b.scope)
    ensures forall b: Binding | b in EffectiveBindings(km) && prefix <= b.chord && ctx.Admits(b.scope) :: b in r
  {
    Filter((b: Binding) => ctx.Admits(b.scope),
           Filter((b: Binding) => prefix <= b.chord, EffectiveBindings(km)))
  }

  function FocusEligible(ctx: FocusContext, admitted: seq<Binding>): (r: seq<Binding>)
    ensures forall b | b in r :: b in admitted && (!ctx.focusedEditable || b.allowInEditable)
    ensures forall b | b in admitted && (!ctx.focusedEditable || b.allowInEditable) :: b in r
  {
    Filter((b: Binding) => !ctx.focusedEditable || b.allowInEditable, admitted)
  }

  function RepeatEligible(repeated: bool, bindings: seq<Binding>): (r: seq<Binding>)
    ensures forall b | b in r :: b in bindings && (!repeated || b.repeat == Allow)
    ensures forall b | b in bindings && (!repeated || b.repeat == Allow) :: b in r
  {
    Filter((b: Binding) => !repeated || b.repeat == Allow, bindings)
  }

  /** The filters together are the reference notion of a candidate. */
  lemma FiltersAreCandidates(prefix: seq<KeyStroke>, ctx: FocusContext, km: Keymap, repeated: bool)
    ensures Elements(RepeatEligible(repeated, FocusEligible(ctx, Admitted(prefix, ctx, km))))
            == Candidates(prefix, ctx, km, repeated)
  {
  }

  /** `evaluate_prefix`: successive filters, each with its own reason for being empty. */
  function EvaluatePrefix(prefix: seq<KeyStroke>, ctx: FocusContext, km: Keymap, repeated: bool): (r: Evaluation)
    ensures r.Bindings? ==> r.found != [] && Elements(r.found) == Candidates(prefix, ctx, km, repeated)
    ensures r.Bindings? ==> forall b | b in r.found :: prefix <= b.chord
    ensures r.Empty? ==> Candidates(prefix, ctx, km, repeated) == {}
    ensures r == Empty(IgnoredRepeat) ==> repeated
  {
    FiltersAreCandidates(prefix, ctx, km, repeated);
    var admitted := Admitted(prefix, ctx, km);
    if admitted == [] then Empty(NotCaptured(ctx))
    else
      var focusEligible := FocusEligible(ctx, admitted);
      if focusEligible == [] then Empty(Suppressed(EditableFocus))
      else
        var repeatEligible := RepeatEligible(repeated, focusEligible);
        assert !repeated ==> focusEligible[0] in repeatEligible;
        if repeatEligible == [] then Empty(IgnoredRepeat) else Bindings(repeatEligible)
  }

  function ExactBindings(found: seq<Binding>, length: nat): (r: seq<Binding>)
    ensures forall b | b in r :: b in found && |b.chord| == length
    ensures forall b | b in found && |b.chord| == length :: b in r
  {
    Filter((b: Binding) => |b.chord| == length, found)
  }

  predicate HasLonger(found: seq<Binding>, length: nat) {
    exists i | 0 <= i < |found| :: |found[i].chord| > length
  }

  // ---- Completing a chord ----

  /** The bindings of maximal rank under `rank`. */
  function Highest(rank: Binding -> nat, bindings: seq<Binding>): (r: seq<Binding>)
    requires bindings != []
    ensures r != []
    ensures forall b | b in r :: b in bindings && forall other | other in bindings :: rank(other) <= rank(b)
    ensures forall b | b in bindings && (forall other | other in bindings :: rank(other) <= rank(b)) :: b in r
  {
    var ranks := seq(|bindings|, i requires 0 <= i < |bindings| => rank(bindings[i]));
    var maximum := Maximum(ranks);
    assert forall b | b in bindings :: rank(b) <= maximum by {
      forall b | b in bindings ensures rank(b) <= maximum {
        var i :| 0 <= i < |bindings| && bindings[i] == b;
        assert ranks[i] in ranks;
      }
    }
    assert exists b :: b in bindings && rank(b) == maximum by {
      var i :| 0 <= i < |bindings| && ranks[i] == maximum;
      assert bindings[i] in bindings;
    }
    Filter((b: Binding) => rank(b) == maximum, bindings)
  }

  function Actions(bindings: seq<Binding>): (r: seq<ActionId>)
    ensures forall a | a in r :: exists b :: b in bindings && b.action == a
    ensures forall b | b in bindings :: b.action in r
  {
    var r := seq(|bindings|, i requires 0 <= i < |bindings| => bindings[i].action);
    assert forall i | 0 <= i < |bindings| :: r[i] == bindings[i].action;
    r
  }

  function TopScope(bindings: seq<Binding>): (r: seq<Binding>)
    requires bindings != []
    ensures r != []
    ensures forall b | b in r :: b in bindings && forall other | other in bindings :: other.scope.Rank() <= b.scope.Rank()
    ensures forall b | b in bindings && (forall other | other in bindings :: other.scope.Rank() <= b.scope.Rank()) :: b in r
  {
    Highest((b: Binding) => b.scope.Rank(), bindings)
  }

  function TopLayer(bindings: seq<Binding>): (r: seq<Binding>)
    requires bindings != []
    ensures r != []
    ensures forall b | b in r :: b in bindings && forall other | other in bindings :: other.layer.Rank() <= b.layer.Rank()
    ensures forall b | b in bindings && (forall other | other in bindings :: other.layer.Rank() <= b.layer.Rank()) :: b in r
  {
    Highest((b: Binding) => b.layer.Rank(), bindings)
  }

  /** By scope and then by layer, what is left is what nothing outranks. */
  lemma ScopeThenLayer(bindings: seq<Binding>, b: Binding)
    requires bindings != [] && b in bindings
    ensures b in TopLayer(TopScope(bindings)) <==> forall other | other in bindings :: !Outranks(other, b)
  {
    hide TopScope, TopLayer;
    var inScope := TopScope(bindings);
    assert inScope[0] in inScope;
    if forall other | other in bindings :: !Outranks(other, b) {
      assert !Outranks(inScope[0], b);
      assert b in inScope;
    }
  }

  /** The bindings of maximal scope rank and, among those, of maximal layer rank. */
  function TopBindings(bindings: seq<Binding>): (r: seq<Binding>)
    requires bindings != []
    ensures r != []
    ensures forall b | b in r :: b in bindings && forall other | other in bindings :: !Outranks(other, b)
    ensures forall b | b in bindings && (forall other | other in bindings :: !Outranks(other, b)) :: b in r
  {
    assert forall b | b in bindings ::
        b in TopLayer(TopScope(bindings)) <==> forall other | other in bindings :: !Outranks(other, b) by {
      forall b | b in bindings
        ensures b in TopLayer(TopScope(bindings)) <==> forall other | other in bindings :: !Outranks(other, b)
      {
        ScopeThenLayer(bindings, b);
      }
    }
    TopLayer(TopScope(bindings))
  }

  /** `complete_exact` */
  function CompleteExact(bindings: seq<Binding>, sequence: seq<KeyStroke>): Resolved
    requires forall b | b in bindings :: b.chord == sequence
  {
    if bindings == [] then Just(NoMatch)
    else
      var actions := SortUnique(Actions(TopBindings(bindings)));
      if |actions| == 1 then Resolved(actions, Complete, [])
      else if actions == [] then Just(NoMatch)
      else
        assert sequence == bindings[0].chord;
        Resolved([], NoMatch, [BindingConflict(sequence, actions)])
  }

  /** The completing candidates of `sequence`, resolved. */
  function CompleteCandidates(sequence: seq<KeyStroke>, found: seq<Binding>): Resolved
    requires forall b | b in found :: sequence <= b.chord
  {
    assert forall b: Binding | b in found && |b.chord| == |sequence| :: b.chord == sequence;
    CompleteExact(ExactBindings(found, |sequence|), sequence)
  }

  /** `complete_fallback` */
  function CompleteFallback(sequence: seq<KeyStroke>, ctx: FocusContext, km: Keymap, repeated: bool): Resolved {
    if sequence == [] then Just(NoMatch)
    else match EvaluatePrefix(sequence, ctx, km, repeated)
      case Empty(outcome) => Just(outcome)
      case Bindings(found) => CompleteCandidates(sequence, found)
  }

  // ---- Stale prefixes ----

  /** `invalidate_stale_pending`: the issue to report, if the prefix must be dropped. */
  function StaleReason(ctx: FocusContext, km: Keymap, st: Progress): Option<PendingInvalidation> {
    if st.stamp.None? then None
    else
      var stamp := st.stamp.value;
      var underOldContext := Candidates(st.sequence, stamp.context, km, stamp.repeated);
      if stamp.timeoutMs != km.chordTimeoutMs || stamp.candidates != underOldContext then Some(KeymapChanged)
      else if underOldContext != Candidates(st.sequence, ctx, km, stamp.repeated) then Some(FocusContextChanged)
      else None
  }

  function Invalidated(why: PendingInvalidation): Resolved {
    Resolved([], NoMatch, [PendingInvalidated(why)])
  }

  predicate PriorRepeat(st: Progress) {
    st.stamp.Some? && st.stamp.value.repeated
  }

  // ---- One step ----

  /** Which presses an emitted action consumed. */
  datatype Via = Held | HeldAndPress | PressOnly

  /** Whether the presses still held are the old ones, the old ones and this one, or this one alone. */
  datatype Keep = Same | Grown | Fresh

  /** The next state and the answer, with an account of the presses that the answer consumed. */
  datatype Stepped = Stepped(next: Progress, resolved: Resolved, via: seq<Via>, keep: Keep)

  function ViaEach(resolved: Resolved, via: Via): (r: seq<Via>)
    ensures |r| == |resolved.actions| && forall v | v in r :: v == via
  {
    seq(|resolved.actions|, _ => via)
  }

  /** `resolve_timeout` */
  function ResolveTimeout(ctx: FocusContext, km: Keymap, st: Progress, now: U64): (s: Stepped)
    ensures |s.via| == |s.resolved.actions|
  {
    if st.deadline.None? then Stepped(st, Just(NoMatch), [], Same)
    else if !ctx.Valid() then Stepped(IDLE, Just(Suppressed(InvalidFocusContext)), [], Same)
    else match StaleReason(ctx, km, st)
      case Some(why) => Stepped(IDLE, Invalidated(why), [], Same)
      case None =>
        match EvaluatePrefix(st.sequence, ctx, km, PriorRepeat(st))
        case Empty(outcome) => Stepped(IDLE, Just(outcome), [], Same)
        case Bindings(found) =>
          if now < st.deadline.value && HasLonger(found, |st.sequence|) then
            Stepped(st, Just(Pending(st.deadline.value)), [], Same)
          else
            var resolved := CompleteCandidates(st.sequence, found);
            Stepped(IDLE, resolved, ViaEach(resolved, Held), Same)
  }

  /** `resolve_stroke` */
  function ResolveStroke(
    input: RawInput, ctx: FocusContext, km: Keymap, st: Progress, now: U64, mayReprocess: bool): (s: Stepped)
    ensures |s.via| == |s.resolved.actions|
    decreases mayReprocess
  {
    var repeated := input.repeat || PriorRepeat(st);
    var sequence := st.sequence + [input.Stroke()];
    match EvaluatePrefix(sequence, ctx, km, repeated)
    case Empty(outcome) =>
      if outcome == IgnoredRepeat then Stepped(st, Just(IgnoredRepeat), [], Same)
      else
        var fallback := CompleteFallback(st.sequence, ctx, km, PriorRepeat(st));
        var via := ViaEach(fallback, Held);
        if mayReprocess then
          var retried := ResolveStroke(input, ctx, km, IDLE, now, false);
          Stepped(retried.next, retried.resolved.AfterPrior(fallback), via + retried.via, retried.keep)
        else if fallback.actions == [] && fallback.issues == [] then
          Stepped(IDLE, Just(outcome), [], Same)
        else Stepped(IDLE, fallback, via, Same)
    case Bindings(found) =>
      if HasLonger(found, |sequence|) then
        var deadline := SaturatingAdd(now, km.chordTimeoutMs);
        var stamp := PendingStamp(ctx, repeated, km.chordTimeoutMs, Elements(found));
        Stepped(Progress(sequence, Some(deadline), Some(stamp)), Just(Pending(deadline)), [],
                if st.sequence == [] then Fresh else Grown)
      else
        var resolved := CompleteCandidates(sequence, found);
        Stepped(IDLE, resolved, ViaEach(resolved, if st.sequence == [] then PressOnly else HeldAndPress), Same)
  }

  predicate Expired(st: Progress, now: U64) {
    st.deadline.Some? && now >= st.deadline.value
  }

  predicate RepeatsLast(input: RawInput, st: Progress) {
    input.repeat && st.sequence != [] && st.sequence[|st.sequence| - 1] == input.Stroke()
  }

  /** The part of `resolve` after staleness has been settled. */
  function ResolveSettled(input: RawInput, ctx: FocusContext, km: Keymap, st: Progress, now: U64): (s: Stepped)
    ensures |s.via| == |s.resolved.actions|
  {
    var expired := if Expired(st, now) then ResolveTimeout(ctx, km, st, now)
                   else Stepped(st, Just(NoMatch), [], Same);
    var current := if RepeatsLast(input, expired.next) then Stepped(expired.next, Just(IgnoredRepeat), [], Same)
                   else ResolveStroke(input, ctx, km, expired.next, now, true);
    Stepped(current.next, current.resolved.AfterPrior(expired.resolved), expired.via + current.via, current.keep)
  }

  /** `resolve` */
  function ResolveInput(input: RawInput, ctx: FocusContext, km: Keymap, st: Progress, now: U64): (s: Stepped)
    ensures |s.via| == |s.resolved.actions|
  {
    if !input.pressed then Stepped(st, Just(IgnoredRelease), [], Same)
    else if !ValidKey(input.key) then Stepped(IDLE, Resolved([], NoMatch, [InvalidInput(input.key)]), [], Same)
    else if !ctx.Valid() then Stepped(IDLE, Just(Suppressed(InvalidFocusContext)), [], Same)
    else match StaleReason(ctx, km, st)
      case None => ResolveSettled(input, ctx, km, st, now)
      case Some(why) =>
        var settled := ResolveSettled(input, ctx, km, IDLE, now);
        Stepped(settled.next, settled.resolved.AfterPrior(Invalidated(why)), settled.via, settled.keep)
  }

  // ---- The mutable state ----

  class ResolveState {
    var sequence: seq<KeyStroke>
    var deadline: Option<U64>
    var stamp: Option<PendingStamp>

    ghost function Value(): Progress
      reads this
    {
      Progress(sequence, deadline, stamp)
    }

    constructor ()
      ensures Value() == IDLE
    {
      sequence, deadline, stamp := [], None, None;
    }

    method Cancel()
      modifies this
      ensures Value() == IDLE
    {
      sequence := [];
      deadline := None;
      stamp := None;
    }

    method InvalidateStalePending(ctx: FocusContext, km: Keymap) returns (r: Option<Resolved>)
      modifies this
      ensures r == match old(StaleReason(ctx, km, Value()))
                   case None => None
                   case Some(why) => Some(Invalidated(why))
      ensures Value() == if r.Some? then IDLE else old(Value())
    {
      if stamp.None? { return None; }
      var pending := stamp.value;
      var underOldContext := Candidates(sequence, pending.context, km, pending.repeated);
      var why;
      if pending.timeoutMs != km.chordTimeoutMs || pending.candidates != underOldContext {
        why := KeymapChanged;
      } else {
        var underNewContext := Candidates(sequence, ctx, km, pending.repeated);
        if underOldContext == underNewContext { return None; }
        why := FocusContextChanged;
      }
      Cancel();
      r := Some(Invalidated(why));
    }

    method Timeout(ctx: FocusContext, km: Keymap, now: U64) returns (r: Resolved)
      modifies this
      ensures var s := old(ResolveTimeout(ctx, km, Value(), now)); Value() == s.next && r == s.resolved
    {
      if deadline.None? { return Just(NoMatch); }
      if !ctx.Valid() {
        Cancel();
        return Just(Suppressed(InvalidFocusContext));
      }
      var invalidated := InvalidateStalePending(ctx, km);
      if invalidated.Some? { return invalidated.value; }
      var repeated := stamp.Some? && stamp.value.repeated;
      var evaluation := EvaluatePrefix(sequence, ctx, km, repeated);
      if evaluation.Empty? {
        Cancel();
        return Just(evaluation.outcome);
      }
      if now < deadline.value && HasLonger(evaluation.found, |sequence|) {
        return Just(Pending(deadline.value));
      }
      r := CompleteCandidates(sequence, evaluation.found);
      Cancel();
    }

    method Stroke(input: RawInput, ctx: FocusContext, km: Keymap, now: U64, mayReprocess: bool) returns (r: Resolved)
      modifies this
      ensures var s := old(ResolveStroke(input, ctx, km, Value(), now, mayReprocess));
              Value() == s.next && r == s.resolved
      decreases mayReprocess
    {
      hide EvaluatePrefix, CompleteCandidates, CompleteFallback, HasLonger;
      var previous := sequence;
      var priorRepeat := stamp.Some? && stamp.value.repeated;
      sequence := sequence + [input.Stroke()];
      var evaluation := EvaluatePrefix(sequence, ctx, km, input.repeat || priorRepeat);
      if evaluation.Empty? {
        if evaluation.outcome == IgnoredRepeat {
          sequence := previous;
          return Just(IgnoredRepeat);
        }
        var fallback := CompleteFallback(previous, ctx, km, priorRepeat);
        Cancel();
        if mayReprocess {
          var retried := Stroke(input, ctx, km, now, false);
          return retried.AfterPrior(fallback);
        }
        if fallback.actions == [] && fallback.issues == [] {
          fallback := fallback.(outcome := evaluation.outcome);
        }
        return fallback;
      }
      if HasLonger(evaluation.found, |sequence|) {
        deadline := Some(SaturatingAdd(now, km.chordTimeoutMs));
        stamp := Some(PendingStamp(ctx, input.repeat || priorRepeat, km.chordTimeoutMs, Elements(evaluation.found)));
        return Just(Pending(deadline.value));
      }
      r := CompleteCandidates(sequence, evaluation.found);
      Cancel();
    }

    /** The part of `resolve` after staleness has been settled. */
    method Settled(input: RawInput, ctx: FocusContext, km: Keymap, now: U64) returns (r: Resolved)
      modifies this
      ensures var s := old(ResolveSettled(input, ctx, km, Value(), now)); Value() == s.next && r == s.resolved
    {
      hide ResolveStroke, ResolveTimeout;
      var expired := Just(NoMatch);
      if deadline.Some? && now >= deadline.value {
        expired := Timeout(ctx, km, now);
      }
      if input.repeat && sequence != [] && sequence[|sequence| - 1] == input.Stroke() {
        r := Just(IgnoredRepeat);
      } else {
        r := Stroke(input, ctx, km, now, true);
      }
      r := r.AfterPrior(expired);
    }

    method Resolve(input: RawInput, ctx: FocusContext, km: Keymap, now: U64) returns (r: Resolved)
      modifies this
      ensures var s := old(ResolveInput(input, ctx, km, Value(), now)); Value() == s.next && r == s.resolved
    {
      if !input.pressed { return Just(IgnoredRelease); }
      if !ValidKey(input.key) {
        Cancel();
        return Resolved([], NoMatch, [InvalidInput(input.key)]);
      }
      if !ctx.Valid() {
        Cancel();
        return Just(Suppressed(InvalidFocusContext));
      }
      var prior := InvalidateStalePending(ctx, km);
      r := Settled(input, ctx, km, now);
      if prior.Some? { r := r.AfterPrior(prior.value); }
    }
  }
}
