/**
 Whole runs of the resolver: key presses, timeout polls and cancellations in any
 order, with the focus context and the keymap free to change between any two of them.
 */
module ResolverRuns {
  import opened Seqs
  import opened Input
  import opened Keymap
  import opened Resolver
  import opened ResolverSteps

  datatype Event =
    | Press(input: RawInput, ctx: FocusContext, km: Keymap, now: U64)
    | Poll(ctx: FocusContext, km: Keymap, now: U64)
    | Cancel

  /** An emitted action, the events whose presses it consumed, and the event that emitted it. */
  datatype Emission = Emission(action: ActionId, presses: seq<nat>, at: nat)

  /** The resolver's state after some events, the presses its prefix holds, and what was emitted. */
  datatype Trace = Trace(progress: Progress, held: seq<nat>, emitted: seq<Emission>)

  function Consumed(via: Via, held: seq<nat>, at: nat): seq<nat> {
    match via
    case Held => held
    case HeldAndPress => held + [at]
    case PressOnly => [at]
  }

  function StillHeld(s: Stepped, held: seq<nat>, at: nat): seq<nat> {
    if s.next.sequence == [] then []
    else match s.keep
      case Same => held
      case Grown => held + [at]
      case Fresh => [at]
  }

  function Emissions(s: Stepped, held: seq<nat>, at: nat): (r: seq<Emission>)
    requires |s.via| == |s.resolved.actions|
    ensures |r| == |s.via|
    ensures forall i | 0 <= i < |r| :: r[i] == Emission(s.resolved.actions[i], Consumed(s.via[i], held, at), at)
  {
    seq(|s.via|, i requires 0 <= i < |s.via| => Emission(s.resolved.actions[i], Consumed(s.via[i], held, at), at))
  }

  function Record(t: Trace, s: Stepped, at: nat): Trace
    requires |s.via| == |s.resolved.actions|
  {
    Trace(s.next, StillHeld(s, t.held, at), t.emitted + Emissions(s, t.held, at))
  }

  function Advance(t: Trace, event: Event, at: nat): Trace {
    match event
    case Press(input, ctx, km, now) => Record(t, ResolveInput(input, ctx, km, t.progress, now), at)
    case Poll(ctx, km, now) => Record(t, ResolveTimeout(ctx, km, t.progress, now), at)
    case Cancel => Trace(IDLE, [], t.emitted)
  }

  /** The first `n` events, from idle. */
  function Run(events: seq<Event>, n: nat): Trace
    requires n <= |events|
  {
    if n == 0 then Trace(IDLE, [], []) else Advance(Run(events, n - 1), events[n - 1], n - 1)
  }

  // ---- What a run promises ----

  ghost predicate IsPress(events: seq<Event>, i: nat) {
    i < |events| && events[i].Press?
  }

  ghost predicate ArePresses(events: seq<Event>, presses: seq<nat>) {
    forall k | 0 <= k < |presses| :: IsPress(events, presses[k])
  }

  ghost predicate AnyRepeat(events: seq<Event>, presses: seq<nat>)
    requires ArePresses(events, presses)
  {
    exists k | 0 <= k < |presses| :: events[presses[k]].input.repeat
  }

  /** The `k`-th press was `b`'s `k`-th stroke, and `b` was a candidate when it was accepted. */
  ghost predicate MeantAt(events: seq<Event>, presses: seq<nat>, b: Binding, k: nat)
    requires ArePresses(events, presses)
    requires k < |presses|
  {
    var press := events[presses[k]];
    && k < |b.chord|
    && press.input.Stroke() == b.chord[k]
    && b in Candidates(b.chord[..k + 1], press.ctx, press.km, AnyRepeat(events, presses[..k + 1]))
  }

  /** `b` was effective, admitted and eligible at every one of these presses. */
  ghost predicate Meant(events: seq<Event>, presses: seq<nat>, b: Binding) {
    && ArePresses(events, presses)
    && forall k | 0 <= k < |presses| :: MeantAt(events, presses, b, k)
  }

  /** Each press came before the deadline that the press before it had set. */
  ghost predicate InTime(events: seq<Event>, presses: seq<nat>)
    requires ArePresses(events, presses)
  {
    forall k | 1 <= k < |presses| ::
      events[presses[k]].now < SaturatingAdd(events[presses[k - 1]].now, events[presses[k - 1]].km.chordTimeoutMs)
  }

  /** The emitted action belongs to a binding that was meant from its first press on, and
      that is the sole winner under the context and keymap of the event that emitted it. */
  ghost predicate Justified(events: seq<Event>, e: Emission) {
    && e.at < |events| && !events[e.at].Cancel?
    && e.presses != [] && e.presses[|e.presses| - 1] <= e.at
    && ArePresses(events, e.presses)
    && InTime(events, e.presses)
    && exists b: Binding ::
         && b.action == e.action && |b.chord| == |e.presses|
         && Meant(events, e.presses, b)
         && TopRanked(b, b.chord, events[e.at].ctx, events[e.at].km, AnyRepeat(events, e.presses))
         && Winners(b.chord, events[e.at].ctx, events[e.at].km, AnyRepeat(events, e.presses)) == {e.action}
  }

  /** Every consumed press, in emission order. */
  function AllPresses(emitted: seq<Emission>): seq<nat> {
    if emitted == [] then [] else AllPresses(emitted[..|emitted| - 1]) + emitted[|emitted| - 1].presses
  }

  // ---- The invariant ----

  ghost predicate HeldInvariant(events: seq<Event>, st: Progress, held: seq<nat>) {
    && |held| == |st.sequence|
    && ArePresses(events, held)
    && InTime(events, held)
    && (held != [] ==>
          var last := events[held[|held| - 1]];
          && st == Accepted(st.sequence, last.ctx, last.km, AnyRepeat(events, held), last.now)
          && forall b | b in st.stamp.value.candidates :: Meant(events, held, b))
  }

  ghost predicate Invariant(events: seq<Event>, n: nat, t: Trace) {
    && n <= |events|
    && WellFormed(t.progress)
    && HeldInvariant(events, t.progress, t.held)
    && (forall e | e in t.emitted :: Justified(events, e))
    && Ordered(AllPresses(t.emitted) + t.held, n)
  }

  lemma AnyRepeatExtends(events: seq<Event>, held: seq<nat>, at: nat)
    requires ArePresses(events, held) && IsPress(events, at)
    ensures AnyRepeat(events, held + [at]) == (AnyRepeat(events, held) || events[at].input.repeat)
  {
    if AnyRepeat(events, held) {
      var k :| 0 <= k < |held| && events[held[k]].input.repeat;
      assert (held + [at])[k] == held[k];
    }
    assert (held + [at])[|held|] == at;
  }

  lemma MeantExtends(events: seq<Event>, held: seq<nat>, at: nat, b: Binding)
    requires Meant(events, held, b) && IsPress(events, at)
    requires |held| < |b.chord| && events[at].input.Stroke() == b.chord[|held|]
    requires ArePresses(events, held + [at])
    requires b in Candidates(b.chord[..|held| + 1], events[at].ctx, events[at].km, AnyRepeat(events, held + [at]))
    ensures Meant(events, held + [at], b)
  {
    var presses := held + [at];
    forall k | 0 <= k < |presses| ensures MeantAt(events, presses, b, k) {
      if k < |held| {
        assert MeantAt(events, held, b, k);
        assert presses[..k + 1] == held[..k + 1];
      } else {
        assert presses[..k + 1] == presses;
      }
    }
  }

  /** Whatever the held strokes and this one may mean together was meant at every one of them. */
  lemma CandidatesWereMeant(events: seq<Event>, st: Progress, held: seq<nat>, at: nat)
    requires WellFormed(st) && HeldInvariant(events, st, held) && IsPress(events, at)
    requires Live(st, events[at].ctx, events[at].km)
    ensures var e := events[at];
      && AnyRepeat(events, held + [at]) == (e.input.repeat || st.stamp.value.repeated)
      && forall b | b in Candidates(st.sequence + [e.input.Stroke()], e.ctx, e.km, AnyRepeat(events, held + [at]))
           :: Meant(events, held + [at], b)
  {
    var e := events[at];
    AnyRepeatExtends(events, held, at);
    var repeated := AnyRepeat(events, held + [at]);
    var sequence := st.sequence + [e.input.Stroke()];
    CandidatesShrink(st.sequence, sequence, e.ctx, e.km, st.stamp.value.repeated, repeated);
    forall b | b in Candidates(sequence, e.ctx, e.km, repeated) ensures Meant(events, held + [at], b) {
      assert b in st.stamp.value.candidates;
      assert b.chord[..|held| + 1] == sequence;
      assert b.chord[|held|] == sequence[|held|];
      MeantExtends(events, held, at, b);
    }
  }

  lemma FirstPressMeant(events: seq<Event>, at: nat)
    requires IsPress(events, at)
    ensures var e := events[at];
      && AnyRepeat(events, [at]) == e.input.repeat
      && forall b | b in Candidates([e.input.Stroke()], e.ctx, e.km, e.input.repeat) :: Meant(events, [at], b)
  {
    var e := events[at];
    AnyRepeatExtends(events, [], at);
    assert [] + [at] == [at];
    forall b | b in Candidates([e.input.Stroke()], e.ctx, e.km, e.input.repeat) ensures Meant(events, [at], b) {
      assert b.chord[..1] == [e.input.Stroke()];
      assert b.chord[0] == [e.input.Stroke()][0];
      MeantExtends(events, [], at, b);
    }
  }

  lemma WinnerIsMeant(events: seq<Event>, presses: seq<nat>, at: nat, action: ActionId, chord: seq<KeyStroke>)
    requires presses != [] && |presses| == |chord| && presses[|presses| - 1] <= at < |events|
    requires !events[at].Cancel?
    requires ArePresses(events, presses)
    requires InTime(events, presses)
    requires forall b | b in Candidates(chord, events[at].ctx, events[at].km, AnyRepeat(events, presses)) :: Meant(events, presses, b)
    requires Winners(chord, events[at].ctx, events[at].km, AnyRepeat(events, presses)) == {action}
    ensures Justified(events, Emission(action, presses, at))
  {
    assert action in Winners(chord, events[at].ctx, events[at].km, AnyRepeat(events, presses));
    var b :| b in Candidates(chord, events[at].ctx, events[at].km, AnyRepeat(events, presses))
             && TopRanked(b, chord, events[at].ctx, events[at].km, AnyRepeat(events, presses)) && b.action == action;
    assert b.chord == chord;
  }

  lemma LiveHeldMeant(events: seq<Event>, st: Progress, held: seq<nat>, ctx: FocusContext, km: Keymap)
    requires WellFormed(st) && HeldInvariant(events, st, held) && Live(st, ctx, km)
    ensures held != [] && st.stamp.value.repeated == AnyRepeat(events, held)
    ensures forall b | b in Candidates(st.sequence, ctx, km, AnyRepeat(events, held)) :: Meant(events, held, b)
  {
  }

  lemma InTimeExtends(events: seq<Event>, st: Progress, held: seq<nat>, at: nat)
    requires HeldInvariant(events, st, held) && IsPress(events, at)
    requires held != [] && !Expired(st, events[at].now)
    ensures InTime(events, held + [at])
  {
    var presses := held + [at];
    forall k | 1 <= k < |presses|
      ensures events[presses[k]].now < SaturatingAdd(events[presses[k - 1]].now, events[presses[k - 1]].km.chordTimeoutMs)
    {
      assert k < |held| ==> presses[k] == held[k] && presses[k - 1] == held[k - 1];
    }
  }

  lemma LastHeld(t: Trace, n: nat)
    requires Ordered(AllPresses(t.emitted) + t.held, n) && t.held != []
    ensures t.held[|t.held| - 1] < n
  {
    var all := AllPresses(t.emitted) + t.held;
    assert all[|all| - 1] == t.held[|t.held| - 1];
  }

  /** A fired action was meant from its first press on. */
  lemma FiredIsJustified(events: seq<Event>, t: Trace, n: nat, via: Via, action: ActionId)
    requires Invariant(events, n, t) && IsPress(events, n)
    requires var e := events[n]; Fired(via, action, e.input, e.ctx, e.km, t.progress, e.now)
    ensures Justified(events, Emission(action, Consumed(via, t.held, n), n))
  {
    hide Candidates, Winners, Meant, Justified, WellFormed, StaleReason;
    var e := events[n];
    match via
    case Held =>
      LiveHeldMeant(events, t.progress, t.held, e.ctx, e.km);
      LastHeld(t, n);
      WinnerIsMeant(events, t.held, n, action, t.progress.sequence);
    case HeldAndPress =>
      LiveHeldMeant(events, t.progress, t.held, e.ctx, e.km);
      CandidatesWereMeant(events, t.progress, t.held, n);
      InTimeExtends(events, t.progress, t.held, n);
      WinnerIsMeant(events, t.held + [n], n, action, t.progress.sequence + [e.input.Stroke()]);
    case PressOnly =>
      FirstPressMeant(events, n);
      WinnerIsMeant(events, [n], n, action, [e.input.Stroke()]);
  }

  lemma AllPressesAppend(emitted: seq<Emission>, e: Emission)
    ensures AllPresses(emitted + [e]) == AllPresses(emitted) + e.presses
  {
    assert (emitted + [e])[..|emitted|] == emitted;
  }

  /** The held presses after a press step are again meant. */
  lemma PressKeepsHeld(events: seq<Event>, t: Trace, n: nat)
    requires Invariant(events, n, t) && IsPress(events, n)
    requires var e := events[n]; PressAccount(e.input, e.ctx, e.km, t.progress, e.now, ResolveInput(e.input, e.ctx, e.km, t.progress, e.now))
    ensures var e := events[n]; var s := ResolveInput(e.input, e.ctx, e.km, t.progress, e.now);
      HeldInvariant(events, s.next, StillHeld(s, t.held, n))
  {
    hide Candidates, Winners, Meant, ResolveInput, StaleReason, Fired;
    var e := events[n];
    var s := ResolveInput(e.input, e.ctx, e.km, t.progress, e.now);
    if s.next.sequence != [] {
      match s.keep
      case Same =>
      case Grown =>
        LiveHeldMeant(events, t.progress, t.held, e.ctx, e.km);
        CandidatesWereMeant(events, t.progress, t.held, n);
        InTimeExtends(events, t.progress, t.held, n);
      case Fresh =>
        FirstPressMeant(events, n);
    }
  }

  /** Press indices in order, all of them before event `n`. */
  ghost predicate Ordered(presses: seq<nat>, n: nat) {
    StrictlyIncreasing(presses) && forall k | 0 <= k < |presses| :: presses[k] < n
  }

  lemma OrderedParts(before: seq<nat>, held: seq<nat>, n: nat)
    requires Ordered(before + held, n)
    ensures Ordered(before, n + 1) && Ordered(before + held, n + 1)
    ensures Ordered(before + [n], n + 1) && Ordered(before + held + [n], n + 1)
  {
    assert forall k | 0 <= k < |before| :: before[k] == (before + held)[k];
  }

  /** Consumed and held presses stay in order, and none is used twice. */
  lemma PressKeepsOrder(t: Trace, n: nat, s: Stepped)
    requires Ordered(AllPresses(t.emitted) + t.held, n)
    requires |s.via| == |s.resolved.actions| && ViaShape(s.via)
    requires s.next.sequence != [] ==> s.via == [] || (s.keep == Fresh && s.via == [Held])
    ensures var t' := Record(t, s, n); Ordered(AllPresses(t'.emitted) + t'.held, n + 1)
  {
    hide Ordered;
    var t' := Record(t, s, n);
    var before, held := AllPresses(t.emitted), t.held;
    OrderedParts(before, held, n);
    EmittedPresses(t.emitted, s, held, n);
    var flat := AllPresses(t'.emitted) + t'.held;
    assert flat == before || flat == before + held || flat == before + [n] || flat == before + held + [n];
  }

  lemma EmittedPresses(emitted: seq<Emission>, s: Stepped, held: seq<nat>, n: nat)
    requires |s.via| == |s.resolved.actions| && ViaShape(s.via)
    ensures var before := AllPresses(emitted); var after := AllPresses(emitted + Emissions(s, held, n));
      after == if s.via == [] then before
               else if |s.via| == 1 then before + Consumed(s.via[0], held, n)
               else before + held + [n]
  {
    var new' := Emissions(s, held, n);
    if s.via == [] {
      assert emitted + new' == emitted;
    } else {
      AllPressesAppend(emitted, new'[0]);
      if |s.via| == 1 {
        assert emitted + new' == emitted + [new'[0]];
      } else {
        AllPressesAppend(emitted + [new'[0]], new'[1]);
        assert emitted + new' == emitted + [new'[0]] + [new'[1]];
      }
    }
  }

  /** Everything a press emits is justified. */
  lemma PressJustified(events: seq<Event>, t: Trace, n: nat, s: Stepped)
    requires Invariant(events, n, t) && IsPress(events, n) && |s.via| == |s.resolved.actions|
    requires var e := events[n];
      forall i | 0 <= i < |s.via| :: Fired(s.via[i], s.resolved.actions[i], e.input, e.ctx, e.km, t.progress, e.now)
    ensures forall e | e in Emissions(s, t.held, n) :: Justified(events, e)
  {
    hide Invariant, Justified, Fired, Consumed;
    var emitted := Emissions(s, t.held, n);
    forall i | 0 <= i < |emitted| ensures Justified(events, emitted[i]) {
      FiredIsJustified(events, t, n, s.via[i], s.resolved.actions[i]);
    }
  }

  lemma InvariantAfter(events: seq<Event>, n: nat, t: Trace, s: Stepped)
    requires Invariant(events, n, t) && n < |events| && |s.via| == |s.resolved.actions|
    requires WellFormed(s.next) && HeldInvariant(events, s.next, StillHeld(s, t.held, n))
    requires forall e | e in Emissions(s, t.held, n) :: Justified(events, e)
    requires var t' := Record(t, s, n); Ordered(AllPresses(t'.emitted) + t'.held, n + 1)
    ensures Invariant(events, n + 1, Record(t, s, n))
  {
    hide WellFormed, HeldInvariant, Justified, Ordered, AllPresses, StillHeld, Emissions;
  }

  lemma PressKeepsInvariant(events: seq<Event>, n: nat, t: Trace)
    requires Invariant(events, n, t) && IsPress(events, n)
    ensures Invariant(events, n + 1, Advance(t, events[n], n))
  {
    hide ResolveInput, StaleReason, Justified, HeldInvariant, Fired, Ordered, AllPresses, StillHeld, Emissions;
    var e := events[n];
    var s := ResolveInput(e.input, e.ctx, e.km, t.progress, e.now);
    PressStep(e.input, e.ctx, e.km, t.progress, e.now);
    PressKeepsHeld(events, t, n);
    PressKeepsOrder(t, n, s);
    PressJustified(events, t, n, s);
    hide Invariant, PressAccount;
    InvariantAfter(events, n, t, s);
  }

  /** A poll past the deadline fires what the held strokes mean. */
  lemma PollFires(events: seq<Event>, n: nat, t: Trace, action: ActionId)
    requires Invariant(events, n, t) && n < |events| && events[n].Poll? && Live(t.progress, events[n].ctx, events[n].km)
    requires Winners(t.progress.sequence, events[n].ctx, events[n].km, t.progress.stamp.value.repeated) == {action}
    ensures Justified(events, Emission(action, t.held, n))
  {
    hide Candidates, Winners, Meant, StaleReason, Justified, WellFormed, Ordered, AllPresses;
    LiveHeldMeant(events, t.progress, t.held, events[n].ctx, events[n].km);
    LastHeld(t, n);
    WinnerIsMeant(events, t.held, n, action, t.progress.sequence);
  }

  lemma PollJustified(events: seq<Event>, n: nat, t: Trace)
    requires Invariant(events, n, t) && n < |events| && events[n].Poll?
    ensures var s := ResolveTimeout(events[n].ctx, events[n].km, t.progress, events[n].now);
      forall e | e in Emissions(s, t.held, n) :: Justified(events, e)
  {
    hide ResolveTimeout, Justified, Winners, StaleReason, HeldInvariant, Ordered, AllPresses, WellFormed;
    var e := events[n];
    PollFired(e.ctx, e.km, t.progress, e.now);
    var s := ResolveTimeout(e.ctx, e.km, t.progress, e.now);
    if s.via != [] { PollFires(events, n, t, s.resolved.actions[0]); }
  }

  lemma PollKeepsHeld(events: seq<Event>, n: nat, t: Trace)
    requires Invariant(events, n, t) && n < |events| && events[n].Poll?
    ensures var s := ResolveTimeout(events[n].ctx, events[n].km, t.progress, events[n].now);
      && WellFormed(s.next) && HeldInvariant(events, s.next, StillHeld(s, t.held, n))
  {
    var e := events[n];
    PollStep(e.ctx, e.km, t.progress, e.now);
    hide ResolveTimeout, Winners, Verdict, StaleReason, Meant, Ordered, AllPresses;
  }

  lemma PollShape(events: seq<Event>, n: nat, t: Trace)
    requires Invariant(events, n, t) && n < |events| && events[n].Poll?
    ensures var s := ResolveTimeout(events[n].ctx, events[n].km, t.progress, events[n].now);
      |s.via| == |s.resolved.actions| && ViaShape(s.via) && (s.next.sequence != [] ==> s.via == [])
  {
    hide ResolveTimeout, Winners, StaleReason, HeldInvariant, Ordered, AllPresses, WellFormed, Justified;
    PollFired(events[n].ctx, events[n].km, t.progress, events[n].now);
  }

  lemma PollKeepsInvariant(events: seq<Event>, n: nat, t: Trace)
    requires Invariant(events, n, t) && n < |events| && events[n].Poll?
    ensures Invariant(events, n + 1, Advance(t, events[n], n))
  {
    hide ResolveTimeout, Justified, HeldInvariant, Ordered, AllPresses, StillHeld, Emissions, WellFormed, ViaShape;
    var s := ResolveTimeout(events[n].ctx, events[n].km, t.progress, events[n].now);
    PollJustified(events, n, t);
    PollKeepsHeld(events, n, t);
    PollShape(events, n, t);
    PressKeepsOrder(t, n, s);
    InvariantAfter(events, n, t, s);
  }

  lemma CancelKeepsInvariant(events: seq<Event>, n: nat, t: Trace)
    requires Invariant(events, n, t) && n < |events| && events[n].Cancel?
    ensures Invariant(events, n + 1, Advance(t, events[n], n))
  {
    OrderedParts(AllPresses(t.emitted), t.held, n);
    assert AllPresses(t.emitted) + [] == AllPresses(t.emitted);
  }

  lemma IdleInvariant(events: seq<Event>)
    ensures Invariant(events, 0, Trace(IDLE, [], []))
  {
  }

  lemma {:induction false} RunKeepsInvariant(events: seq<Event>, n: nat)
    requires n <= |events|
    ensures Invariant(events, n, Run(events, n))
  {
    hide Advance, Invariant;
    if n == 0 {
      IdleInvariant(events);
    } else {
      RunKeepsInvariant(events, n - 1);
      var t := Run(events, n - 1);
      match events[n - 1]
      case Press(_, _, _, _) => PressKeepsInvariant(events, n - 1, t);
      case Poll(_, _, _) => PollKeepsInvariant(events, n - 1, t);
      case Cancel => CancelKeepsInvariant(events, n - 1, t);
    }
  }

  // ---- The theorems ----

  /** No reinterpretation: in any run, under any changes of focus and keymap, every emitted action
      belongs to one binding that was a candidate at each of its presses, from the first on. */
  lemma NoReinterpretation(events: seq<Event>)
    ensures forall e | e in Run(events, |events|).emitted :: Justified(events, e)
  {
    RunKeepsInvariant(events, |events|);
  }

  /** Over any run, no press contributes to two actions, and actions follow press order. */
  lemma PressesAreUsedOnceInOrder(events: seq<Event>)
    ensures StrictlyIncreasing(AllPresses(Run(events, |events|).emitted))
  {
    hide Run, AllPresses, HeldInvariant, WellFormed, Justified;
    RunKeepsInvariant(events, |events|);
    var t := Run(events, |events|);
    var used := AllPresses(t.emitted);
    assert forall i | 0 <= i < |used| :: used[i] == (used + t.held)[i];
  }

  /** After any run the state is idle or a proper prefix of a candidate, within the chord bound. */
  lemma ReachableStatesAreWellFormed(events: seq<Event>)
    ensures var st := Run(events, |events|).progress;
      && WellFormed(st)
      && |st.sequence| < MAX_CHORD_STROKES
      && (st.sequence == [] <==> st == IDLE)
  {
    RunKeepsInvariant(events, |events|);
    PendingIsShort(Run(events, |events|).progress);
  }

  /** The run ends in a pending prefix whose last stroke event `accepting` supplied. */
  ghost predicate PendingSince(events: seq<Event>, accepting: Event, now: U64) {
    var t := Run(events, |events|);
    && t.progress.deadline.Some? && now < t.progress.deadline.value
    && t.held != [] && t.held[|t.held| - 1] < |events|
    && accepting == events[t.held[|t.held| - 1]] && accepting.Press?
  }

  /** Invalidation is exact: a poll before the deadline keeps a pending prefix, answering `Pending`
      again and changing nothing, iff the timeout is what it was when the last press was accepted and
      the candidates of then are also those of (old focus, new keymap) and (new focus, new keymap);
      otherwise the prefix is dropped without firing. */
  lemma PendingSurvivesExactly(events: seq<Event>, accepting: Event, ctx: FocusContext, km: Keymap, now: U64)
    requires PendingSince(events, accepting, now) && ctx.Valid()
    ensures var t := Run(events, |events|); var st := t.progress; var s := ResolveTimeout(ctx, km, st, now);
      && ArePresses(events, t.held)
      && var repeated := AnyRepeat(events, t.held);
         var stamped := Candidates(st.sequence, accepting.ctx, accepting.km, repeated);
         if && km.chordTimeoutMs == accepting.km.chordTimeoutMs
            && Candidates(st.sequence, accepting.ctx, km, repeated) == stamped
            && Candidates(st.sequence, ctx, km, repeated) == stamped
         then s == Stepped(st, Just(Pending(st.deadline.value)), [], Same)
         else s.next == IDLE && s.resolved.actions == []
              && |s.resolved.issues| == 1 && s.resolved.issues[0].PendingInvalidated?
  {
    hide Candidates, EvaluatePrefix, Winners, Justified, Meant;
    RunKeepsInvariant(events, |events|);
    PollStep(ctx, km, Run(events, |events|).progress, now);
  }

  /** Reordering bindings, or a focus change that admits the same bindings, never drops a prefix. */
  lemma IrrelevantChangesKeepPending(events: seq<Event>, accepting: Event, ctx: FocusContext, km: Keymap, now: U64)
    requires PendingSince(events, accepting, now) && ctx.Valid()
    requires km.chordTimeoutMs == accepting.km.chordTimeoutMs
    requires Elements(EffectiveBindings(km)) == Elements(EffectiveBindings(accepting.km))
    requires forall b | b in EffectiveBindings(km) :: AdmitsBinding(ctx, b) == AdmitsBinding(accepting.ctx, b)
    ensures var st := Run(events, |events|).progress;
      ResolveTimeout(ctx, km, st, now) == Stepped(st, Just(Pending(st.deadline.value)), [], Same)
  {
    PendingSurvivesExactly(events, accepting, ctx, km, now);
    var t := Run(events, |events|);
    var repeated := AnyRepeat(events, t.held);
    SameCandidates(t.progress.sequence, accepting.ctx, accepting.km, accepting.ctx, km, repeated);
    SameCandidates(t.progress.sequence, accepting.ctx, accepting.km, ctx, km, repeated);
  }

  predicate AdmitsBinding(ctx: FocusContext, b: Binding) {
    ctx.Admits(b.scope) && (!ctx.focusedEditable || b.allowInEditable)
  }

  lemma SameCandidates(prefix: seq<KeyStroke>, ctx: FocusContext, km: Keymap, ctx': FocusContext, km': Keymap, repeated: bool)
    requires Elements(EffectiveBindings(km')) == Elements(EffectiveBindings(km))
    requires forall b | b in EffectiveBindings(km') :: AdmitsBinding(ctx', b) == AdmitsBinding(ctx, b)
    ensures Candidates(prefix, ctx, km, repeated) == Candidates(prefix, ctx', km', repeated)
  {
    forall b: Binding ensures b in EffectiveBindings(km) <==> b in EffectiveBindings(km') {
      assert b in Elements(EffectiveBindings(km)) <==> b in Elements(EffectiveBindings(km'));
    }
  }
}
