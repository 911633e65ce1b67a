/** The accelerator hint a menu shows, as text: what it says can be typed, and does what it says. */
module AcceleratorHints {
  import opened Seqs
  import opened Input
  import opened Keymap
  import opened ResolverRuns
  import opened Accelerators
  import InputText
  import RoundTrips

  /** `binding_for` */
  function HintFor(km: Keymap, action: ActionId): Option<string> {
    match BindingFor(km, action)
    case None => None
    case Some(chord) => Some(InputText.PrintChord(chord))
  }

  /** Parse the hint and press it from idle, in the global context and before each deadline: nothing is emitted on the
      way, and the last stroke emits exactly the action, at once or at the next poll past the deadline. */
  lemma HintRuns(km: Keymap, action: ActionId, events: seq<Event>, n: nat, k: nat)
    requires HintFor(km, action).Some?
    ensures var parsed := InputText.ParseChord(HintFor(km, action).value);
      && parsed.Ok? && ValidChord(parsed.value)
      && (Plays(events, km, parsed.value, n, k) ==>
          && (k < |parsed.value| ==> Run(events, n).emitted == [])
          && (k == |parsed.value| && n > 0 && !Harmless(events[n - 1], km) ==>
              var t := Run(events, n);
              || Decided(t, {action})
              || (t.emitted == [] && t.progress.deadline.Some?
                  && forall now: U64 | now >= t.progress.deadline.value ::
                       Decided(Advance(t, Poll(GLOBAL_CONTEXT, km, now), n), {action}))))
  {
    hide InputText.ParseChord, InputText.PrintChord, BindingFor, Advance, Run, Decided;
    var chord := BindingFor(km, action).value;
    RoundTrips.ChordRoundTrip(chord);
    if Plays(events, km, chord, n, k) { AcceleratorRuns(events, km, action, n, k); }
  }
}
