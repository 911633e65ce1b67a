/**
 Layered keymaps: app defaults under user overrides, and the reference notion of
 which bindings a chord prefix may still mean in a focus context.
 */
module Keymap {
  import opened Seqs
  import opened Input

  type ActionId = nat

  datatype DefaultBinding = DefaultBinding(
    action: ActionId, chord: Chord, scope: BindingScope, repeat: RepeatPolicy, allowInEditable: bool)

  datatype BindingOverride = BindingOverride(
    action: ActionId, chord: Option<Chord>, scope: BindingScope, repeat: RepeatPolicy, allowInEditable: bool)

  datatype Layer = Default | Custom
  {
    function Rank(): nat { if Default? then 0 else 1 }
  }

  /** A binding that the resolver consults, with the layer it came from. */
  datatype Binding = Binding(
    action: ActionId,
    chord: Chord,
    scope: BindingScope,
    repeat: RepeatPolicy,
    allowInEditable: bool,
    layer: Layer)

  datatype Keymap = Keymap(
    chordTimeoutMs: U64,
    defaults: seq<DefaultBinding>,
    custom: seq<BindingOverride>)

  predicate Replaced(km: Keymap, action: ActionId, scope: BindingScope) {
    exists i | 0 <= i < |km.custom| :: km.custom[i].action == action && km.custom[i].scope == scope
  }

  function KeptDefaults(km: Keymap, defaults: seq<DefaultBinding>): seq<Binding> {
    if defaults == [] then []
    else
      var d := defaults[0];
      (if Replaced(km, d.action, d.scope) then []
       else [Binding(d.action, d.chord, d.scope, d.repeat, d.allowInEditable, Default)])
      + KeptDefaults(km, defaults[1..])
  }

  function BoundOverrides(custom: seq<BindingOverride>): seq<Binding> {
    if custom == [] then []
    else
      var o := custom[0];
      (if o.chord.None? then []
       else [Binding(o.action, o.chord.value, o.scope, o.repeat, o.allowInEditable, Custom)])
      + BoundOverrides(custom[1..])
  }

  /** `collect_effective_bindings`: unreplaced defaults, then bound overrides. */
  function EffectiveBindings(km: Keymap): seq<Binding> {
    KeptDefaults(km, km.defaults) + BoundOverrides(km.custom)
  }

  lemma {:induction false} KeptDefaultsMembers(km: Keymap, defaults: seq<DefaultBinding>, b: Binding)
    ensures b in KeptDefaults(km, defaults) <==>
            b.layer == Default && !Replaced(km, b.action, b.scope)
            && DefaultBinding(b.action, b.chord, b.scope, b.repeat, b.allowInEditable) in defaults
  {
    if defaults != [] {
      KeptDefaultsMembers(km, defaults[1..], b);
      assert defaults == [defaults[0]] + defaults[1..];
    }
  }

  lemma {:induction false} BoundOverridesMembers(custom: seq<BindingOverride>, b: Binding)
    ensures b in BoundOverrides(custom) <==>
            b.layer == Custom
            && BindingOverride(b.action, Some(b.chord), b.scope, b.repeat, b.allowInEditable) in custom
  {
    if custom != [] {
      BoundOverridesMembers(custom[1..], b);
      assert custom == [custom[0]] + custom[1..];
    }
  }

  /** Layering: a default is live iff no override, not even an unbinding one, names its (action, scope). */
  lemma EffectiveMembers(km: Keymap, b: Binding)
    ensures b in EffectiveBindings(km) <==>
            if b.layer == Custom then
              BindingOverride(b.action, Some(b.chord), b.scope, b.repeat, b.allowInEditable) in km.custom
            else
              DefaultBinding(b.action, b.chord, b.scope, b.repeat, b.allowInEditable) in km.defaults
              && !Replaced(km, b.action, b.scope)
  {
    KeptDefaultsMembers(km, km.defaults, b);
    BoundOverridesMembers(km.custom, b);
  }

  /** `binding_eligible` */
  predicate BindingEligible(b: Binding, repeated: bool, editable: bool) {
    (!repeated || b.repeat == Allow) && (!editable || b.allowInEditable)
  }

  /** `b` may still be meant by `prefix` in this context. */
  predicate Eligible(b: Binding, prefix: seq<KeyStroke>, ctx: FocusContext, repeated: bool) {
    && prefix <= b.chord
    && ctx.Admits(b.scope)
    && BindingEligible(b, repeated, ctx.focusedEditable)
  }

  /** Everything `prefix` may still mean: the reference notion behind the pending stamp. */
  function Candidates(prefix: seq<KeyStroke>, ctx: FocusContext, km: Keymap, repeated: bool): set<Binding> {
    set b | b in EffectiveBindings(km) && Eligible(b, prefix, ctx, repeated)
  }

  /** Scope first, then layer. */
  predicate Outranks(a: Binding, b: Binding) {
    a.scope.Rank() > b.scope.Rank()
    || (a.scope.Rank() == b.scope.Rank() && a.layer.Rank() > b.layer.Rank())
  }

  /** `b` completes `chord` and no other completing candidate outranks it. */
  ghost predicate TopRanked(b: Binding, chord: seq<KeyStroke>, ctx: FocusContext, km: Keymap, repeated: bool) {
    && b in Candidates(chord, ctx, km, repeated)
    && b.chord == chord
    && forall other | other in Candidates(chord, ctx, km, repeated) && other.chord == chord :: !Outranks(other, b)
  }

  /** The actions named by the top-ranked bindings that complete `chord`. */
  ghost function Winners(chord: seq<KeyStroke>, ctx: FocusContext, km: Keymap, repeated: bool): set<ActionId> {
    set b | b in Candidates(chord, ctx, km, repeated) && TopRanked(b, chord, ctx, km, repeated) :: b.action
  }

  lemma IsCandidate(b: Binding, prefix: seq<KeyStroke>, ctx: FocusContext, km: Keymap, repeated: bool)
    ensures b in Candidates(prefix, ctx, km, repeated) <==> b in EffectiveBindings(km) && Eligible(b, prefix, ctx, repeated)
  {
  }

  /** A longer prefix, or a prefix with a repeated press in it, means no more than the shorter one did. */
  lemma CandidatesShrink(prefix: seq<KeyStroke>, longer: seq<KeyStroke>, ctx: FocusContext, km: Keymap, was: bool, now: bool)
    requires prefix <= longer && (was ==> now)
    ensures Candidates(longer, ctx, km, now) <= Candidates(prefix, ctx, km, was)
  {
    forall b | b in Candidates(longer, ctx, km, now) ensures b in Candidates(prefix, ctx, km, was) {
      assert prefix <= b.chord;
    }
  }
}
