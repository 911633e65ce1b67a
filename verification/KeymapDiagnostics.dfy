/**
 `Keymap::diagnostics`: a static analysis of one keymap, and what it says about every
 focus context the resolver may meet.
 */
module KeymapDiagnostics {
  import opened Seqs
  import opened Input
  import opened Keymap
  import opened KeymapOrder
  import opened Resolver
  import opened ResolverSteps

  datatype KeymapDiagnostic =
    | DefaultReplaced(action: ActionId, scope: BindingScope, unbound: bool)
    | Shadowed(chord: Chord, scope: BindingScope, shadowed: ActionId, winners: seq<ActionId>)
    | Conflict(chord: Chord, scope: BindingScope, layer: Layer, actions: seq<ActionId>)

  // ---- One exact group ----

  /** The effective bindings of exactly this chord and scope. */
  function Group(bindings: seq<Binding>, chord: Chord, scope: BindingScope): (r: seq<Binding>)
    ensures forall b | b in r :: b in bindings && b.chord == chord && b.scope == scope
    ensures forall b | b in bindings && b.chord == chord && b.scope == scope :: b in r
  {
    Filter((b: Binding) => b.chord == chord && b.scope == scope, bindings)
  }

  function LowerLayer(group: seq<Binding>): (r: seq<Binding>)
    requires group != []
    ensures forall b | b in r :: b in group && b !in TopLayer(group)
    ensures forall b | b in group && b !in TopLayer(group) :: b in r
  {
    Filter((b: Binding) => b.layer.Rank() < TopLayer(group)[0].layer.Rank(), group)
  }

  /** `binding_fully_covered` */
  predicate FullyCovered(lower: Binding, winners: seq<Binding>) {
    forall repeated: bool, editable: bool ::
      BindingEligible(lower, repeated, editable) ==>
      exists winner | winner in winners :: BindingEligible(winner, repeated, editable)
  }

  predicate IsShadowed(group: seq<Binding>, action: ActionId)
    requires group != []
  {
    && action in Actions(LowerLayer(group))
    && action !in Actions(TopLayer(group))
    && forall i | 0 <= i < |LowerLayer(group)| && LowerLayer(group)[i].action == action ::
         FullyCovered(LowerLayer(group)[i], TopLayer(group))
  }

  function GroupWinners(group: seq<Binding>): (r: seq<ActionId>)
    requires group != []
    ensures StrictlyIncreasing(r) && r != []
  {
    var r := SortUnique(Actions(TopLayer(group)));
    assert TopLayer(group)[0].action in Elements(Actions(TopLayer(group)));
    r
  }

  // ---- What is reported ----

  predicate ReplacesDefault(km: Keymap, action: ActionId, scope: BindingScope) {
    && Replaced(km, action, scope)
    && exists i | 0 <= i < |km.defaults| :: km.defaults[i].action == action && km.defaults[i].scope == scope
  }

  predicate Rebinds(km: Keymap, action: ActionId, scope: BindingScope) {
    exists i | 0 <= i < |km.custom| ::
      km.custom[i].action == action && km.custom[i].scope == scope && km.custom[i].chord.Some?
  }

  /** What belongs in the report of one exact group. */
  ghost predicate GroupReports(chord: Chord, scope: BindingScope, group: seq<Binding>, d: KeymapDiagnostic) {
    && group != []
    && match d
       case DefaultReplaced(_, _, _) => false
       case Conflict(c, s, layer, actions) =>
         c == chord && s == scope && layer == TopLayer(group)[0].layer && actions == GroupWinners(group) && |actions| > 1
       case Shadowed(c, s, action, winners) =>
         c == chord && s == scope && winners == GroupWinners(group) && IsShadowed(group, action)
  }

  ghost predicate Reported(km: Keymap, d: KeymapDiagnostic) {
    match d
    case DefaultReplaced(action, scope, unbound) =>
      ReplacesDefault(km, action, scope) && unbound == !Rebinds(km, action, scope)
    case Conflict(chord, scope, _, _) => GroupReports(chord, scope, Group(EffectiveBindings(km), chord, scope), d)
    case Shadowed(chord, scope, _, _) => GroupReports(chord, scope, Group(EffectiveBindings(km), chord, scope), d)
  }

  // ---- The order of the report ----

  datatype Slot = Slot(chord: Chord, scope: BindingScope)

  function SlotCode(slot: Slot): seq<nat> { PairCode(ChordCode(slot.chord), ScopeCode(slot.scope)) }

  datatype Override = Override(action: ActionId, scope: BindingScope)

  function OverrideCode(o: Override): seq<nat> { PairCode([o.action], ScopeCode(o.scope)) }

  /** Replacements by action and scope; then groups by chord and scope, the conflict first, the shadowed by id. */
  function DiagnosticCode(d: KeymapDiagnostic): seq<nat> {
    match d
    case DefaultReplaced(action, scope, _) => PairCode([0], OverrideCode(Override(action, scope)))
    case Conflict(chord, scope, _, _) => PairCode([1], PairCode(SlotCode(Slot(chord, scope)), []))
    case Shadowed(chord, scope, shadowed, _) => PairCode([1], PairCode(SlotCode(Slot(chord, scope)), [shadowed]))
  }

  ghost predicate Before(d: KeymapDiagnostic, e: KeymapDiagnostic) { LexLess(DiagnosticCode(d), DiagnosticCode(e)) }

  ghost predicate InOrder(out: seq<KeymapDiagnostic>) {
    forall i, j | 0 <= i < j < |out| :: Before(out[i], out[j])
  }

  lemma SlotCodeInjective(a: Slot, b: Slot)
    requires SlotCode(a) == SlotCode(b)
    ensures a == b
  {
    hide ChordCode, ScopeCode, PairCode;
    PairCodeInjective(ChordCode(a.chord), ScopeCode(a.scope), ChordCode(b.chord), ScopeCode(b.scope));
    ChordCodeInjective(a.chord, b.chord);
    ScopeCodeInjective(a.scope, b.scope);
  }

  lemma OverrideCodeInjective(a: Override, b: Override)
    requires OverrideCode(a) == OverrideCode(b)
    ensures a == b
  {
    hide ScopeCode, PairCode;
    PairCodeInjective([a.action], ScopeCode(a.scope), [b.action], ScopeCode(b.scope));
    ScopeCodeInjective(a.scope, b.scope);
    assert [a.action][0] == [b.action][0];
  }

  lemma ReplacementsComeFirst(d: KeymapDiagnostic, e: KeymapDiagnostic)
    requires d.DefaultReplaced? && !e.DefaultReplaced?
    ensures Before(d, e)
  {
    hide PairCode, SlotCode, OverrideCode;
    PairOrder([0], OverrideCode(Override(d.action, d.scope)), [1], PairCode(SlotCode(Slot(e.chord, e.scope)), []));
    if e.Shadowed? {
      PairOrder([0], OverrideCode(Override(d.action, d.scope)), [1], PairCode(SlotCode(Slot(e.chord, e.scope)), [e.shadowed]));
    }
  }

  lemma ReplacementsByOverride(d: KeymapDiagnostic, e: KeymapDiagnostic)
    requires d.DefaultReplaced? && e.DefaultReplaced?
    requires LexLess(OverrideCode(Override(d.action, d.scope)), OverrideCode(Override(e.action, e.scope)))
    ensures Before(d, e)
  {
    hide PairCode, OverrideCode;
    PairOrder([0], OverrideCode(Override(d.action, d.scope)), [0], OverrideCode(Override(e.action, e.scope)));
  }

  /** The rank of a diagnostic within its group. */
  function WithinGroup(d: KeymapDiagnostic): seq<nat>
    requires !d.DefaultReplaced?
  {
    if d.Conflict? then [] else [d.shadowed]
  }

  lemma GroupsBySlot(d: KeymapDiagnostic, e: KeymapDiagnostic)
    requires !d.DefaultReplaced? && !e.DefaultReplaced?
    requires var a, b := Slot(d.chord, d.scope), Slot(e.chord, e.scope);
      LexLess(SlotCode(a), SlotCode(b)) || (a == b && LexLess(WithinGroup(d), WithinGroup(e)))
    ensures Before(d, e)
  {
    hide PairCode, SlotCode;
    var a, b := SlotCode(Slot(d.chord, d.scope)), SlotCode(Slot(e.chord, e.scope));
    PairOrder(a, WithinGroup(d), b, WithinGroup(e));
    PairOrder([1], PairCode(a, WithinGroup(d)), [1], PairCode(b, WithinGroup(e)));
  }

  lemma InOrderConcat(a: seq<KeymapDiagnostic>, b: seq<KeymapDiagnostic>)
    requires InOrder(a) && InOrder(b) && forall d, e | d in a && e in b :: Before(d, e)
    ensures InOrder(a + b)
  {
    hide Before;
    forall i, j | 0 <= i < j < |a + b| ensures Before((a + b)[i], (a + b)[j]) {
      if i < |a| <= j { assert a[i] in a && b[j - |a|] in b; }
    }
  }

  // ---- Reporting ----

  /** `out` holds the conflicts and the shadowed actions among `ids`. */
  ghost predicate GroupSoFar(
    chord: Chord, scope: BindingScope, group: seq<Binding>, conflicts: seq<KeymapDiagnostic>, ids: seq<ActionId>, out: seq<KeymapDiagnostic>)
    requires group != []
  {
    forall d :: d in out <==>
      (d in conflicts
       || (d.Shadowed? && d.chord == chord && d.scope == scope && d.winners == GroupWinners(group)
           && IsShadowed(group, d.shadowed) && d.shadowed in ids))
  }

  lemma GroupSoFarStep(
    chord: Chord, scope: BindingScope, group: seq<Binding>, conflicts: seq<KeymapDiagnostic>, ids: seq<ActionId>,
    out: seq<KeymapDiagnostic>, id: ActionId)
    requires group != [] && GroupSoFar(chord, scope, group, conflicts, ids, out)
    ensures IsShadowed(group, id) ==>
      GroupSoFar(chord, scope, group, conflicts, ids + [id], out + [Shadowed(chord, scope, id, GroupWinners(group))])
    ensures !IsShadowed(group, id) ==> GroupSoFar(chord, scope, group, conflicts, ids + [id], out)
  {
    hide IsShadowed, GroupWinners;
  }

  /** The conflict of a group, if it has one. */
  ghost predicate ConflictsOf(chord: Chord, scope: BindingScope, group: seq<Binding>, out: seq<KeymapDiagnostic>)
    requires group != []
  {
    var winners := GroupWinners(group);
    out == if |winners| > 1 then [Conflict(chord, scope, TopLayer(group)[0].layer, winners)] else []
  }

  lemma GroupSoFarEnd(
    chord: Chord, scope: BindingScope, group: seq<Binding>, conflicts: seq<KeymapDiagnostic>, ids: seq<ActionId>, out: seq<KeymapDiagnostic>)
    requires group != [] && ConflictsOf(chord, scope, group, conflicts)
    requires GroupSoFar(chord, scope, group, conflicts, ids, out) && Elements(ids) == Elements(Actions(LowerLayer(group)))
    ensures forall d :: d in out <==> GroupReports(chord, scope, group, d)
  {
    hide GroupWinners, TopLayer, LowerLayer, Actions, FullyCovered;
    SameMembers(ids, Actions(LowerLayer(group)));
  }

  /** The report of one exact group: the conflict first, then each shadowed action in id order. */
  method ReportGroup(chord: Chord, scope: BindingScope, group: seq<Binding>) returns (out: seq<KeymapDiagnostic>)
    requires group != []
    ensures forall d :: d in out <==> GroupReports(chord, scope, group, d)
    ensures InOrder(out)
  {
    hide FullyCovered, Actions, TopLayer, LowerLayer, InOrder, SortUnique, GroupWinners, GroupSoFar, GroupReports;
    out := [];
    NothingInOrder();
    var winners := GroupWinners(group);
    var top := TopLayer(group);
    if |winners| > 1 {
      out := [Conflict(chord, scope, top[0].layer, winners)];
      OneInOrder(out[0]);
    }
    var lower := LowerLayer(group);
    var lowerActions := SortUnique(Actions(lower));
    ghost var conflicts := out;
    GroupSoFarStart(chord, scope, group, conflicts);
    for i := 0 to |lowerActions|
      invariant GroupSoFar(chord, scope, group, conflicts, lowerActions[..i], out)
      invariant InOrder(out)
    {
      var shadowed := lowerActions[i];
      var covered := forall j | 0 <= j < |lower| && lower[j].action == shadowed :: FullyCovered(lower[j], top);
      InElements(lowerActions, i);
      GroupSoFarStep(chord, scope, group, conflicts, lowerActions[..i], out, shadowed);
      assert lowerActions[..i + 1] == lowerActions[..i] + [shadowed];
      if shadowed !in Actions(top) && covered {
        var d := Shadowed(chord, scope, shadowed, winners);
        GroupSoFarNames(chord, scope, group, conflicts, lowerActions[..i], out);
        ShadowedComesLast(out, d, lowerActions, i);
        out := out + [d];
      }
    }
    assert lowerActions[..|lowerActions|] == lowerActions;
    GroupSoFarEnd(chord, scope, group, conflicts, lowerActions, out);
  }

  lemma GroupSoFarStart(chord: Chord, scope: BindingScope, group: seq<Binding>, conflicts: seq<KeymapDiagnostic>)
    requires group != []
    ensures GroupSoFar(chord, scope, group, conflicts, [], conflicts)
  {
    hide IsShadowed, GroupWinners;
  }

  lemma GroupSoFarNames(
    chord: Chord, scope: BindingScope, group: seq<Binding>, conflicts: seq<KeymapDiagnostic>, ids: seq<ActionId>, out: seq<KeymapDiagnostic>)
    requires group != [] && ConflictsOf(chord, scope, group, conflicts) && GroupSoFar(chord, scope, group, conflicts, ids, out)
    ensures forall e | e in out ::
      && !e.DefaultReplaced? && e.chord == chord && e.scope == scope
      && (e.Shadowed? ==> e.shadowed in ids)
  {
    hide IsShadowed, GroupWinners, TopLayer;
  }

  lemma InElements(s: seq<nat>, i: nat)
    requires i < |s|
    ensures s[i] in Elements(s)
  {
  }

  lemma SameMembers(a: seq<nat>, b: seq<nat>)
    requires Elements(a) == Elements(b)
    ensures forall x :: x in a <==> x in b
  {
    assert forall x :: x in a <==> x in Elements(a);
    assert forall x :: x in b <==> x in Elements(b);
  }

  lemma NothingInOrder()
    ensures InOrder([])
  {
  }

  lemma OneInOrder(d: KeymapDiagnostic)
    ensures InOrder([d])
  {
  }

  /** The next shadowed action goes behind the conflict and the smaller ones. */
  lemma ShadowedComesLast(out: seq<KeymapDiagnostic>, d: KeymapDiagnostic, ids: seq<nat>, i: nat)
    requires InOrder(out) && d.Shadowed? && StrictlyIncreasing(ids) && i < |ids| && d.shadowed == ids[i]
    requires forall e | e in out ::
      && !e.DefaultReplaced? && e.chord == d.chord && e.scope == d.scope
      && (e.Shadowed? ==> e.shadowed in ids[..i])
    ensures InOrder(out + [d])
  {
    hide Before, InOrder;
    OneInOrder(d);
    forall e | e in out ensures Before(e, d) { GroupsBySlot(e, d); }
    InOrderConcat(out, [d]);
  }

  /** The (action, scope) pairs that overrides name. */
  function Overrides(custom: seq<BindingOverride>): (r: set<Override>)
    ensures forall o :: o in r <==> exists i | 0 <= i < |custom| :: custom[i].action == o.action && custom[i].scope == o.scope
  {
    set i | 0 <= i < |custom| :: Override(custom[i].action, custom[i].scope)
  }

  method ReportReplaced(km: Keymap) returns (out: seq<KeymapDiagnostic>)
    ensures forall d :: d in out <==> d.DefaultReplaced? && Reported(km, d)
    ensures InOrder(out)
  {
    hide InOrder, Before, OverrideCode, Rebinds, ReplacesDefault;
    out := [];
    NothingInOrder();
    var all := Overrides(km.custom);
    var todo := all;
    while todo != {}
      invariant todo <= all
      invariant InOrder(out)
      invariant forall d :: d in out <==>
        d.DefaultReplaced? && Reported(km, d) && Override(d.action, d.scope) in all - todo
      invariant forall o, p | o in all - todo && p in todo :: LexLess(OverrideCode(o), OverrideCode(p))
      decreases |todo|
    {
      ghost var first := FirstOverride(todo);
      var o :| o in todo && forall p | p in todo && p != o :: LexLess(OverrideCode(o), OverrideCode(p));
      if ReplacesDefault(km, o.action, o.scope) {
        var d := DefaultReplaced(o.action, o.scope, !Rebinds(km, o.action, o.scope));
        forall e | e in out ensures Before(e, d) { ReplacementsByOverride(e, d); }
        OneInOrder(d);
        InOrderConcat(out, [d]);
        out := out + [d];
      }
      todo := todo - {o};
    }
    forall d: KeymapDiagnostic | d.DefaultReplaced? && Reported(km, d) ensures Override(d.action, d.scope) in all {
      ReplacedIsOverridden(km, d.action, d.scope);
    }
  }

  lemma ReplacedIsOverridden(km: Keymap, action: ActionId, scope: BindingScope)
    requires ReplacesDefault(km, action, scope)
    ensures Override(action, scope) in Overrides(km.custom)
  {
  }

  lemma FirstOverride(todo: set<Override>) returns (o: Override)
    requires todo != {}
    ensures o in todo && forall p | p in todo && p != o :: LexLess(OverrideCode(o), OverrideCode(p))
  {
    hide OverrideCode;
    forall o, p | o in todo && p in todo && OverrideCode(o) == OverrideCode(p) ensures o == p { OverrideCodeInjective(o, p); }
    o := FirstExists((o: Override) => OverrideCode(o), todo);
  }

  lemma FirstSlot(todo: set<Slot>) returns (slot: Slot)
    requires todo != {}
    ensures slot in todo && forall s | s in todo && s != slot :: LexLess(SlotCode(slot), SlotCode(s))
  {
    hide SlotCode;
    forall s, t | s in todo && t in todo && SlotCode(s) == SlotCode(t) ensures s == t { SlotCodeInjective(s, t); }
    slot := FirstExists((s: Slot) => SlotCode(s), todo);
  }

  /** `groups` holds, for every bound (chord, scope), its bindings in order. */
  ghost predicate GroupsOf(groups: map<Slot, seq<Binding>>, bindings: seq<Binding>) {
    && (forall slot | slot in groups :: groups[slot] != [] && groups[slot] == Group(bindings, slot.chord, slot.scope))
    && forall b | b in bindings :: Slot(b.chord, b.scope) in groups
  }

  function AddBinding(groups: map<Slot, seq<Binding>>, b: Binding): map<Slot, seq<Binding>> {
    var slot := Slot(b.chord, b.scope);
    groups[slot := (if slot in groups then groups[slot] else []) + [b]]
  }

  lemma AddBindingGroups(groups: map<Slot, seq<Binding>>, bindings: seq<Binding>, b: Binding)
    requires GroupsOf(groups, bindings)
    ensures GroupsOf(AddBinding(groups, b), bindings + [b])
  {
    hide Group;
    var after := AddBinding(groups, b);
    forall slot | slot in after
      ensures after[slot] != [] && after[slot] == Group(bindings + [b], slot.chord, slot.scope)
    {
      GroupAppend(bindings, b, slot.chord, slot.scope);
      if slot !in groups { GroupAbsent(bindings, slot.chord, slot.scope); }
    }
  }

  lemma NoGroups()
    ensures GroupsOf(map[], [])
  {
  }

  method ExactGroups(bindings: seq<Binding>) returns (groups: map<Slot, seq<Binding>>)
    ensures GroupsOf(groups, bindings)
  {
    hide GroupsOf, AddBinding, Group;
    groups := map[];
    NoGroups();
    assert bindings[..0] == [];
    for i := 0 to |bindings|
      invariant GroupsOf(groups, bindings[..i])
    {
      AddBindingGroups(groups, bindings[..i], bindings[i]);
      assert bindings[..i + 1] == bindings[..i] + [bindings[i]];
      groups := AddBinding(groups, bindings[i]);
    }
    assert bindings[..|bindings|] == bindings;
  }

  lemma {:induction false} GroupAbsent(bindings: seq<Binding>, chord: Chord, scope: BindingScope)
    requires forall b | b in bindings :: b.chord != chord || b.scope != scope
    ensures Group(bindings, chord, scope) == []
  {
    if bindings != [] {
      GroupAbsent(bindings[1..], chord, scope);
    }
  }

  lemma GroupAppend(bindings: seq<Binding>, b: Binding, chord: Chord, scope: BindingScope)
    ensures Group(bindings + [b], chord, scope) ==
            Group(bindings, chord, scope) + (if b.chord == chord && b.scope == scope then [b] else [])
  {
    FilterConcat((b: Binding) => b.chord == chord && b.scope == scope, bindings, [b]);
  }

  /** The groups report exactly what is to be reported besides replacements. */
  lemma GroupsReport(km: Keymap, groups: map<Slot, seq<Binding>>, d: KeymapDiagnostic)
    requires GroupsOf(groups, EffectiveBindings(km))
    ensures (exists slot :: slot in groups && GroupReports(slot.chord, slot.scope, groups[slot], d))
            <==> !d.DefaultReplaced? && Reported(km, d)
  {
    hide Group, EffectiveBindings;
    if !d.DefaultReplaced? && Reported(km, d) {
      var group := Group(EffectiveBindings(km), d.chord, d.scope);
      assert group[0] in EffectiveBindings(km);
      assert Slot(d.chord, d.scope) in groups;
    }
  }

  /** What is reported for a group comes after everything reported for earlier ones. */
  lemma GroupComesLast(groups: map<Slot, seq<Binding>>, done: set<Slot>, slot: Slot, out: seq<KeymapDiagnostic>, report: seq<KeymapDiagnostic>)
    requires InOrder(out) && InOrder(report) && slot in groups && done <= groups.Keys
    requires forall s | s in done :: LexLess(SlotCode(s), SlotCode(slot))
    requires forall d | d in out :: d.DefaultReplaced? || Slot(d.chord, d.scope) in done
    requires forall d | d in report :: GroupReports(slot.chord, slot.scope, groups[slot], d)
    ensures InOrder(out + report)
  {
    hide SlotCode, Before, InOrder;
    forall d, e | d in out && e in report ensures Before(d, e) {
      if d.DefaultReplaced? { ReplacementsComeFirst(d, e); } else { GroupsBySlot(d, e); }
    }
    InOrderConcat(out, report);
  }

  lemma ReportsNameTheirSlot(chord: Chord, scope: BindingScope, group: seq<Binding>, d: KeymapDiagnostic)
    requires GroupReports(chord, scope, group, d)
    ensures !d.DefaultReplaced? && Slot(d.chord, d.scope) == Slot(chord, scope)
  {
  }

  /** `out` holds the replacements and what the groups outside `todo` report. */
  ghost predicate SoFar(replaced: seq<KeymapDiagnostic>, groups: map<Slot, seq<Binding>>, todo: set<Slot>, out: seq<KeymapDiagnostic>) {
    forall d :: d in out <==>
      (d in replaced
       || exists slot :: slot in groups && slot !in todo && GroupReports(slot.chord, slot.scope, groups[slot], d))
  }

  lemma SoFarStart(km: Keymap, replaced: seq<KeymapDiagnostic>, groups: map<Slot, seq<Binding>>)
    requires GroupsOf(groups, EffectiveBindings(km))
    ensures SoFar(replaced, groups, groups.Keys, replaced) && forall slot | slot in groups :: groups[slot] != []
  {
    hide GroupReports, Group;
  }

  lemma SoFarNamesSlots(replaced: seq<KeymapDiagnostic>, groups: map<Slot, seq<Binding>>, todo: set<Slot>, out: seq<KeymapDiagnostic>)
    requires SoFar(replaced, groups, todo, out) && forall d | d in replaced :: d.DefaultReplaced?
    ensures forall d | d in out :: d.DefaultReplaced? || Slot(d.chord, d.scope) in groups.Keys - todo
  {
    hide GroupReports;
    forall d | d in out ensures d.DefaultReplaced? || Slot(d.chord, d.scope) in groups.Keys - todo {
      if d !in replaced {
        var s :| s in groups && s !in todo && GroupReports(s.chord, s.scope, groups[s], d);
        ReportsNameTheirSlot(s.chord, s.scope, groups[s], d);
      }
    }
  }

  lemma SoFarStep(
    replaced: seq<KeymapDiagnostic>, groups: map<Slot, seq<Binding>>, todo: set<Slot>, out: seq<KeymapDiagnostic>,
    slot: Slot, report: seq<KeymapDiagnostic>)
    requires SoFar(replaced, groups, todo, out) && slot in todo && slot in groups
    requires forall d :: d in report <==> GroupReports(slot.chord, slot.scope, groups[slot], d)
    ensures SoFar(replaced, groups, todo - {slot}, out + report)
  {
    hide GroupReports;
  }

  lemma SoFarEnd(km: Keymap, replaced: seq<KeymapDiagnostic>, groups: map<Slot, seq<Binding>>, out: seq<KeymapDiagnostic>)
    requires SoFar(replaced, groups, {}, out) && GroupsOf(groups, EffectiveBindings(km))
    requires forall d :: d in replaced <==> d.DefaultReplaced? && Reported(km, d)
    ensures forall d :: d in out <==> Reported(km, d)
  {
    hide GroupReports, Reported, GroupsOf;
    forall d ensures d in out <==> Reported(km, d) { GroupsReport(km, groups, d); }
  }

  /** `diagnostics` */
  method Diagnostics(km: Keymap) returns (out: seq<KeymapDiagnostic>)
    ensures forall d :: d in out <==> Reported(km, d)
    ensures InOrder(out)
  {
    hide GroupReports, Reported, SlotCode, InOrder, SoFar, GroupsOf, LexLess, EffectiveBindings;
    out := ReportReplaced(km);
    ghost var replaced := out;
    var groups := ExactGroups(EffectiveBindings(km));
    var todo := groups.Keys;
    SoFarStart(km, replaced, groups);
    while todo != {}
      invariant todo <= groups.Keys
      invariant InOrder(out) && SoFar(replaced, groups, todo, out)
      invariant forall s, t | s in groups.Keys - todo && t in todo :: LexLess(SlotCode(s), SlotCode(t))
      decreases |todo|
    {
      ghost var first := FirstSlot(todo);
      var slot :| slot in todo && forall s | s in todo && s != slot :: LexLess(SlotCode(slot), SlotCode(s));
      var report := ReportGroup(slot.chord, slot.scope, groups[slot]);
      SoFarNamesSlots(replaced, groups, todo, out);
      GroupComesLast(groups, groups.Keys - todo, slot, out, report);
      SoFarStep(replaced, groups, todo, out, slot, report);
      out := out + report;
      todo := todo - {slot};
    }
    SoFarEnd(km, replaced, groups, out);
  }

  lemma BeforeIsAsymmetric(d: KeymapDiagnostic, e: KeymapDiagnostic)
    ensures !(Before(d, e) && Before(e, d))
  {
    hide DiagnosticCode;
    if Before(d, e) && Before(e, d) {
      LexTransitive(DiagnosticCode(d), DiagnosticCode(e), DiagnosticCode(d));
      LexIrreflexive(DiagnosticCode(d));
    }
  }

  /** What is reported and its order determine the report. */
  lemma {:induction false} ReportIsDetermined(a: seq<KeymapDiagnostic>, b: seq<KeymapDiagnostic>)
    requires InOrder(a) && InOrder(b) && forall d :: d in a <==> d in b
    ensures a == b
    decreases |a|
  {
    hide Before;
    if a == [] {
      assert forall i | 0 <= i < |b| :: b[i] in b;
    } else {
      assert a[0] in b;
      var k :| 0 <= k < |b| && b[k] == a[0];
      assert b[0] in a;
      var l :| 0 <= l < |a| && a[l] == b[0];
      BeforeIsAsymmetric(a[0], b[0]);
      assert a[0] == b[0];
      RestHasTheRest(a);
      RestHasTheRest(b);
      ReportIsDetermined(a[1..], b[1..]);
      assert a == [a[0]] + a[1..] && b == [b[0]] + b[1..];
    }
  }

  lemma RestHasTheRest(a: seq<KeymapDiagnostic>)
    requires InOrder(a) && a != []
    ensures InOrder(a[1..]) && forall d :: d in a[1..] <==> d in a && d != a[0]
  {
    hide Before;
    BeforeIsAsymmetric(a[0], a[0]);
    assert a == [a[0]] + a[1..];
    forall d | d in a[1..] ensures d != a[0] {
      var i :| 1 <= i < |a| && a[i] == d;
      assert Before(a[0], a[i]);
    }
  }

  // ---- What the report means for the keymap ----

  /** A binding the resolver consults is for this action and scope. */
  ghost predicate BoundFor(km: Keymap, action: ActionId, scope: BindingScope, b: Binding) {
    b in EffectiveBindings(km) && b.action == action && b.scope == scope
  }

  lemma BoundForExactly(km: Keymap, action: ActionId, scope: BindingScope, b: Binding)
    ensures BoundFor(km, action, scope, b) <==>
      && b.action == action && b.scope == scope
      && if b.layer == Custom then
           BindingOverride(b.action, Some(b.chord), b.scope, b.repeat, b.allowInEditable) in km.custom
         else
           DefaultBinding(b.action, b.chord, b.scope, b.repeat, b.allowInEditable) in km.defaults && !Replaced(km, b.action, b.scope)
  {
    hide EffectiveBindings, Replaced;
    EffectiveMembers(km, b);
  }

  ghost predicate HasDefault(km: Keymap, action: ActionId, scope: BindingScope) {
    exists i | 0 <= i < |km.defaults| :: km.defaults[i].action == action && km.defaults[i].scope == scope
  }

  lemma DefaultsReplaced(km: Keymap, action: ActionId, scope: BindingScope)
    requires HasDefault(km, action, scope)
    ensures Replaced(km, action, scope) <==> forall b | BoundFor(km, action, scope, b) :: b.layer.Custom?
  {
    hide BoundFor, Replaced;
    forall b | BoundFor(km, action, scope, b) && Replaced(km, action, scope) ensures b.layer.Custom? {
      BoundForExactly(km, action, scope, b);
    }
    var i :| 0 <= i < |km.defaults| && km.defaults[i].action == action && km.defaults[i].scope == scope;
    var d := km.defaults[i];
    assert d in km.defaults;
    BoundForExactly(km, action, scope, Binding(d.action, d.chord, d.scope, d.repeat, d.allowInEditable, Default));
  }

  lemma ReboundExactly(km: Keymap, action: ActionId, scope: BindingScope)
    ensures Rebinds(km, action, scope) <==> exists b :: BoundFor(km, action, scope, b) && b.layer.Custom?
  {
    hide BoundFor, Replaced;
    if Rebinds(km, action, scope) {
      var i :| 0 <= i < |km.custom| && km.custom[i].action == action && km.custom[i].scope == scope && km.custom[i].chord.Some?;
      var o := km.custom[i];
      var b := Binding(o.action, o.chord.value, o.scope, o.repeat, o.allowInEditable, Custom);
      assert o in km.custom && BindingOverride(b.action, Some(b.chord), b.scope, b.repeat, b.allowInEditable) == o;
      BoundForExactly(km, action, scope, b);
    }
    if b :| BoundFor(km, action, scope, b) && b.layer.Custom? {
      BoundForExactly(km, action, scope, b);
      var o := BindingOverride(b.action, Some(b.chord), b.scope, b.repeat, b.allowInEditable);
      var i :| 0 <= i < |km.custom| && km.custom[i] == o;
    }
  }

  /** A replacement is reported iff the action has a default there and no default of it is effective there any more;
      it counts as unbound iff nothing at all is. */
  lemma ReplacedExactly(km: Keymap, action: ActionId, scope: BindingScope, unbound: bool)
    ensures Reported(km, DefaultReplaced(action, scope, unbound)) <==>
      && HasDefault(km, action, scope)
      && (forall b | BoundFor(km, action, scope, b) :: b.layer.Custom?)
      && (unbound <==> forall b :: !BoundFor(km, action, scope, b))
  {
    hide BoundFor, Replaced, Rebinds;
    ReboundExactly(km, action, scope);
    if HasDefault(km, action, scope) { DefaultsReplaced(km, action, scope); }
  }

  // ---- What the report means for the resolver ----

  /** In the minimal context of a bound scope, the completing candidates of top rank are that scope's top layer. */
  lemma MinimalContextTop(km: Keymap, chord: Chord, scope: BindingScope, editable: bool, repeated: bool, b: Binding)
    requires b in Group(EffectiveBindings(km), chord, scope) && BindingEligible(b, repeated, editable)
    ensures TopRanked(b, chord, MinimalContext(scope, editable), km, repeated) <==>
      forall other | other in Group(EffectiveBindings(km), chord, scope) && BindingEligible(other, repeated, editable) ::
        other.layer.Rank() <= b.layer.Rank()
  {
    hide Group;
    var ctx := MinimalContext(scope, editable);
    forall other ensures other in Candidates(chord, ctx, km, repeated) && other.chord == chord && other.scope == scope
      <==> other in Group(EffectiveBindings(km), chord, scope) && BindingEligible(other, repeated, editable)
    {
    }
    forall other | other in Candidates(chord, ctx, km, repeated) && other.chord == chord
      ensures other.scope == scope || other.scope.Rank() < scope.Rank()
    {
      assert ctx.Admits(other.scope);
    }
  }

  lemma ShadowedIsCovered(group: seq<Binding>, b: Binding)
    requires b in group && IsShadowed(group, b.action)
    ensures b in LowerLayer(group) && FullyCovered(b, TopLayer(group))
  {
    hide Actions, TopLayer, LowerLayer, FullyCovered;
    var lower := LowerLayer(group);
    assert b in lower;
    var i :| 0 <= i < |lower| && lower[i] == b;
  }

  /** `Shadowed` is sound: wherever the shadowed binding is eligible, something of its own group outranks it. */
  lemma ShadowedNeverTop(km: Keymap, chord: Chord, scope: BindingScope, b: Binding, ctx: FocusContext, repeated: bool)
    requires var group := Group(EffectiveBindings(km), chord, scope);
      b in group && IsShadowed(group, b.action)
    ensures !TopRanked(b, chord, ctx, km, repeated)
  {
    hide Group, Actions, TopLayer, LowerLayer, IsShadowed, Candidates;
    var group := Group(EffectiveBindings(km), chord, scope);
    ShadowedIsCovered(group, b);
    IsCandidate(b, chord, ctx, km, repeated);
    if b in Candidates(chord, ctx, km, repeated) {
      assert BindingEligible(b, repeated, ctx.focusedEditable);
      var winner :| winner in TopLayer(group) && BindingEligible(winner, repeated, ctx.focusedEditable);
      IsCandidate(winner, chord, ctx, km, repeated);
      LowerIsLower(group, b);
      assert Outranks(winner, b);
    }
  }

  lemma LowerIsLower(group: seq<Binding>, b: Binding)
    requires group != [] && b in LowerLayer(group)
    ensures forall t | t in TopLayer(group) :: b.layer.Rank() < t.layer.Rank()
  {
    assert TopLayer(group)[0] in TopLayer(group);
  }

  /** `Shadowed` is complete: an uncovered lower binding is top-ranked in some context, a valid one if its scope is. */
  lemma UncoveredCanWin(km: Keymap, chord: Chord, scope: BindingScope, b: Binding) returns (ctx: FocusContext, repeated: bool)
    requires var group := Group(EffectiveBindings(km), chord, scope);
      group != [] && b in LowerLayer(group) && !FullyCovered(b, TopLayer(group))
    ensures TopRanked(b, chord, ctx, km, repeated) && (scope.Valid() ==> ctx.Valid())
  {
    var group := Group(EffectiveBindings(km), chord, scope);
    hide Group, TopLayer, LowerLayer;
    var top := TopLayer(group);
    var editable;
    repeated, editable :| BindingEligible(b, repeated, editable)
      && !exists winner | winner in top :: BindingEligible(winner, repeated, editable);
    ctx := MinimalContext(scope, editable);
    LowerIsLower(group, b);
    assert top[0] in top;
    forall other | other in group && BindingEligible(other, repeated, editable)
      ensures other.layer.Rank() <= b.layer.Rank()
    {
      assert other !in top;
      LowerIsLower(group, other);
    }
    MinimalContextTop(km, chord, scope, editable, repeated, b);
  }

  /** No context that satisfies `among` puts a binding of the action among the top-ranked of the chord and scope. */
  ghost predicate NeverTop(
    km: Keymap, chord: Chord, scope: BindingScope, action: ActionId, among: FocusContext -> bool) {
    forall b, ctx: FocusContext, repeated: bool
      | b in Group(EffectiveBindings(km), chord, scope) && b.action == action && among(ctx) ::
      !TopRanked(b, chord, ctx, km, repeated)
  }

  lemma ShadowedReported(km: Keymap, chord: Chord, scope: BindingScope, action: ActionId)
    requires Group(EffectiveBindings(km), chord, scope) != []
    ensures (exists winners :: Reported(km, Shadowed(chord, scope, action, winners))) <==>
            IsShadowed(Group(EffectiveBindings(km), chord, scope), action)
  {
    hide Group, IsShadowed, GroupWinners;
    var group := Group(EffectiveBindings(km), chord, scope);
    if IsShadowed(group, action) { assert Reported(km, Shadowed(chord, scope, action, GroupWinners(group))); }
  }

  lemma ShadowedIsNeverTop(km: Keymap, chord: Chord, scope: BindingScope, action: ActionId, among: FocusContext -> bool)
    requires var group := Group(EffectiveBindings(km), chord, scope); group != [] && IsShadowed(group, action)
    ensures NeverTop(km, chord, scope, action, among)
  {
    hide Group, IsShadowed, TopRanked;
    forall b, ctx: FocusContext, repeated: bool | b in Group(EffectiveBindings(km), chord, scope) && b.action == action && among(ctx)
      ensures !TopRanked(b, chord, ctx, km, repeated)
    {
      ShadowedNeverTop(km, chord, scope, b, ctx, repeated);
    }
  }

  lemma UnshadowedCanBeTop(km: Keymap, chord: Chord, scope: BindingScope, action: ActionId, among: FocusContext -> bool)
    requires var group := Group(EffectiveBindings(km), chord, scope);
      && group != [] && action in Actions(LowerLayer(group)) && action !in Actions(TopLayer(group))
      && !IsShadowed(group, action)
    requires forall ctx: FocusContext | scope.Valid() ==> ctx.Valid() :: among(ctx)
    ensures !NeverTop(km, chord, scope, action, among)
  {
    hide Group, Actions, TopLayer, LowerLayer, FullyCovered, TopRanked;
    var group := Group(EffectiveBindings(km), chord, scope);
    var lower := LowerLayer(group);
    var i :| 0 <= i < |lower| && lower[i].action == action && !FullyCovered(lower[i], TopLayer(group));
    assert lower[i] in lower && lower[i] in group;
    var ctx, repeated := UncoveredCanWin(km, chord, scope, lower[i]);
  }

  /** `Shadowed` is exact: a lower-layer action that is not also a top-layer winner is reported for (chord, scope)
      iff no focus context and no repeat flag ever puts one of its bindings there among the top-ranked; for a valid
      scope the valid contexts decide, which are the only ones the resolver accepts. */
  lemma ShadowedIsExact(km: Keymap, chord: Chord, scope: BindingScope, action: ActionId)
    requires var group := Group(EffectiveBindings(km), chord, scope);
      group != [] && action in Actions(LowerLayer(group)) && action !in Actions(TopLayer(group))
    ensures (exists winners :: Reported(km, Shadowed(chord, scope, action, winners))) <==>
            NeverTop(km, chord, scope, action, _ => true)
    ensures scope.Valid() ==>
      ((exists winners :: Reported(km, Shadowed(chord, scope, action, winners))) <==>
       NeverTop(km, chord, scope, action, (ctx: FocusContext) => ctx.Valid()))
  {
    hide Group, Actions, TopLayer, LowerLayer, IsShadowed, NeverTop, Reported;
    var valid := (ctx: FocusContext) => ctx.Valid();
    ShadowedReported(km, chord, scope, action);
    if IsShadowed(Group(EffectiveBindings(km), chord, scope), action) {
      ShadowedIsNeverTop(km, chord, scope, action, _ => true);
      ShadowedIsNeverTop(km, chord, scope, action, valid);
    } else {
      UnshadowedCanBeTop(km, chord, scope, action, _ => true);
      if scope.Valid() { UnshadowedCanBeTop(km, chord, scope, action, valid); }
    }
  }

  /** The top-ranked actions in the minimal, non-editable, non-repeated context of a bound scope. */
  lemma MinimalWinners(km: Keymap, chord: Chord, scope: BindingScope)
    requires Group(EffectiveBindings(km), chord, scope) != []
    ensures Elements(GroupWinners(Group(EffectiveBindings(km), chord, scope)))
            == Winners(chord, MinimalContext(scope, false), km, false)
  {
    var group := Group(EffectiveBindings(km), chord, scope);
    hide Group, TopLayer;
    var ctx, top := MinimalContext(scope, false), TopLayer(group);
    forall b | b in group ensures b in top <==> TopRanked(b, chord, ctx, km, false) {
      MinimalContextTop(km, chord, scope, false, false, b);
    }
    MinimalContextTop(km, chord, scope, false, false, top[0]);
    forall b | TopRanked(b, chord, ctx, km, false) ensures b in group {
      assert top[0] in group && top[0] in Candidates(chord, ctx, km, false);
      assert ctx.Admits(b.scope) && !Outranks(top[0], b);
    }
    assert forall b :: b in top <==> TopRanked(b, chord, ctx, km, false);
    ActionsAreWinners(top, chord, ctx, km, false);
  }

  lemma ConflictReported(km: Keymap, chord: Chord, scope: BindingScope, actions: seq<ActionId>)
    requires Group(EffectiveBindings(km), chord, scope) != []
    ensures (exists layer :: Reported(km, Conflict(chord, scope, layer, actions))) <==>
      actions == GroupWinners(Group(EffectiveBindings(km), chord, scope)) && |actions| > 1
  {
    hide GroupWinners, Group, TopLayer, LowerLayer, IsShadowed;
    var group := Group(EffectiveBindings(km), chord, scope);
    if actions == GroupWinners(group) && |actions| > 1 {
      assert Reported(km, Conflict(chord, scope, TopLayer(group)[0].layer, actions));
    }
  }

  /** The verdict on completing a bound chord in the minimal context of its scope. */
  lemma MinimalVerdict(km: Keymap, chord: Chord, scope: BindingScope)
    requires Group(EffectiveBindings(km), chord, scope) != []
    ensures var ctx := MinimalContext(scope, false);
      Verdict(chord, Winners(chord, ctx, km, false), CompleteFallback(chord, ctx, km, false))
  {
    var group, ctx := Group(EffectiveBindings(km), chord, scope), MinimalContext(scope, false);
    hide Group, EvaluatePrefix, CompleteCandidates, Winners;
    var e := EvaluatePrefix(chord, ctx, km, false);
    assert group[0] in Candidates(chord, ctx, km, false);
    CompletionVerdict(chord, e.found, ctx, km, false);
  }

  /** `Conflict` is exact: it is reported for a bound (chord, scope) with `actions` iff completing the chord in the
      minimal context of that scope is a conflict of exactly those actions. */
  lemma ConflictIsExact(km: Keymap, chord: Chord, scope: BindingScope, actions: seq<ActionId>)
    requires Group(EffectiveBindings(km), chord, scope) != []
    ensures (exists layer :: Reported(km, Conflict(chord, scope, layer, actions))) <==>
      CompleteFallback(chord, MinimalContext(scope, false), km, false) == Resolved([], NoMatch, [BindingConflict(chord, actions)])
  {
    var group, ctx := Group(EffectiveBindings(km), chord, scope), MinimalContext(scope, false);
    hide Group, CompleteFallback, Winners, GroupWinners, Reported;
    ConflictReported(km, chord, scope, actions);
    MinimalWinners(km, chord, scope);
    MinimalVerdict(km, chord, scope);
    var r, winners := CompleteFallback(chord, ctx, km, false), Winners(chord, ctx, km, false);
    StrictlyIncreasingSize(GroupWinners(group));
    if |winners| == 1 {
      var a :| a in winners;
      assert |winners - {a}| == 0;
      assert winners == {a};
    } else {
      StrictlyIncreasingUnique(r.issues[0].actions, GroupWinners(group));
    }
  }
}
