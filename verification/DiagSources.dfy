/** The sets of different sources keep apart: each is contiguous, the lint set is first. */
module DiagSources {
  import opened Seqs
  import opened Texts
  import opened Diag
  import Highlight

  /** Each source's items are contiguous, and the lint set is first. */
  ghost predicate Grouped(ms: seq<Marker>) {
    && (forall i, j, k | 0 <= i < j < k < |ms| && ms[i].diag.source == ms[k].diag.source :: ms[j].diag.source == ms[i].diag.source)
    && (forall i, j | 0 <= i < j < |ms| && ms[j].diag.source == LINT_SOURCE :: ms[i].diag.source == LINT_SOURCE)
  }

  /** `b` is what is left of `a` at the positions `at`, in order. */
  ghost predicate Thins(a: seq<Marker>, b: seq<Marker>, at: seq<nat>) {
    && |at| == |b| && StrictlyIncreasing(at)
    && forall i | 0 <= i < |b| :: at[i] < |a| && b[i].diag.source == a[at[i]].diag.source
  }

  ghost predicate Thinned(a: seq<Marker>, b: seq<Marker>) { exists at :: Thins(a, b, at) }

  lemma ThinnedTrans(a: seq<Marker>, b: seq<Marker>, c: seq<Marker>)
    requires Thinned(a, b) && Thinned(b, c)
    ensures Thinned(a, c)
  {
    var f :| Thins(a, b, f);
    var g :| Thins(b, c, g);
    assert Thins(a, c, seq(|c|, i requires 0 <= i < |c| => f[g[i]]));
  }

  lemma ThinnedSelf(a: seq<Marker>)
    ensures Thinned(a, a)
  {
    assert Thins(a, a, seq(|a|, i => i));
  }

  lemma ThinnedGrouped(a: seq<Marker>, b: seq<Marker>)
    requires Thinned(a, b) && Grouped(a)
    ensures Grouped(b)
  {
    var at :| Thins(a, b, at);
  }

  lemma ThinnedSource(a: seq<Marker>, b: seq<Marker>, source: string)
    requires Thinned(a, b) && forall m | m in a :: m.diag.source == source
    ensures forall m | m in b :: m.diag.source == source
  {
    var at :| Thins(a, b, at);
    forall m | m in b ensures m.diag.source == source {
      var i :| 0 <= i < |b| && b[i] == m;
      assert a[at[i]] in a;
    }
  }

  lemma ThinsPush(ms: seq<Marker>, rest: seq<Marker>, at: seq<nat>, last: Marker)
    requires ms != [] && Thins(ms[..|ms| - 1], rest, at) && last.diag.source == ms[|ms| - 1].diag.source
    ensures Thins(ms, rest, at) && Thins(ms, rest + [last], at + [|ms| - 1])
  {
  }

  // ---- Edits only thin ----

  lemma AfterEditLast(ms: seq<Marker>, e: Edit)
    requires ms != []
    ensures var rest, last := AfterEdit(ms[..|ms| - 1], e), ms[|ms| - 1];
      AfterEdit(ms, e) == if Touches(last.covered, e) then rest else rest + [Moved(last, e)]
  {
    hide Touches, Moved;
    assert AfterEdit(ms[..|ms| - 1], e) + [] == AfterEdit(ms[..|ms| - 1], e);
  }

  lemma {:induction false} EditThins(ms: seq<Marker>, e: Edit)
    ensures Thinned(ms, AfterEdit(ms, e))
  {
    hide Touches, AfterEdit, Thins, MapRange;
    if ms == [] {
      NothingLeft(e);
    } else {
      var n := |ms| - 1;
      EditThins(ms[..n], e);
      var at :| Thins(ms[..n], AfterEdit(ms[..n], e), at);
      ThinsPush(ms, AfterEdit(ms[..n], e), at, Moved(ms[n], e));
      AfterEditLast(ms, e);
    }
  }

  lemma NothingLeft(e: Edit)
    ensures Thinned([], AfterEdit([], e))
  {
    ThinnedSelf([]);
  }

  lemma {:induction false} EditsThin(ms: seq<Marker>, edits: seq<Edit>)
    ensures Thinned(ms, AfterEdits(ms, edits))
  {
    hide Thinned, AfterEdit;
    if edits == [] {
      ThinnedSelf(ms);
    } else {
      var n := |edits| - 1;
      EditsThin(ms, edits[..n]);
      EditThins(AfterEdits(ms, edits[..n]), edits[n]);
      ThinnedTrans(ms, AfterEdits(ms, edits[..n]), AfterEdits(ms, edits));
    }
  }

  lemma DeltaThins(ms: seq<Marker>, d: Highlight.ViewDelta)
    ensures Thinned(ms, AfterDelta(ms, d))
  {
    if d.kind == Highlight.Resync { assert Thins(ms, [], []); } else { EditsThin(ms, d.edits); }
  }

  lemma {:induction false} DeltasThin(ms: seq<Marker>, ds: seq<Highlight.ViewDelta>)
    ensures Thinned(ms, AfterDeltas(ms, ds))
  {
    hide Thinned, AfterDelta;
    if ds == [] {
      ThinnedSelf(ms);
    } else {
      var n := |ds| - 1;
      DeltasThin(ms, ds[..n]);
      DeltaThins(AfterDeltas(ms, ds[..n]), ds[n]);
      ThinnedTrans(ms, AfterDeltas(ms, ds[..n]), AfterDeltas(ms, ds));
    }
  }

  lemma {:induction false} LocatedSource(cls: CharClasses, source: string, t: Text, items: seq<DiagItem>)
    ensures forall m | m in LocatedAll(cls, source, t, items) :: m.diag.source == source
  {
    hide Locate;
    if items != [] { LocatedSource(cls, source, t, items[..|items| - 1]); }
  }

  // ---- Replacing ----

  ghost predicate AllOf(source: string, ms: seq<Marker>) { forall m | m in ms :: m.diag.source == source }

  /** The set that takes the place of `source`'s old one holds only its own items. */
  lemma NewSetIsOwn(cls: CharClasses, source: string, t: Text, items: seq<DiagItem>, ds: seq<Highlight.ViewDelta>)
    ensures AllOf(source, AfterDeltas(LocatedAll(cls, source, t, items), ds))
  {
    LocatedSource(cls, source, t, items);
    DeltasThin(LocatedAll(cls, source, t, items), ds);
    ThinnedSource(LocatedAll(cls, source, t, items), AfterDeltas(LocatedAll(cls, source, t, items), ds), source);
  }

  /** Replacing one source's set leaves every other item as it was, in the same order. */
  lemma ReplaceKeepsOthers(source: string, ms: seq<Marker>, set_: seq<Marker>)
    requires AllOf(source, set_)
    ensures Others(source, Replaced(source, ms, set_)) == Others(source, ms)
    ensures Of(source, Replaced(source, ms, set_)) == set_
  {
    hide Filter, Slot;
    SlotSurvives(source, ms);
    var at, rest := Slot(source, ms), Others(source, ms);
    assert forall m | m in rest[..at] :: m in rest;
    assert forall m | m in rest[at..] :: m in rest;
    FilterOutside((m: Marker) => m.diag.source != source, rest[..at], set_, rest[at..]);
    FilterInside((m: Marker) => m.diag.source == source, rest[..at], set_, rest[at..]);
    assert rest == rest[..at] + rest[at..];
  }

  lemma FilterOutside(keep: Marker -> bool, a: seq<Marker>, b: seq<Marker>, c: seq<Marker>)
    requires forall m | m in a || m in c :: keep(m)
    requires forall m | m in b :: !keep(m)
    ensures Filter(keep, a + b + c) == a + c
  {
    hide Filter;
    FilterConcat(keep, a + b, c);
    FilterConcat(keep, a, b);
    FilterAll(keep, a);
    FilterNone(keep, b);
    FilterAll(keep, c);
  }

  lemma FilterInside(keep: Marker -> bool, a: seq<Marker>, b: seq<Marker>, c: seq<Marker>)
    requires forall m | m in a || m in c :: !keep(m)
    requires forall m | m in b :: keep(m)
    ensures Filter(keep, a + b + c) == b
  {
    hide Filter;
    FilterConcat(keep, a + b, c);
    FilterConcat(keep, a, b);
    FilterNone(keep, a);
    FilterAll(keep, b);
    FilterNone(keep, c);
  }

  function Shifted(at: seq<nat>): (r: seq<nat>)
    ensures |r| == |at| && forall i | 0 <= i < |r| :: r[i] == at[i] + 1
  {
    seq(|at|, i requires 0 <= i < |at| => at[i] + 1)
  }

  lemma ThinsLater(ms: seq<Marker>, rest: seq<Marker>, at: seq<nat>)
    requires ms != [] && Thins(ms[1..], rest, at)
    ensures Thins(ms, rest, Shifted(at))
  {
    hide Shifted;
    forall i | 0 <= i < |rest| ensures rest[i].diag.source == ms[Shifted(at)[i]].diag.source {
      assert ms[1..][at[i]] == ms[at[i] + 1];
    }
  }

  lemma ThinsCons(ms: seq<Marker>, rest: seq<Marker>, at: seq<nat>)
    requires ms != [] && Thins(ms, rest, at) && forall i | 0 <= i < |at| :: at[i] > 0
    ensures Thins(ms, [ms[0]] + rest, [0] + at)
  {
    var all, kept := [0] + at, [ms[0]] + rest;
    assert forall i | 1 <= i < |all| :: all[i] == at[i - 1];
    assert forall i | 1 <= i < |kept| :: kept[i] == rest[i - 1];
  }

  lemma {:induction false} FilterThins(keep: Marker -> bool, ms: seq<Marker>)
    ensures Thinned(ms, Filter(keep, ms))
  {
    hide Thins;
    if ms == [] {
      ThinnedSelf(ms);
    } else {
      FilterThins(keep, ms[1..]);
      var at :| Thins(ms[1..], Filter(keep, ms[1..]), at);
      ThinsLater(ms, Filter(keep, ms[1..]), at);
      ThinsCons(ms, Filter(keep, ms[1..]), Shifted(at));
      assert [] + Filter(keep, ms[1..]) == Filter(keep, ms[1..]);
    }
  }

  lemma {:induction false} PositionsRunAhead(at: seq<nat>, i: nat)
    requires StrictlyIncreasing(at) && i < |at|
    ensures i <= at[i]
  {
    if i > 0 { PositionsRunAhead(at, i - 1); }
  }

  /** What stands behind the slot once `source` is gone stood behind its old set. */
  lemma BehindSlot(source: string, ms: seq<Marker>, k: nat)
    requires Slot(source, ms) <= k < |Others(source, ms)| && source != LINT_SOURCE
    ensures var at := Slot(source, ms);
      && at < |ms| && ms[at].diag.source == source
      && exists j :: at < j < |ms| && ms[j].diag.source == Others(source, ms)[k].diag.source
  {
    OthersThin(source, ms);
    SlotHolds(source, ms);
    hide Others, Slot;
    var rest, at := Others(source, ms), Slot(source, ms);
    var f :| Thins(ms, rest, f);
    PositionsRunAhead(f, k);
    OthersAreOthers(source, ms, k);
    assert ms[f[k]].diag.source == rest[k].diag.source;
  }

  lemma OthersThin(source: string, ms: seq<Marker>)
    ensures Thinned(ms, Others(source, ms))
  {
    FilterThins((m: Marker) => m.diag.source != source, ms);
  }

  /** The slot of an external set is where its first item stands, if it has any. */
  lemma SlotHolds(source: string, ms: seq<Marker>)
    requires source != LINT_SOURCE
    ensures Slot(source, ms) < |ms| ==> ms[Slot(source, ms)].diag.source == source
  {
  }

  lemma OthersAreOthers(source: string, ms: seq<Marker>, i: nat)
    requires i < |Others(source, ms)|
    ensures Others(source, ms)[i].diag.source != source
  {
    assert Others(source, ms)[i] in Others(source, ms);
  }

  /** Nothing but `source` can straddle its slot. */
  lemma NothingStraddles(source: string, ms: seq<Marker>, i: nat, k: nat)
    requires Grouped(ms) && i < Slot(source, ms) <= k < |Others(source, ms)|
    ensures Others(source, ms)[i].diag.source != Others(source, ms)[k].diag.source
    ensures Others(source, ms)[k].diag.source != LINT_SOURCE
  {
    var at := Slot(source, ms);
    SlotSurvives(source, ms);
    assert Others(source, ms)[i] == Others(source, ms)[..at][i] == ms[..at][i] == ms[i];
    BehindSlot(source, ms, k);
    OthersAreOthers(source, ms, i);
  }

  lemma LintNeverBehind(source: string, ms: seq<Marker>, k: nat)
    requires Grouped(ms) && Slot(source, ms) <= k < |Others(source, ms)|
    ensures Others(source, ms)[k].diag.source != LINT_SOURCE
  {
    if source == LINT_SOURCE { OthersAreOthers(source, ms, k); } else { BehindSlot(source, ms, k); }
  }

  lemma ReplaceKeepsGroups(source: string, ms: seq<Marker>, set_: seq<Marker>)
    requires Grouped(ms) && AllOf(source, set_)
    ensures Grouped(Replaced(source, ms, set_))
  {
    SlotSurvives(source, ms);
    var at, rest, n := Slot(source, ms), Others(source, ms), |set_|;
    OthersThin(source, ms);
    ThinnedGrouped(ms, rest);
    forall i | 0 <= i < |rest| ensures rest[i].diag.source != source { OthersAreOthers(source, ms, i); }
    forall k | at <= k < |rest| ensures rest[k].diag.source != LINT_SOURCE { LintNeverBehind(source, ms, k); }
    forall i, k | 0 <= i < at <= k < |rest| ensures rest[i].diag.source != rest[k].diag.source {
      NothingStraddles(source, ms, i, k);
    }
    SpliceGrouped(source, rest, set_, at);
  }

  lemma SpliceGrouped(source: string, rest: seq<Marker>, set_: seq<Marker>, at: nat)
    requires Grouped(rest) && AllOf(source, set_) && at <= |rest|
    requires source == LINT_SOURCE ==> at == 0
    requires forall i | 0 <= i < |rest| :: rest[i].diag.source != source
    requires forall k | at <= k < |rest| :: rest[k].diag.source != LINT_SOURCE
    requires forall i, k | 0 <= i < at <= k < |rest| :: rest[i].diag.source != rest[k].diag.source
    ensures Grouped(rest[..at] + set_ + rest[at..])
  {
    hide Grouped;
    SpliceParts(source, rest, set_, at);
    PartsGrouped(source, rest, |set_|, at, rest[..at] + set_ + rest[at..]);
  }

  /** `all` is `rest` with `n` items of `source` put in at `at`. */
  lemma PartsGrouped(source: string, rest: seq<Marker>, n: nat, at: nat, all: seq<Marker>)
    requires Grouped(rest) && at <= |rest| && |all| == |rest| + n
    requires source == LINT_SOURCE ==> at == 0
    requires forall i | 0 <= i < |rest| :: rest[i].diag.source != source
    requires forall k | at <= k < |rest| :: rest[k].diag.source != LINT_SOURCE
    requires forall i, k | 0 <= i < at <= k < |rest| :: rest[i].diag.source != rest[k].diag.source
    requires forall i | 0 <= i < at :: all[i] == rest[i]
    requires forall i | at <= i < at + n :: all[i].diag.source == source
    requires forall i | at + n <= i < |all| :: all[i] == rest[i - n]
    ensures Grouped(all)
  {
    forall i, j, k | 0 <= i < j < k < |all| && all[i].diag.source == all[k].diag.source
      ensures all[j].diag.source == all[i].diag.source
    {
      SpliceContiguous(source, rest, n, at, i, j, k, all);
    }
    forall i, j | 0 <= i < j < |all| && all[j].diag.source == LINT_SOURCE
      ensures all[i].diag.source == LINT_SOURCE
    {
      SpliceLintFirst(source, rest, n, at, i, j, all);
    }
  }

  lemma SpliceParts(source: string, rest: seq<Marker>, set_: seq<Marker>, at: nat)
    requires AllOf(source, set_) && at <= |rest|
    ensures var all, n := rest[..at] + set_ + rest[at..], |set_|;
      && (forall i | 0 <= i < at :: all[i] == rest[i])
      && (forall i | at <= i < at + n :: all[i].diag.source == source)
      && (forall i | at + n <= i < |all| :: all[i] == rest[i - n])
  {
    var all, n := rest[..at] + set_ + rest[at..], |set_|;
    assert forall i | at <= i < at + n :: all[i] == set_[i - at] && all[i] in set_;
  }

  lemma SpliceLintFirst(source: string, rest: seq<Marker>, n: nat, at: nat, i: nat, j: nat, all: seq<Marker>)
    requires Grouped(rest) && at <= |rest| && |all| == |rest| + n
    requires source == LINT_SOURCE ==> at == 0
    requires forall k | at <= k < |rest| :: rest[k].diag.source != LINT_SOURCE
    requires forall i | 0 <= i < at :: all[i] == rest[i]
    requires forall i | at <= i < at + n :: all[i].diag.source == source
    requires forall i | at + n <= i < |all| :: all[i] == rest[i - n]
    requires i < j < |all| && all[j].diag.source == LINT_SOURCE
    ensures all[i].diag.source == LINT_SOURCE
  {
    assert j < at + n;
  }

  lemma SpliceContiguous(source: string, rest: seq<Marker>, n: nat, at: nat, i: nat, j: nat, k: nat, all: seq<Marker>)
    requires Grouped(rest) && at <= |rest| && |all| == |rest| + n
    requires forall i | 0 <= i < |rest| :: rest[i].diag.source != source
    requires forall i, k | 0 <= i < at <= k < |rest| :: rest[i].diag.source != rest[k].diag.source
    requires forall i | 0 <= i < at :: all[i] == rest[i]
    requires forall i | at <= i < at + n :: all[i].diag.source == source
    requires forall i | at + n <= i < |all| :: all[i] == rest[i - n]
    requires i < j < k < |all| && all[i].diag.source == all[k].diag.source
    ensures all[j].diag.source == all[i].diag.source
  {
    if at <= i < at + n {
      assert k < at + n;
    } else if i < at {
      assert k < at;
    } else {
      assert rest[i - n].diag.source == rest[k - n].diag.source;
    }
  }
}
