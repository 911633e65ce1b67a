/** The diagnostics of one buffer view: source-tagged sets that follow the text they were located in. */
module Diag {
  import opened Seqs
  import opened Texts
  import Highlight

  const LINT_SOURCE := "lint"

  datatype Range = Range(start: nat, end: nat)
  {
    predicate In(t: Text) { start <= end <= |t| }
  }

  datatype Severity = Error | Warning | Note

  datatype Diagnostic = Diagnostic(
    range: Range, line: nat, severity: Severity, code: string, message: string, hint: Option<string>, source: string)

  datatype DiagItem = DiagItem(
    line: nat, column: Option<nat>, severity: Severity, code: string, message: string, hint: Option<string>)

  /** A diagnostic, the line it covers, and (for specifications) the bytes of that line when it was located. */
  datatype Marker = Marker(diag: Diagnostic, covered: Range, origin: Text)

  // ---- Edits ----

  datatype Bias = StaysBefore | GoesAfter

  /** `map_point` */
  function MapPoint(a: nat, bias: Bias, e: Edit): nat {
    if a < e.offset then a
    else if e.delete == 0 && a > e.offset then a + |e.insert|
    else if a == e.offset then (if bias.StaysBefore? then a else a + |e.insert|)
    else if a < e.offset + e.delete then e.offset
    else a - e.delete + |e.insert|
  }

  /** `map`: a range that never grows. */
  function MapRange(r: Range, e: Edit): Range {
    var s, t := MapPoint(r.start, GoesAfter, e), MapPoint(r.end, StaysBefore, e);
    Range(s, if s <= t then t else s)
  }

  predicate EndsInNewline(t: Text) { t != [] && t[|t| - 1] == NEWLINE }

  predicate Touches(cov: Range, e: Edit) {
    || (e.delete > 0 && e.offset < cov.end && e.offset + e.delete > cov.start)
    || (e.insert != [] && (cov.start < e.offset < cov.end || (e.offset == cov.start && !EndsInNewline(e.insert))))
  }

  function Moved(m: Marker, e: Edit): Marker {
    m.(diag := m.diag.(range := MapRange(m.diag.range, e)), covered := MapRange(m.covered, e))
  }

  function Survivor(m: Marker, e: Edit): seq<Marker> {
    if Touches(m.covered, e) then [] else [Moved(m, e)]
  }

  function AfterEdit(ms: seq<Marker>, e: Edit): seq<Marker> {
    if ms == [] then [] else AfterEdit(ms[..|ms| - 1], e) + Survivor(ms[|ms| - 1], e)
  }

  function AfterEdits(ms: seq<Marker>, edits: seq<Edit>): seq<Marker> {
    if edits == [] then ms else AfterEdit(AfterEdits(ms, edits[..|edits| - 1]), edits[|edits| - 1])
  }

  /** `apply_delta` */
  function AfterDelta(ms: seq<Marker>, d: Highlight.ViewDelta): seq<Marker> {
    if d.kind == Highlight.Resync then [] else AfterEdits(ms, d.edits)
  }

  function AfterDeltas(ms: seq<Marker>, ds: seq<Highlight.ViewDelta>): seq<Marker> {
    if ds == [] then ms else AfterDelta(AfterDeltas(ms, ds[..|ds| - 1]), ds[|ds| - 1])
  }

  // ---- Locating ----

  /** The position of the `n`-th newline, counting from 0. */
  function NthNewline(t: Text, from: nat, n: nat): (r: Option<nat>)
    requires from <= |t|
    ensures r.Some? ==> from <= r.value < |t| && t[r.value] == NEWLINE
    decreases |t| - from
  {
    if from == |t| then None
    else if t[from] != NEWLINE then NthNewline(t, from + 1, n)
    else if n == 0 then Some(from)
    else NthNewline(t, from + 1, n - 1)
  }

  /** The Unicode classes a squiggle depends on, of one encoded character: whitespace, and alphanumeric or `_$.`. */
  datatype CharClasses = CharClasses(white: Text -> bool, word: Text -> bool)

  predicate IsContinuation(b: Byte) { 128 <= b < 192 }

  function Continuations(t: Text): (n: nat)
    ensures n <= |t|
  {
    if t == [] || !IsContinuation(t[0]) then 0 else 1 + Continuations(t[1..])
  }

  /** The length of the first character: its lead byte and the continuation bytes after it. */
  function CharLen(t: Text): (n: nat)
    requires t != []
    ensures 1 <= n <= |t|
  {
    1 + Continuations(t[1..])
  }

  /** The length of the run of characters of a class at the front. */
  function LeadingRun(cls: Text -> bool, t: Text): (n: nat)
    ensures n <= |t|
  {
    if t == [] || !cls(t[..CharLen(t)]) then 0 else CharLen(t) + LeadingRun(cls, t[CharLen(t)..])
  }

  /** The offset of the `n`-th character, or the end. */
  function NthChar(t: Text, n: nat): (at: nat)
    ensures at <= |t|
    decreases n
  {
    if t == [] || n == 0 then 0 else CharLen(t) + NthChar(t[CharLen(t)..], n - 1)
  }

  /** Past the indentation without a column; with one, the word there or else one character. */
  function Squiggle(cls: CharClasses, content: Text, column: Option<nat>): (r: (nat, nat))
    ensures r.0 <= r.1 <= |content|
  {
    if column.None? || column.value == 0 then (LeadingRun(cls.white, content), |content|)
    else
      var at := NthChar(content, column.value - 1);
      var word := LeadingRun(cls.word, content[at..]);
      (at, at + if word > 0 then word else if content[at..] == [] then 0 else CharLen(content[at..]))
  }

  function TrimCarriageReturns(t: Text): (r: Text)
    ensures |r| <= |t| && r == t[..|r|]
    ensures (forall i | |r| <= i < |t| :: t[i] == 13) && (r == [] || r[|r| - 1] != 13)
  {
    if t != [] && t[|t| - 1] == 13 then TrimCarriageReturns(t[..|t| - 1]) else t
  }

  /** `locate`: the covered line with its newline, and the squiggle. */
  function Locate(cls: CharClasses, t: Text, line: nat, column: Option<nat>): Option<(Range, Range)>
    requires line >= 1
  {
    var before := if line == 1 then Some(0) else match NthNewline(t, 0, line - 2) case None => None case Some(i) => Some(i + 1);
    if before.None? then None
    else
      var start: nat := before.value;
      var end := match NthNewline(t, start, 0) case None => |t| case Some(i) => i;
      var (from, to) := Squiggle(cls, TrimCarriageReturns(t[start..end]), column);
      Some((Range(start, if end + 1 <= |t| then end + 1 else |t|), Range(start + from, start + to)))
  }

  function Located(cls: CharClasses, source: string, t: Text, item: DiagItem): (r: seq<Marker>) {
    var line := if item.line >= 1 then item.line else 1;
    match Locate(cls, t, line, item.column)
    case None => []
    case Some((covered, range)) =>
      [Marker(Diagnostic(range, line, item.severity, item.code, item.message, item.hint, source), covered,
              if covered.In(t) then t[covered.start..covered.end] else [])]
  }

  function LocatedAll(cls: CharClasses, source: string, t: Text, items: seq<DiagItem>): seq<Marker> {
    if items == [] then []
    else LocatedAll(cls, source, t, items[..|items| - 1]) + Located(cls, source, t, items[|items| - 1])
  }

  // ---- Replacing one source's set ----

  function Others(source: string, ms: seq<Marker>): seq<Marker> {
    Filter((m: Marker) => m.diag.source != source, ms)
  }

  function Of(source: string, ms: seq<Marker>): seq<Marker> {
    Filter((m: Marker) => m.diag.source == source, ms)
  }

  /** Where `source`'s set goes. */
  function Slot(source: string, ms: seq<Marker>): (at: nat)
    ensures at <= |ms|
    ensures forall i | 0 <= i < at :: ms[i].diag.source != source || source == LINT_SOURCE
  {
    if source == LINT_SOURCE then 0
    else match Position((m: Marker) => m.diag.source == source, ms)
      case None => assert forall i | 0 <= i < |ms| :: ms[i] in ms; |ms|
      case Some(i) => i
  }

  lemma OthersPush(source: string, ms: seq<Marker>, m: Marker)
    ensures Others(source, ms + [m]) == Others(source, ms) + if m.diag.source != source then [m] else []
  {
    FilterConcat((m: Marker) => m.diag.source != source, ms, [m]);
    assert [m][1..] == [];
  }

  lemma OthersNone(source: string)
    ensures Others(source, []) == []
  {
  }

  /** Nothing of `source` stands before its slot, so removing the set does not move the slot. */
  lemma SlotSurvives(source: string, ms: seq<Marker>)
    ensures var at := Slot(source, ms); at <= |Others(source, ms)| && Others(source, ms)[..at] == ms[..at]
  {
    var at := Slot(source, ms);
    assert ms == ms[..at] + ms[at..];
    FilterConcat((m: Marker) => m.diag.source != source, ms[..at], ms[at..]);
    FilterAll((m: Marker) => m.diag.source != source, ms[..at]);
  }

  function Replaced(source: string, ms: seq<Marker>, set_: seq<Marker>): seq<Marker>
  {
    SlotSurvives(source, ms);
    var at, rest := Slot(source, ms), Others(source, ms);
    rest[..at] + set_ + rest[at..]
  }

  /** `replace` */
  function AfterReplace(cls: CharClasses, ms: seq<Marker>, source: string, t: Text, items: seq<DiagItem>, ds: seq<Highlight.ViewDelta>): seq<Marker> {
    Replaced(source, ms, AfterDeltas(LocatedAll(cls, source, t, items), ds))
  }

  /** `check_tag` */
  predicate Stale(current: Highlight.ResultTag, tag: Highlight.ResultTag) {
    !current.SameSource(tag) || tag.viewGen > current.viewGen
  }

  // ---- The mutable lists ----

  ghost function Zip(items: seq<Diagnostic>, covered: seq<Range>, origins: seq<Text>): (r: seq<Marker>)
    requires |items| == |covered| == |origins|
    ensures |r| == |items|
    ensures forall i | 0 <= i < |r| :: r[i] == Marker(items[i], covered[i], origins[i])
  {
    seq(|items|, i requires 0 <= i < |items| => Marker(items[i], covered[i], origins[i]))
  }

  class Diagnostics {
    var items: seq<Diagnostic>
    var covered: seq<Range>
    ghost var origins: seq<Text>

    ghost predicate Valid()
      reads this
    {
      |items| == |covered| == |origins|
    }

    ghost function Value(): seq<Marker>
      reads this
      requires Valid()
    {
      Zip(items, covered, origins)
    }

    constructor ()
      ensures Valid() && Value() == []
    {
      items, covered, origins := [], [], [];
    }

    method Push(item: Diagnostic, cov: Range, ghost origin: Text)
      requires Valid()
      modifies this
      ensures Valid() && Value() == old(Value()) + [Marker(item, cov, origin)]
    {
      items, covered, origins := items + [item], covered + [cov], origins + [origin];
    }

    /** One edit step of `apply_delta`. */
    method ApplyEdit(e: Edit)
      requires Valid()
      modifies this
      ensures Valid() && Value() == AfterEdit(old(Value()), e)
    {
      hide Touches, MapRange;
      var items', covered' := items, covered;
      ghost var origins', was := origins, Value();
      items, covered, origins := [], [], [];
      for i := 0 to |items'|
        invariant Valid() && Value() == AfterEdit(was[..i], e)
      {
        assert was[..i + 1][..i] == was[..i];
        assert was[i] == Marker(items'[i], covered'[i], origins'[i]);
        if !Touches(covered'[i], e) {
          var item := items'[i].(range := MapRange(items'[i].range, e));
          Push(item, MapRange(covered'[i], e), origins'[i]);
        }
      }
      assert was[..|was|] == was;
    }

    method ApplyDelta(d: Highlight.ViewDelta)
      requires Valid()
      modifies this
      ensures Valid() && Value() == AfterDelta(old(Value()), d)
    {
      hide AfterEdit;
      if d.kind == Highlight.Resync {
        items, covered, origins := [], [], [];
        return;
      }
      for i := 0 to |d.edits|
        invariant Valid() && Value() == AfterEdits(old(Value()), d.edits[..i])
      {
        assert d.edits[..i + 1][..i] == d.edits[..i];
        ApplyEdit(d.edits[i]);
      }
      assert d.edits[..|d.edits|] == d.edits;
    }

    /** The first half of `replace`, on a new list: locate the items, then map them through the deltas. */
    method Gather(cls: CharClasses, source: string, text: Text, found: seq<DiagItem>, ds: seq<Highlight.ViewDelta>)
      requires Valid() && Value() == []
      modifies this
      ensures Valid() && Value() == AfterDeltas(LocatedAll(cls, source, text, found), ds)
    {
      hide Locate, AfterDelta;
      for i := 0 to |found|
        invariant Valid() && Value() == LocatedAll(cls, source, text, found[..i])
      {
        assert found[..i + 1][..i] == found[..i];
        var line := if found[i].line >= 1 then found[i].line else 1;
        var place := Locate(cls, text, line, found[i].column);
        if place.Some? {
          var (cov, range) := place.value;
          Push(Diagnostic(range, line, found[i].severity, found[i].code, found[i].message, found[i].hint, source), cov,
               if cov.In(text) then text[cov.start..cov.end] else []);
        }
      }
      assert found[..|found|] == found;
      for i := 0 to |ds|
        invariant Valid() && Value() == AfterDeltas(LocatedAll(cls, source, text, found), ds[..i])
      {
        assert ds[..i + 1][..i] == ds[..i];
        ApplyDelta(ds[i]);
      }
      assert ds[..|ds|] == ds;
    }

    /** The filter of `replace`: every item of another source, in order. */
    method KeepOthers(source: string)
      requires Valid()
      modifies this
      ensures Valid() && Value() == Others(source, old(Value()))
    {
      hide Others, Zip;
      var items', covered' := items, covered;
      ghost var origins', was := origins, Value();
      items, covered, origins := [], [], [];
      OthersNone(source);
      for i := 0 to |items'|
        invariant Valid() && Value() == Others(source, was[..i])
      {
        assert was[..i + 1] == was[..i] + [was[i]];
        OthersPush(source, was[..i], was[i]);
        if items'[i].source != source { Push(items'[i], covered'[i], origins'[i]); }
      }
      assert was[..|was|] == was;
    }

    method FindSlot(source: string) returns (at: nat)
      requires Valid()
      ensures at == Slot(source, Value())
    {
      if source == LINT_SOURCE { return 0; }
      at := 0;
      while at < |items| && items[at].source != source
        invariant at <= |items|
        invariant forall i | 0 <= i < at :: Value()[i].diag.source != source
      {
        at := at + 1;
      }
      assert at < |items| ==> Value()[at].diag.source == source && Value()[at] in Value();
    }

    method Replace(cls: CharClasses, source: string, text: Text, found: seq<DiagItem>, ds: seq<Highlight.ViewDelta>)
      requires Valid()
      modifies this
      ensures Valid() && Value() == AfterReplace(cls, old(Value()), source, text, found, ds)
    {
      hide LocatedAll, AfterDeltas, Slot, Others, Zip;
      var next := new Diagnostics();
      next.Gather(cls, source, text, found, ds);
      var at := FindSlot(source);
      SlotSurvives(source, Value());
      assert |Others(source, Value())| >= at;
      KeepOthers(source);
      Splice(at, next);
    }

    method Splice(at: nat, next: Diagnostics)
      requires Valid() && next.Valid() && next != this && at <= |items|
      modifies this
      ensures Valid() && Value() == old(Value())[..at] + old(next.Value()) + old(Value())[at..]
    {
      items := items[..at] + next.items + items[at..];
      covered := covered[..at] + next.covered + covered[at..];
      origins := origins[..at] + next.origins + origins[at..];
    }

    /** `accept_items`: a stale result changes nothing. */
    method AcceptItems(cls: CharClasses, source: string, current: Highlight.ResultTag, tag: Highlight.ResultTag, text: Text, found: seq<DiagItem>, ds: seq<Highlight.ViewDelta>)
      returns (accepted: bool)
      requires Valid()
      modifies this
      ensures Valid()
      ensures accepted == !Stale(current, tag)
      ensures Value() == if accepted then AfterReplace(cls, old(Value()), source, text, found, ds) else old(Value())
    {
      if Stale(current, tag) { return false; }
      Replace(cls, source, text, found, ds);
      accepted := true;
    }
  }
}
