/** Buffer texts as bytes, their line index, and sequential edits. */
module Texts {
  import opened Seqs

  type Byte = n: nat | n < 256
  type Text = seq<Byte>

  const NEWLINE: Byte := 10

  function Newlines(t: Text): nat {
    if t == [] then 0 else Newlines(t[..|t| - 1]) + (if t[|t| - 1] == NEWLINE then 1 else 0)
  }

  /** The line index: offset 0 and the offset after every newline. */
  function LineStarts(t: Text): (r: seq<nat>)
    ensures |r| == Newlines(t) + 1
    ensures forall i | 0 <= i < |r| :: r[i] <= |t|
    ensures forall i | 1 <= i < |r| :: r[i] > 0
  {
    if t == [] then [0]
    else LineStarts(t[..|t| - 1]) + (if t[|t| - 1] == NEWLINE then [|t|] else [])
  }

  function LineCount(t: Text): nat { |LineStarts(t)| }

  /** Byte range of a 1-based line, without its newline. */
  function LineRange(t: Text, line: nat): Option<(nat, nat)> {
    var starts := LineStarts(t);
    if line == 0 || line > |starts| then None
    else if line < |starts| then Some((starts[line - 1], starts[line] - 1))
    else Some((starts[line - 1], |t|))
  }

  lemma {:induction false} NewlinesGrow(t: Text, p: nat, q: nat)
    requires p <= q <= |t|
    ensures Newlines(t[..p]) <= Newlines(t[..q])
    decreases q
  {
    if p < q {
      NewlinesGrow(t, p, q - 1);
      assert t[..q][..q - 1] == t[..q - 1];
    }
  }

  /** The `i`-th line starts at or before `offset` iff at least `i` newlines precede `offset`. */
  lemma {:induction false} StartsCountNewlines(t: Text, offset: nat, i: nat)
    requires offset <= |t| && i < LineCount(t)
    ensures LineStarts(t)[i] <= offset <==> i <= Newlines(t[..offset])
  {
    if offset == |t| {
      assert t[..offset] == t;
    } else {
      var shorter := t[..|t| - 1];
      assert shorter[..offset] == t[..offset];
      if i < LineCount(shorter) {
        StartsCountNewlines(shorter, offset, i);
      } else {
        NewlinesGrow(shorter, offset, |shorter|);
        assert shorter[..|shorter|] == shorter;
      }
    }
  }

  /** `line_of`: bisecting the line index counts the newlines before the offset. */
  method LineOf(t: Text, offset: nat) returns (line: nat)
    requires offset <= |t|
    ensures line == Newlines(t[..offset]) + 1
  {
    var starts := LineStarts(t);
    NewlinesGrow(t, offset, |t|);
    assert t[..|t|] == t;
    var lo, hi := 1, if |starts| < 1 then 1 else |starts|;
    while lo < hi
      invariant 1 <= lo <= hi <= |starts|
      invariant lo <= Newlines(t[..offset]) + 1 <= hi
      decreases hi - lo
    {
      var mid := (lo + hi + 1) / 2;
      StartsCountNewlines(t, offset, mid - 1);
      if starts[mid - 1] <= offset { lo := mid; } else { hi := mid - 1; }
    }
    line := lo;
  }

  // ---- Slices ----

  lemma SliceOfFront(x: Text, y: Text, a: nat, b: nat)
    requires a <= b <= |x|
    ensures (x + y)[a..b] == x[a..b]
  {
  }

  lemma SliceOfBack(x: Text, y: Text, a: nat, b: nat)
    requires a <= b <= |y|
    ensures (x + y)[|x| + a..|x| + b] == y[a..b]
  {
  }

  lemma SliceOfPrefix(t: Text, n: nat, a: nat, b: nat)
    requires a <= b <= n <= |t|
    ensures t[..n][a..b] == t[a..b]
  {
  }

  lemma SliceOfSuffix(t: Text, n: nat, a: nat, b: nat)
    requires n + a <= n + b <= |t|
    ensures t[n..][a..b] == t[n + a..n + b]
  {
  }

  // ---- Edits ----

  /** One step of a delta; its offset counts in the text it is applied to. */
  datatype Edit = Edit(offset: nat, delete: nat, insert: Text)

  predicate Applicable(t: Text, e: Edit) { e.offset + e.delete <= |t| }

  function ApplyEdit(t: Text, e: Edit): Text
    requires Applicable(t, e)
  {
    t[..e.offset] + e.insert + t[e.offset + e.delete..]
  }

  predicate AllApplicable(t: Text, edits: seq<Edit>)
    decreases |edits|
  {
    edits == [] || (Applicable(t, edits[0]) && AllApplicable(ApplyEdit(t, edits[0]), edits[1..]))
  }

  function ApplyEdits(t: Text, edits: seq<Edit>): Text
    requires AllApplicable(t, edits)
    decreases |edits|
  {
    if edits == [] then t else ApplyEdits(ApplyEdit(t, edits[0]), edits[1..])
  }

  /** A prefix that no step reaches into is still there after all of them. */
  lemma {:induction false} EditsKeepPrefix(t: Text, edits: seq<Edit>, p: nat)
    requires AllApplicable(t, edits) && p <= |t|
    requires forall i | 0 <= i < |edits| :: p <= edits[i].offset
    ensures p <= |ApplyEdits(t, edits)| && ApplyEdits(t, edits)[..p] == t[..p]
    decreases |edits|
  {
    if edits != [] {
      var t' := ApplyEdit(t, edits[0]);
      assert t'[..p] == t[..p];
      EditsKeepPrefix(t', edits[1..], p);
    }
  }

  // ---- Shared lines ----

  datatype Lines = AllLines | Before(line: nat)
  {
    predicate Has(l: nat) { AllLines? || l < line }

    function Meet(other: Lines): Lines {
      match (this, other)
      case (AllLines, _) => other
      case (_, AllLines) => this
      case (Before(a), Before(b)) => if a <= b then this else other
    }
  }

  /** The texts agree on a prefix that contains every line of `lines`. */
  ghost predicate Share(t: Text, u: Text, lines: Lines) {
    match lines
    case AllLines => t == u
    case Before(line) => exists p: nat :: SharePrefix(t, u, p) && line <= Newlines(t[..p]) + 1
  }

  predicate SharePrefix(t: Text, u: Text, p: nat) {
    p <= |t| && p <= |u| && t[..p] == u[..p]
  }

  lemma ShareTrans(t: Text, u: Text, v: Text, a: Lines, b: Lines)
    requires Share(t, u, a) && Share(u, v, b)
    ensures Share(t, v, a.Meet(b))
  {
    if a.Before? && b.Before? {
      var p: nat :| SharePrefix(t, u, p) && a.line <= Newlines(t[..p]) + 1;
      var q: nat :| SharePrefix(u, v, q) && b.line <= Newlines(u[..q]) + 1;
      var r := if p <= q then p else q;
      assert t[..r] == t[..p][..r] == u[..p][..r] == u[..r] == u[..q][..r] == v[..q][..r] == v[..r];
      assert SharePrefix(t, v, r);
    }
  }

  /** Lines start and end where their newlines put them, so a shared prefix shares its whole lines. */
  lemma {:induction false} PrefixStarts(t: Text, p: nat, i: nat)
    requires p <= |t| && i < LineCount(t[..p])
    ensures i < LineCount(t) && LineStarts(t)[i] == LineStarts(t[..p])[i]
    decreases |t|
  {
    if p == |t| {
      assert t[..p] == t;
    } else {
      assert t[..|t| - 1][..p] == t[..p];
      PrefixStarts(t[..|t| - 1], p, i);
    }
  }

  /** A line of the shared part has the same range in both texts, and the same bytes up to and including its end. */
  lemma SharedLine(t: Text, u: Text, lines: Lines, l: nat)
    requires Share(t, u, lines) && lines.Has(l) && LineRange(u, l).Some?
    ensures LineRange(t, l) == LineRange(u, l)
    ensures var end := LineRange(u, l).value.1; end <= |t| && end <= |u| && t[..end] == u[..end]
  {
    if lines.Before? {
      var p: nat :| SharePrefix(t, u, p) && lines.line <= Newlines(t[..p]) + 1;
      PrefixStarts(t, p, l - 1);
      PrefixStarts(u, p, l - 1);
      PrefixStarts(t, p, l);
      PrefixStarts(u, p, l);
      var end := LineRange(u, l).value.1;
      assert t[..end] == t[..p][..end] && u[..end] == u[..p][..end];
    } else {
      RangeInText(u, l);
    }
  }

  lemma RangeInText(t: Text, l: nat)
    requires LineRange(t, l).Some?
    ensures LineRange(t, l).value.1 <= |t|
  {
  }
}
