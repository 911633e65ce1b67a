/** Where a squiggle runs, in characters rather than bytes. */
module DiagSquiggles {
  import opened Seqs
  import opened Texts
  import opened Diag

  /** The characters of a text. */
  function Chars(t: Text): seq<Text> {
    if t == [] then [] else [t[..CharLen(t)]] + Chars(t[CharLen(t)..])
  }

  function Flat(cs: seq<Text>): Text {
    if cs == [] then [] else cs[0] + Flat(cs[1..])
  }

  /** The byte offset of the `k`-th character. */
  function Offset(cs: seq<Text>, k: nat): nat
    requires k <= |cs|
  {
    |Flat(cs[..k])|
  }

  /** The characters in `from..to` are of the class, and the next one is not. */
  predicate RunTo(cls: Text -> bool, cs: seq<Text>, from: nat, to: nat) {
    && from <= to <= |cs|
    && (forall i | from <= i < to :: cls(cs[i]))
    && (to < |cs| ==> !cls(cs[to]))
  }

  lemma {:induction false} CharsAreTheText(t: Text)
    ensures Flat(Chars(t)) == t
  {
    if t != [] {
      var n := CharLen(t);
      CharsAreTheText(t[n..]);
      assert Chars(t)[1..] == Chars(t[n..]);
      assert t == t[..n] + t[n..];
    }
  }

  lemma OffsetCons(c: Text, rest: seq<Text>, k: nat)
    requires 0 < k <= |rest| + 1
    ensures Offset([c] + rest, k) == |c| + Offset(rest, k - 1)
    ensures Offset([c] + rest, 0) == 0
  {
    assert ([c] + rest)[..k][1..] == rest[..k - 1];
  }

  lemma {:induction false} RunIsLongest(cls: Text -> bool, t: Text) returns (k: nat)
    ensures RunTo(cls, Chars(t), 0, k) && LeadingRun(cls, t) == Offset(Chars(t), k)
  {
    if t == [] || !cls(t[..CharLen(t)]) {
      k := 0;
    } else {
      var n := CharLen(t);
      var c, rest := t[..n], Chars(t[n..]);
      var later := RunIsLongest(cls, t[n..]);
      k := later + 1;
      OffsetCons(c, rest, k);
      var cs := [c] + rest;
      assert Chars(t) == cs;
      forall i | 0 <= i < k ensures cls(cs[i]) {
        if i > 0 { assert cs[i] == rest[i - 1]; }
      }
    }
  }

  lemma CharsCons(t: Text)
    requires t != []
    ensures Chars(t) == [t[..CharLen(t)]] + Chars(t[CharLen(t)..])
  {
  }

  lemma NthCharCons(t: Text, n: nat)
    requires t != [] && n > 0
    ensures NthChar(t, n) == CharLen(t) + NthChar(t[CharLen(t)..], n - 1)
    ensures t[NthChar(t, n)..] == t[CharLen(t)..][NthChar(t[CharLen(t)..], n - 1)..]
  {
    hide CharLen;
  }

  lemma FirstChar(t: Text)
    ensures NthChar(t, 0) == 0 && t[0..] == t && Chars(t)[0..] == Chars(t) && Offset(Chars(t), 0) == 0
  {
    hide CharLen;
    assert Chars(t)[..0] == [];
  }

  lemma {:induction false} NthCharInside(t: Text, n: nat)
    requires n <= |Chars(t)|
    ensures NthChar(t, n) == Offset(Chars(t), n) && Chars(t[NthChar(t, n)..]) == Chars(t)[n..]
    decreases n
  {
    hide CharLen, Chars, NthChar, Offset;
    if n == 0 {
      FirstChar(t);
    } else {
      EmptyChars(t);
      CharsCons(t);
      NthCharCons(t, n);
      var c, rest := t[..CharLen(t)], Chars(t[CharLen(t)..]);
      NthCharInside(t[CharLen(t)..], n - 1);
      OffsetCons(c, rest, n);
      assert ([c] + rest)[n..] == rest[n - 1..];
    }
  }

  lemma {:induction false} NthCharPast(t: Text, n: nat)
    requires n >= |Chars(t)|
    ensures NthChar(t, n) == |t|
    decreases n
  {
    hide CharLen, Chars;
    EmptyChars(t);
    if t != [] {
      CharsCons(t);
      NthCharPast(t[CharLen(t)..], n - 1);
    }
  }

  lemma NthCharIsNth(t: Text, n: nat)
    ensures var k := Min(n, |Chars(t)|);
      NthChar(t, n) == Offset(Chars(t), k) && Chars(t[NthChar(t, n)..]) == Chars(t)[k..]
  {
    hide Chars, NthChar, Offset;
    if n <= |Chars(t)| {
      NthCharInside(t, n);
    } else {
      NthCharPast(t, n);
      NthCharPast(t, |Chars(t)|);
      NthCharInside(t, |Chars(t)|);
    }
  }

  lemma {:induction false} FlatConcat(a: seq<Text>, b: seq<Text>)
    ensures Flat(a + b) == Flat(a) + Flat(b)
  {
    if a == [] {
      assert a + b == b;
    } else {
      assert (a + b)[1..] == a[1..] + b;
      FlatConcat(a[1..], b);
    }
  }

  lemma OffsetSplit(cs: seq<Text>, n: nat, k: nat)
    requires n + k <= |cs|
    ensures Offset(cs, n + k) == Offset(cs, n) + Offset(cs[n..], k)
  {
    assert cs[..n + k] == cs[..n] + cs[n..][..k];
    FlatConcat(cs[..n], cs[n..][..k]);
  }

  /** Without a column the squiggle runs from the first character that is not whitespace to the end of the content. */
  lemma SquiggleWithoutColumn(cls: CharClasses, content: Text, column: Option<nat>) returns (k: nat)
    requires column.None? || column.value == 0
    ensures var cs := Chars(content);
      && RunTo(cls.white, cs, 0, k)
      && Squiggle(cls, content, column) == (Offset(cs, k), |content|)
  {
    k := RunIsLongest(cls.white, content);
  }

  lemma FirstOffset(t: Text)
    requires t != []
    ensures |Chars(t)| >= 1 && Offset(Chars(t), 1) == CharLen(t)
  {
    OffsetCons(t[..CharLen(t)], Chars(t[CharLen(t)..]), 1);
    assert Chars(t[CharLen(t)..])[..0] == [];
  }

  /** With a column the squiggle starts at that character and covers the whole word there, or that one character if
      no word starts there; it is empty exactly when the column lies past the content. */
  lemma SquiggleAtColumn(cls: CharClasses, content: Text, column: nat) returns (n: nat, k: nat)
    requires column >= 1
    ensures var cs := Chars(content);
      && n == Min(column - 1, |cs|) && n <= k <= |cs|
      && Squiggle(cls, content, Some(column)) == (Offset(cs, n), Offset(cs, k))
      && (if n == |cs| then k == n
          else if cls.word(cs[n]) then RunTo(cls.word, cs, n, k) && n < k
          else k == n + 1)
  {
    hide LeadingRun, NthChar, Chars, Flat;
    var cs, at := Chars(content), NthChar(content, column - 1);
    n := Min(column - 1, |cs|);
    NthCharIsNth(content, column - 1);
    var tail := content[at..];
    var m := RunIsLongest(cls.word, tail);
    EmptyChars(tail);
    OffsetOfNone(cs[n..]);
    if tail == [] {
      k := n;
    } else {
      FirstOffset(tail);
      var j := if m == 0 then 1 else m;
      k := n + j;
      OffsetSplit(cs, n, j);
      OffsetGrows(tail, j);
      assert forall i | 0 <= i < |cs[n..]| :: cs[n..][i] == cs[n + i];
      assert forall i | n <= i < n + m :: cs[i] == cs[n..][i - n];
    }
  }

  lemma EmptyChars(t: Text)
    ensures Chars(t) == [] <==> t == []
  {
  }

  lemma OffsetOfNone(cs: seq<Text>)
    ensures Offset(cs, 0) == 0
  {
    assert cs[..0] == [];
  }

  /** Every character has a byte. */
  lemma OffsetGrows(t: Text, k: nat)
    requires t != [] && 0 < k <= |Chars(t)|
    ensures Offset(Chars(t), k) > 0
  {
    OffsetCons(t[..CharLen(t)], Chars(t[CharLen(t)..]), k);
  }
}
