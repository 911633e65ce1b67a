/**
 The order of chords and scopes that sorted maps of the source visit: field by field,
 variant by variant. Each value is spelled as numbers, compared lexicographically.
 */
module KeymapOrder {
  import opened Seqs
  import opened Input

  predicate LexLess(a: seq<nat>, b: seq<nat>)
    decreases |a|
  {
    b != [] && (a == [] || a[0] < b[0] || (a[0] == b[0] && LexLess(a[1..], b[1..])))
  }

  lemma {:induction false} LexIrreflexive(a: seq<nat>)
    ensures !LexLess(a, a)
  {
    if a != [] { LexIrreflexive(a[1..]); }
  }

  lemma {:induction false} LexTransitive(a: seq<nat>, b: seq<nat>, c: seq<nat>)
    requires LexLess(a, b) && LexLess(b, c)
    ensures LexLess(a, c)
    decreases |a|
  {
    if a != [] && a[0] == b[0] && b[0] == c[0] { LexTransitive(a[1..], b[1..], c[1..]); }
  }

  lemma {:induction false} LexTotal(a: seq<nat>, b: seq<nat>)
    requires a != b
    ensures LexLess(a, b) || LexLess(b, a)
    decreases |a|
  {
    if a != [] && b != [] && a[0] == b[0] {
      assert a == [a[0]] + a[1..] && b == [b[0]] + b[1..];
      LexTotal(a[1..], b[1..]);
    }
  }

  /** A common front decides nothing. */
  lemma {:induction false} LexSameFront(p: seq<nat>, a: seq<nat>, b: seq<nat>)
    ensures LexLess(p + a, p + b) == LexLess(a, b)
  {
    if p == [] {
      assert p + a == a && p + b == b;
    } else {
      assert (p + a)[1..] == p[1..] + a && (p + b)[1..] == p[1..] + b;
      LexSameFront(p[1..], a, b);
    }
  }

  /** Fronts that differ before either ends decide everything. */
  lemma {:induction false} LexApart(a: seq<nat>, b: seq<nat>, x: seq<nat>, y: seq<nat>)
    requires !(a <= b) && !(b <= a)
    ensures LexLess(a + x, b + y) == LexLess(a, b)
    decreases |a|
  {
    if a[0] == b[0] {
      assert a == [a[0]] + a[1..] && b == [b[0]] + b[1..];
      assert (a + x)[1..] == a[1..] + x && (b + y)[1..] == b[1..] + y;
      LexApart(a[1..], b[1..], x, y);
    }
  }

  // ---- Self-delimiting codes ----

  /** A code whose end is marked, so that it can be followed by another. */
  function Marked(s: seq<nat>): (r: seq<nat>)
    ensures |r| == |s| + 1 && r[|s|] == 0 && forall i | 0 <= i < |s| :: r[i] == s[i] + 1
  {
    seq(|s|, i requires 0 <= i < |s| => s[i] + 1) + [0]
  }

  lemma MarkedPrefix(a: seq<nat>, b: seq<nat>)
    requires Marked(a) <= Marked(b)
    ensures a == b
  {
    var m, n := Marked(a), Marked(b);
    assert n[|a|] == m[|a|] == 0;
    assert |a| == |b|;
    assert forall i | 0 <= i < |a| :: m[i] == n[i];
  }

  lemma MarkedApart(a: seq<nat>, b: seq<nat>)
    requires a != b
    ensures !(Marked(a) <= Marked(b))
  {
    if Marked(a) <= Marked(b) { MarkedPrefix(a, b); }
  }

  lemma {:induction false} MarkedLess(a: seq<nat>, b: seq<nat>)
    ensures LexLess(Marked(a), Marked(b)) == LexLess(a, b)
    decreases |a|
  {
    var m, n := Marked(a), Marked(b);
    if a != [] && b != [] && a[0] == b[0] {
      MarkedLess(a[1..], b[1..]);
      assert m[1..] == Marked(a[1..]) && n[1..] == Marked(b[1..]);
    } else if a == [] && b == [] {
      assert m == [0] && n == [0];
      LexIrreflexive(m);
    }
  }

  // ---- Keys, chords and scopes ----

  function KeyIndex(key: Key): nat {
    match key
    case Character(_) => 0
    case Space => 1
    case Enter => 2
    case Escape => 3
    case Tab => 4
    case Backspace => 5
    case Delete => 6
    case Insert => 7
    case Home => 8
    case End => 9
    case PageUp => 10
    case PageDown => 11
    case ArrowUp => 12
    case ArrowDown => 13
    case ArrowLeft => 14
    case ArrowRight => 15
    case Function(_) => 16
    case Minus => 17
    case Equal => 18
    case Comma => 19
    case Period => 20
    case Slash => 21
    case Backslash => 22
    case Semicolon => 23
    case Quote => 24
    case BracketLeft => 25
    case BracketRight => 26
    case Backquote => 27
  }

  function KeyPayload(key: Key): nat {
    match key
    case Character(c) => c as nat
    case Function(number) => number
    case _ => 0
  }

  function Bit(b: bool): nat { if b then 1 else 0 }

  /** The key, then control, alt, shift and super. */
  function StrokeCode(s: KeyStroke): (r: seq<nat>)
    ensures |r| == 6
  {
    [KeyIndex(s.key), KeyPayload(s.key), Bit(s.modifiers.control), Bit(s.modifiers.alt), Bit(s.modifiers.shift), Bit(s.modifiers.superKey)]
  }

  function ChordCode(strokes: seq<KeyStroke>): seq<nat> {
    if strokes == [] then [] else StrokeCode(strokes[0]) + ChordCode(strokes[1..])
  }

  function NameCode(name: string): (r: seq<nat>)
    ensures |r| == |name| && forall i | 0 <= i < |r| :: r[i] == name[i] as nat
  {
    seq(|name|, i requires 0 <= i < |name| => name[i] as nat)
  }

  function ScopeCode(scope: BindingScope): seq<nat> {
    match scope
    case Global => [0]
    case Modal(name) => [1] + NameCode(name)
    case FocusTag(name) => [2] + NameCode(name)
  }

  lemma KeyIndexInjective(a: Key, b: Key)
    requires KeyIndex(a) == KeyIndex(b) && KeyPayload(a) == KeyPayload(b)
    ensures a == b
  {
  }

  lemma StrokeCodeInjective(a: KeyStroke, b: KeyStroke)
    requires StrokeCode(a) == StrokeCode(b)
    ensures a == b
  {
    hide KeyIndex, KeyPayload;
    var m, n := StrokeCode(a), StrokeCode(b);
    assert m[0] == n[0] && m[1] == n[1] && m[2] == n[2] && m[3] == n[3] && m[4] == n[4] && m[5] == n[5];
    KeyIndexInjective(a.key, b.key);
  }

  lemma {:induction false} ChordCodeInjective(a: seq<KeyStroke>, b: seq<KeyStroke>)
    requires ChordCode(a) == ChordCode(b)
    ensures a == b
    decreases |a|
  {
    hide StrokeCode;
    if a != [] && b != [] {
      assert ChordCode(a)[..6] == StrokeCode(a[0]) && ChordCode(b)[..6] == StrokeCode(b[0]);
      assert ChordCode(a)[6..] == ChordCode(a[1..]) && ChordCode(b)[6..] == ChordCode(b[1..]);
      StrokeCodeInjective(a[0], b[0]);
      ChordCodeInjective(a[1..], b[1..]);
      assert a == [a[0]] + a[1..] && b == [b[0]] + b[1..];
    }
  }

  lemma ScopeCodeInjective(a: BindingScope, b: BindingScope)
    requires ScopeCode(a) == ScopeCode(b)
    ensures a == b
  {
    assert ScopeCode(a)[0] == ScopeCode(b)[0];
    if !a.Global? {
      assert NameCode(a.name) == ScopeCode(a)[1..] == ScopeCode(b)[1..] == NameCode(b.name);
      assert forall i | 0 <= i < |a.name| :: NameCode(a.name)[i] == NameCode(b.name)[i];
      assert a.name == b.name;
    }
  }

  /** Scopes are compared by kind, global before modal before focus tag, and then by name. */
  lemma ScopeOrderByKind(a: BindingScope, b: BindingScope)
    ensures LexLess(ScopeCode(a), ScopeCode(b)) <==>
      match (a, b)
      case (Global, Global) => false
      case (Global, _) => true
      case (_, Global) => false
      case (Modal(_), FocusTag(_)) => true
      case (FocusTag(_), Modal(_)) => false
      case (_, _) => LexLess(NameCode(a.name), NameCode(b.name))
  {
    LexIrreflexive(ScopeCode(a));
    if a.Modal? && b.Modal? { LexSameFront([1], NameCode(a.name), NameCode(b.name)); }
    if a.FocusTag? && b.FocusTag? { LexSameFront([2], NameCode(a.name), NameCode(b.name)); }
  }

  lemma EditingKinds(c: char)
    ensures KeyIndex(Character(c)) < KeyIndex(Space) < KeyIndex(Enter) < KeyIndex(Escape) < KeyIndex(Tab) < KeyIndex(Backspace)
    ensures KeyIndex(Backspace) < KeyIndex(Delete) < KeyIndex(Insert) < KeyIndex(Home)
  {
  }

  lemma MovementKinds(n: nat)
    ensures KeyIndex(Home) < KeyIndex(End) < KeyIndex(PageUp) < KeyIndex(PageDown) < KeyIndex(ArrowUp) < KeyIndex(ArrowDown)
    ensures KeyIndex(ArrowDown) < KeyIndex(ArrowLeft) < KeyIndex(ArrowRight) < KeyIndex(Function(n)) < KeyIndex(Minus)
  {
  }

  lemma SymbolKinds()
    ensures KeyIndex(Minus) < KeyIndex(Equal) < KeyIndex(Comma) < KeyIndex(Period) < KeyIndex(Slash) < KeyIndex(Backslash)
  {
  }

  lemma QuoteKinds()
    ensures KeyIndex(Backslash) < KeyIndex(Semicolon) < KeyIndex(Quote) < KeyIndex(BracketLeft) < KeyIndex(BracketRight)
    ensures KeyIndex(BracketRight) < KeyIndex(Backquote)
  {
  }

  /** Characters and function keys are compared among themselves by what they carry. */
  lemma PayloadOrder(c: char, d: char, m: nat, n: nat)
    ensures KeyIndex(Character(c)) == KeyIndex(Character(d)) && (KeyPayload(Character(c)) < KeyPayload(Character(d)) <==> c < d)
    ensures KeyIndex(Function(m)) == KeyIndex(Function(n)) && (KeyPayload(Function(m)) < KeyPayload(Function(n)) <==> m < n)
  {
  }

  /** Chords are compared stroke by stroke; a chord comes before its extensions. */
  lemma {:induction false} ChordOrderByStroke(a: seq<KeyStroke>, b: seq<KeyStroke>)
    ensures LexLess(ChordCode(a), ChordCode(b)) <==>
      b != [] && (a == [] || LexLess(StrokeCode(a[0]), StrokeCode(b[0]))
                  || (a[0] == b[0] && LexLess(ChordCode(a[1..]), ChordCode(b[1..]))))
  {
    hide StrokeCode;
    if a != [] && b != [] {
      var s, t := StrokeCode(a[0]), StrokeCode(b[0]);
      if a[0] == b[0] {
        LexSameFront(s, ChordCode(a[1..]), ChordCode(b[1..]));
        LexIrreflexive(s);
      } else {
        if s == t { StrokeCodeInjective(a[0], b[0]); }
        LexApart(s, t, ChordCode(a[1..]), ChordCode(b[1..]));
      }
    } else if a == [] && b != [] {
      assert ChordCode(b) != [];
    }
  }

  // ---- Pairs ----

  /** Two codes, compared one after the other. */
  function PairCode(a: seq<nat>, b: seq<nat>): seq<nat> { Marked(a) + Marked(b) }

  lemma PairOrder(a: seq<nat>, b: seq<nat>, c: seq<nat>, d: seq<nat>)
    ensures LexLess(PairCode(a, b), PairCode(c, d)) <==> LexLess(a, c) || (a == c && LexLess(b, d))
  {
    hide Marked;
    if a == c {
      LexSameFront(Marked(a), Marked(b), Marked(d));
      MarkedLess(b, d);
      LexIrreflexive(a);
    } else {
      MarkedApart(a, c);
      MarkedApart(c, a);
      LexApart(Marked(a), Marked(c), Marked(b), Marked(d));
      MarkedLess(a, c);
    }
  }

  lemma PairCodeInjective(a: seq<nat>, b: seq<nat>, c: seq<nat>, d: seq<nat>)
    requires PairCode(a, b) == PairCode(c, d)
    ensures a == c && b == d
  {
    PairOrder(a, b, c, d);
    PairOrder(c, d, a, b);
    LexIrreflexive(PairCode(a, b));
    if a != c { LexTotal(a, c); }
    else if b != d { LexTotal(b, d); }
  }

  /** A finite set whose members have different codes has a first one. */
  lemma {:induction false} FirstExists<T(!new)>(code: T -> seq<nat>, s: set<T>) returns (first: T)
    requires s != {} && forall x, y | x in s && y in s && code(x) == code(y) :: x == y
    ensures first in s && forall y | y in s && y != first :: LexLess(code(first), code(y))
    decreases |s|
  {
    var x :| x in s;
    if s == {x} {
      first := x;
    } else {
      var rest := FirstExists(code, s - {x});
      LexTotal(code(x), code(rest));
      first := if LexLess(code(x), code(rest)) then x else rest;
      forall y | y in s && y != first ensures LexLess(code(first), code(y)) {
        if first == x && y != rest { LexTransitive(code(x), code(rest), code(y)); }
      }
    }
  }
}
