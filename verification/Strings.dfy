/** String primitives: trimming, splitting at a character, and decimal numbers. */
module Strings {
  import opened Seqs
  import opened Input

  // ---- Trimming ----

  /** The Unicode property White_Space. */
  predicate IsWhitespace(c: char) {
    var u := c as int;
    || 0x9 <= u <= 0xD || u == 0x20 || u == 0x85 || u == 0xA0 || u == 0x1680 || 0x2000 <= u <= 0x200A
    || u == 0x2028 || u == 0x2029 || u == 0x202F || u == 0x205F || u == 0x3000
  }

  function TrimStart(s: string): (r: string)
    ensures |r| <= |s| && r == s[|s| - |r|..] && (r == [] || !IsWhitespace(r[0]))
    ensures forall i | 0 <= i < |s| - |r| :: IsWhitespace(s[i])
  {
    if s != [] && IsWhitespace(s[0]) then TrimStart(s[1..]) else s
  }

  function TrimEnd(s: string): (r: string)
    ensures |r| <= |s| && r == s[..|r|] && (r == [] || !IsWhitespace(r[|r| - 1]))
    ensures forall i | |r| <= i < |s| :: IsWhitespace(s[i])
  {
    if s != [] && IsWhitespace(s[|s| - 1]) then TrimEnd(s[..|s| - 1]) else s
  }

  function Trim(s: string): string { TrimEnd(TrimStart(s)) }

  /** No whitespace at either end. */
  predicate Tight(s: string) { s == [] || (!IsWhitespace(s[0]) && !IsWhitespace(s[|s| - 1])) }

  lemma TrimStartTakes(s: string)
    ensures var n := |s| - |TrimStart(s)|;
      s == s[..n] + TrimStart(s) && forall i | 0 <= i < n :: IsWhitespace(s[..n][i])
  {
    hide IsWhitespace, TrimStart;
  }

  lemma TrimEndTakes(s: string)
    ensures var n := |TrimEnd(s)|;
      s == TrimEnd(s) + s[n..] && forall i | 0 <= i < |s| - n :: IsWhitespace(s[n..][i])
  {
    hide IsWhitespace, TrimEnd;
  }

  lemma TrimIsTight(s: string)
    ensures Tight(Trim(s))
  {
    hide IsWhitespace, TrimStart, TrimEnd;
    if Trim(s) != [] { assert Trim(s)[0] == TrimStart(s)[0]; }
  }

  predicate Blank(s: string) { forall i | 0 <= i < |s| :: IsWhitespace(s[i]) }

  /** Trimming takes whitespace off both ends, all of it and nothing else. */
  lemma TrimExactly(s: string) returns (front: string, back: string)
    ensures s == front + Trim(s) + back && Blank(front) && Blank(back) && Tight(Trim(s))
  {
    TrimIsTight(s);
    hide Tight, IsWhitespace, TrimStart, TrimEnd;
    var rest := TrimStart(s);
    TrimStartTakes(s);
    TrimEndTakes(rest);
    front, back := s[..|s| - |rest|], rest[|Trim(s)|..];
    assert Blank(front) && Blank(back);
    hide Blank;
    assert front + (Trim(s) + back) == front + Trim(s) + back;
  }

  lemma TrimTight(s: string)
    requires Tight(s)
    ensures Trim(s) == s && Trim([' '] + s) == s
  {
    assert ([' '] + s)[1..] == s;
  }

  // ---- Splitting ----

  /** The pieces between the occurrences of `sep`. */
  function Split(s: string, sep: char): (parts: seq<string>)
    ensures parts != []
  {
    if s == [] then [[]]
    else
      var rest := Split(s[1..], sep);
      if s[0] == sep then [[]] + rest else [[s[0]] + rest[0]] + rest[1..]
  }

  lemma {:induction false} SplitWhole(s: string, sep: char)
    requires sep !in s
    ensures Split(s, sep) == [s]
  {
    if s != [] {
      SplitWhole(s[1..], sep);
      assert [s[0]] + s[1..] == s;
    }
  }

  lemma {:induction false} SplitFirst(a: string, sep: char, b: string)
    requires sep !in a
    ensures Split(a + [sep] + b, sep) == [a] + Split(b, sep)
  {
    var s := a + [sep] + b;
    if a == [] {
      assert s[1..] == b;
    } else {
      SplitFirst(a[1..], sep, b);
      assert s[1..] == a[1..] + [sep] + b;
      assert s[0] == a[0];
      var rest := Split(s[1..], sep);
      assert rest[0] == a[1..] && rest[1..] == Split(b, sep);
      assert [a[0]] + a[1..] == a;
    }
  }

  // ---- Letter case ----

  function Lower(c: char): char { if 'A' <= c <= 'Z' then (c as int + 32) as char else c }

  function Upper(c: char): char { if 'a' <= c <= 'z' then (c as int - 32) as char else c }

  function ToLower(s: string): (r: string)
    ensures |r| == |s| && forall i | 0 <= i < |r| :: r[i] == Lower(s[i])
  {
    seq(|s|, i requires 0 <= i < |s| => Lower(s[i]))
  }

  // ---- Decimal numbers ----

  predicate IsDigits(s: string) { s != [] && forall i | 0 <= i < |s| :: IsDigit(s[i]) }

  function Decimal(s: string): nat
    requires forall i | 0 <= i < |s| :: IsDigit(s[i])
  {
    if s == [] then 0
    else
      assert IsDigit(s[|s| - 1]);
      10 * Decimal(s[..|s| - 1]) + (s[|s| - 1] - '0') as int
  }

  /** `parse` of an unsigned integer type whose largest value is `max`: an optional plus sign and digits. */
  function ParseUnsigned(s: string, max: nat): Option<nat> {
    var digits := if |s| > 1 && s[0] == '+' then s[1..] else s;
    if IsDigits(digits) && Decimal(digits) <= max then Some(Decimal(digits)) else None
  }

  /** A plus sign may stand before the digits, and nothing else. */
  lemma ParsedExactly(s: string, max: nat)
    ensures ParseUnsigned(s, max).Some? <==>
      || (IsDigits(s) && Decimal(s) <= max)
      || (s != [] && s[0] == '+' && IsDigits(s[1..]) && Decimal(s[1..]) <= max)
  {
    hide Decimal;
  }

  function Digits(n: nat): (s: string)
    ensures IsDigits(s)
  {
    var last := ['0' + (n % 10) as char];
    if n < 10 then last else Digits(n / 10) + last
  }

  lemma {:induction false} DecimalOfDigits(n: nat)
    ensures Decimal(Digits(n)) == n
  {
    var s := Digits(n);
    if n < 10 {
      assert s[..0] == [];
      assert Decimal(s[..0]) == 0;
    } else {
      DecimalOfDigits(n / 10);
      assert s[..|s| - 1] == Digits(n / 10);
    }
  }
}
