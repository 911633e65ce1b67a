/** The percent-encoded name header of an upload. */
module NameHeader {
  import opened Seqs
  import opened Lane

  const NAME_LIMIT := 1024
  const PERCENT: Byte := 37

  predicate IsUnreserved(b: Byte) {
    48 <= b <= 57 || 65 <= b <= 90 || 97 <= b <= 122 || b == 45 || b == 46 || b == 95 || b == 126
  }

  /** `to_digit(16)` */
  function HexValue(b: Byte): Option<nat> {
    if 48 <= b <= 57 then Some(b - 48)
    else if 65 <= b <= 70 then Some(b - 55)
    else if 97 <= b <= 102 then Some(b - 87)
    else None
  }

  function HexDigit(n: nat): Byte
    requires n < 16
  {
    if n < 10 then 48 + n else 55 + n
  }

  function EncodeByte(b: Byte): Bytes {
    if IsUnreserved(b) then [b] else [PERCENT, HexDigit(b / 16), HexDigit(b % 16)]
  }

  /** `encoded_name` */
  function Encoded(name: Bytes): Bytes {
    if name == [] then [] else Encoded(name[..|name| - 1]) + EncodeByte(name[|name| - 1])
  }

  method EncodedName(name: Bytes) returns (out: Bytes)
    ensures out == Encoded(name)
  {
    out := [];
    for i := 0 to |name|
      invariant out == Encoded(name[..i])
    {
      assert name[..i + 1][..i] == name[..i];
      if IsUnreserved(name[i]) { out := out + [name[i]]; }
      else { out := out + [PERCENT, HexDigit(name[i] / 16), HexDigit(name[i] % 16)]; }
    }
    assert name[..|name|] == name;
  }

  /** The decoding of `value`, or `None` when a percent sign is not followed by two hex digits. */
  function Decoded(value: Bytes): Option<Bytes> {
    if value == [] then Some([])
    else if value[0] != PERCENT then Prepend(value[0], Decoded(value[1..]))
    else if |value| < 3 || HexValue(value[1]).None? || HexValue(value[2]).None? then None
    else Prepend(HexValue(value[1]).value * 16 + HexValue(value[2]).value, Decoded(value[3..]))
  }

  function Prepend(b: Byte, rest: Option<Bytes>): Option<Bytes> {
    match rest
    case None => None
    case Some(bytes) => Some([b] + bytes)
  }

  function Joined(out: Bytes, rest: Option<Bytes>): Option<Bytes> {
    match rest
    case None => None
    case Some(bytes) => Some(out + bytes)
  }

  lemma JoinedPrepend(out: Bytes, b: Byte, rest: Option<Bytes>)
    ensures Joined(out, Prepend(b, rest)) == Joined(out + [b], rest)
  {
    if rest.Some? { assert out + ([b] + rest.value) == out + [b] + rest.value; }
  }

  method DecodedName(value: Bytes) returns (r: Option<Bytes>)
    ensures r == Decoded(value)
  {
    var out: Bytes, i: nat := [], 0;
    assert value[0..] == value;
    assert Decoded(value).Some? ==> [] + Decoded(value).value == Decoded(value).value;
    while i < |value|
      invariant 0 <= i <= |value|
      invariant Decoded(value) == Joined(out, Decoded(value[i..]))
    {
      var rest := value[i..];
      var byte := value[i];
      i := i + 1;
      assert rest[1..] == value[i..];
      if byte == PERCENT {
        if i >= |value| || HexValue(value[i]).None? { return None; }
        var hi := HexValue(value[i]).value;
        i := i + 1;
        if i >= |value| || HexValue(value[i]).None? { return None; }
        var lo := HexValue(value[i]).value;
        i := i + 1;
        assert rest[3..] == value[i..] && rest[1] == value[i - 2] && rest[2] == value[i - 1];
        JoinedPrepend(out, hi * 16 + lo, Decoded(value[i..]));
        out := out + [hi * 16 + lo];
      } else {
        JoinedPrepend(out, byte, Decoded(value[i..]));
        out := out + [byte];
      }
    }
    assert out + [] == out;
    r := Some(out);
  }

  // ---- The header ----

  /** A name the upload accepts. `utf8` and `control` stand for the string checks on decoded bytes. */
  predicate Acceptable(utf8: Bytes -> bool, control: Bytes -> bool, name: Bytes) {
    utf8(name) && 1 <= |name| <= NAME_LIMIT && !control(name)
  }

  /** Header text: visible ASCII, spaces and tabs. */
  predicate Visible(value: Bytes) { forall i | 0 <= i < |value| :: 32 <= value[i] < 127 || value[i] == 9 }

  datatype Header = Absent | Invalid | Present(name: Bytes)

  /** `string_header` for the name header, given the values the request carries. */
  function ReadHeader(utf8: Bytes -> bool, control: Bytes -> bool, values: seq<Bytes>): Header {
    if values == [] then Absent
    else if |values| > 1 || !Visible(values[0]) then Invalid
    else match Decoded(values[0])
      case None => Invalid
      case Some(name) => if Acceptable(utf8, control, name) then Present(name) else Invalid
  }

  // ---- Properties ----

  lemma HexRoundTrip(n: nat)
    requires n < 16
    ensures HexValue(HexDigit(n)) == Some(n)
  {
  }

  lemma {:induction false} DecodeAppend(a: Bytes, b: Bytes)
    requires Decoded(a).Some?
    ensures Decoded(a + b) == Joined(Decoded(a).value, Decoded(b))
    decreases |a|
  {
    if a == [] {
      assert a + b == b;
      assert Decoded(b).Some? ==> [] + Decoded(b).value == Decoded(b).value;
    } else {
      var n := if a[0] == PERCENT then 3 else 1;
      assert (a + b)[n..] == a[n..] + b;
      DecodeAppend(a[n..], b);
      var rest := Decoded(a[n..]).value;
      assert Decoded(b).Some? ==> forall x: Byte :: [x] + (rest + Decoded(b).value) == [x] + rest + Decoded(b).value;
    }
  }

  lemma DecodeByte(b: Byte)
    ensures Decoded(EncodeByte(b)) == Some([b])
  {
    HexRoundTrip(b / 16);
    HexRoundTrip(b % 16);
    var e := EncodeByte(b);
    assert e[|e|..] == [];
    assert Decoded([]) == Some([]);
    assert b / 16 * 16 + b % 16 == b;
    if IsUnreserved(b) { assert e[1..] == []; } else { assert e[3..] == []; }
    assert [b] + [] == [b];
  }

  /** Decoding an encoded name gives back its bytes, whatever they are. */
  lemma {:induction false} NameRoundTrip(name: Bytes)
    ensures Decoded(Encoded(name)) == Some(name)
  {
    hide EncodeByte, Decoded;
    if name == [] {
      DecodeNothing();
    } else {
      var n := |name| - 1;
      NameRoundTrip(name[..n]);
      DecodeAppend(Encoded(name[..n]), EncodeByte(name[n]));
      DecodeByte(name[n]);
      assert name == name[..n] + [name[n]];
    }
  }

  lemma DecodeNothing()
    ensures Decoded([]) == Some([])
  {
  }

  /** Every percent sign is followed by two hex digits. */
  predicate WellEscaped(value: Bytes) {
    forall i | 0 <= i < |value| && value[i] == PERCENT ::
      i + 2 < |value| && HexValue(value[i + 1]).Some? && HexValue(value[i + 2]).Some?
  }

  lemma WellEscapedTail(value: Bytes, n: nat)
    requires n <= |value| && forall i | 0 <= i < n :: value[i] != PERCENT || (i == 0 && n == 3)
    requires n == 3 ==> value[0] == PERCENT && HexValue(value[1]).Some? && HexValue(value[2]).Some?
    ensures WellEscaped(value) <==> WellEscaped(value[n..])
  {
    hide HexValue;
    var rest := value[n..];
    assert forall i | 0 <= i < |rest| :: rest[i] == value[n + i];
    if WellEscaped(rest) {
      forall i | 0 <= i < |value| && value[i] == PERCENT
        ensures i + 2 < |value| && HexValue(value[i + 1]).Some? && HexValue(value[i + 2]).Some?
      {
        if i >= n { assert rest[i - n] == PERCENT; }
      }
    }
    if WellEscaped(value) {
      forall i | 0 <= i < |rest| && rest[i] == PERCENT
        ensures i + 2 < |rest| && HexValue(rest[i + 1]).Some? && HexValue(rest[i + 2]).Some?
      {
        assert value[n + i] == PERCENT;
      }
    }
  }

  lemma PercentIsNoDigit()
    ensures HexValue(PERCENT).None?
  {
  }

  /** A value decodes iff every percent sign in it is followed by two hex digits. */
  lemma {:induction false} DecodesExactly(value: Bytes)
    ensures Decoded(value).Some? <==> WellEscaped(value)
    decreases |value|
  {
    hide HexValue;
    PercentIsNoDigit();
    if value != [] {
      if value[0] != PERCENT {
        DecodesExactly(value[1..]);
        WellEscapedTail(value, 1);
      } else if |value| >= 3 && HexValue(value[1]).Some? && HexValue(value[2]).Some? {
        DecodesExactly(value[3..]);
        WellEscapedTail(value, 3);
      }
    }
  }

  /** Hex digits count in either letter case. */
  lemma HexDigitsExactly(b: Byte, n: nat)
    requires n < 16
    ensures HexValue(b) == Some(n) <==> b == HexDigit(n) || (n >= 10 && b == HexDigit(n) + 32)
  {
  }

  /** What has no percent sign stands for itself, a plus sign included. */
  lemma {:induction false} PlainStandsForItself(value: Bytes)
    requires PERCENT !in value
    ensures Decoded(value) == Some(value)
  {
    if value != [] {
      PlainStandsForItself(value[1..]);
      assert value == [value[0]] + value[1..];
    }
  }

  /** The encoded form is made of unreserved characters and percent signs only. */
  lemma {:induction false} EncodedIsSafe(name: Bytes)
    ensures forall i | 0 <= i < |Encoded(name)| :: IsUnreserved(Encoded(name)[i]) || Encoded(name)[i] == PERCENT
    ensures |name| <= |Encoded(name)| <= 3 * |name|
  {
    hide IsUnreserved, EncodeByte;
    if name != [] {
      EncodedIsSafe(name[..|name| - 1]);
      ByteIsSafe(name[|name| - 1]);
    }
  }

  lemma ByteIsSafe(b: Byte)
    ensures forall i | 0 <= i < |EncodeByte(b)| :: IsUnreserved(EncodeByte(b)[i]) || EncodeByte(b)[i] == PERCENT
    ensures 1 <= |EncodeByte(b)| <= 3
  {
  }

  /** A name is read iff the request carries exactly one value, of visible text, well escaped, for an acceptable name;
      no value is no name, and anything else is refused. */
  lemma HeaderReadExactly(utf8: Bytes -> bool, control: Bytes -> bool, values: seq<Bytes>)
    ensures var h := ReadHeader(utf8, control, values);
      && (h.Absent? <==> |values| == 0)
      && (h.Present? <==>
          && |values| == 1 && (forall i | 0 <= i < |values[0]| :: 32 <= values[0][i] < 127 || values[0][i] == 9)
          && WellEscaped(values[0])
          && var name := Decoded(values[0]); name.Some? && utf8(name.value) && 1 <= |name.value| <= 1024 && !control(name.value))
      && (h.Present? ==> Decoded(values[0]) == Some(h.name))
  {
    hide WellEscaped, Decoded;
    if |values| == 1 { DecodesExactly(values[0]); }
  }

  /** The header the server writes for a name is read back as that name exactly when the name is acceptable. */
  lemma HeaderRoundTrip(utf8: Bytes -> bool, control: Bytes -> bool, name: Bytes)
    ensures ReadHeader(utf8, control, [Encoded(name)]) == Present(name) <==> Acceptable(utf8, control, name)
  {
    NameRoundTrip(name);
    EncodedIsSafe(name);
  }
}
