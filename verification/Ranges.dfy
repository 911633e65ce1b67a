/** The `Range` header of a blob request (section 14.1.2 of RFC 9110). */
module Ranges {
  import opened Seqs
  import opened Input
  import S = Strings

  datatype RangeParse = Ignored | Unsatisfiable | Satisfiable(start: U64, len: U64)

  const UNIT := "bytes="

  function SaturatingSub(a: U64, b: U64): U64 { if a >= b then a - b else 0 }

  /** `split_once('-')` */
  function SplitOnce(s: string): Option<(string, string)> {
    match Position((c: char) => c == '-', s)
    case None => None
    case Some(i) => Some((s[..i], s[i + 1..]))
  }

  /** A number made of digits only, if it fits in 64 bits. */
  function Number(s: string): (r: Option<U64>)
    ensures r.Some? <==> S.IsDigits(s) && S.Decimal(s) <= U64_MAX
    ensures r.Some? ==> r.value == S.Decimal(s)
  {
    if !S.IsDigits(s) then None
    else match S.ParseUnsigned(s, U64_MAX)
      case None => None
      case Some(n) => Some(n)
  }

  function SuffixRange(n: U64, size: U64): RangeParse {
    if n == 0 || size == 0 then Unsatisfiable
    else
      var len := Min(n, size);
      Satisfiable(size - len, len)
  }

  function FirstLastRange(start: U64, last: Option<U64>, size: U64): RangeParse
    requires last.Some? ==> start <= last.value
  {
    var end := if last.None? then SaturatingSub(size, 1) else Min(last.value, SaturatingSub(size, 1));
    if start >= size then Unsatisfiable else Satisfiable(start, end - start + 1)
  }

  /** `parse_range` */
  function ParseRange(header: string, size: U64): RangeParse {
    var trimmed := S.Trim(header);
    if !(UNIT <= trimmed) then Ignored
    else
      var spec := trimmed[|UNIT|..];
      if ',' in spec then Ignored
      else if spec != [] && spec[0] == '-' then
        (match Number(spec[1..])
         case None => Ignored
         case Some(n) => SuffixRange(n, size))
      else
        match SplitOnce(spec)
        case None => Ignored
        case Some((first, last)) =>
          if Number(first).None? then Ignored
          else if last == [] then FirstLastRange(Number(first).value, None, size)
          else if Number(last).None? || Number(last).value < Number(first).value then Ignored
          else FirstLastRange(Number(first).value, Some(Number(last).value), size)
  }

  /** The first and last position of the `Content-Range` of a partial response. */
  function ContentRange(start: U64, len: U64): (U64, int) { (start, start + len - 1) }

  // ---- The meaning of a range ----

  predicate Part(s: string) { s == [] || S.IsDigits(s) }

  /** `first-last`, `first-` or `-suffix`, in order. */
  predicate WellFormed(first: string, last: string) {
    && Part(first) && Part(last) && (first != [] || last != [])
    && (first != [] && last != [] ==> S.Decimal(first) <= S.Decimal(last))
  }

  predicate Fits(first: string, last: string)
    requires Part(first) && Part(last)
  {
    S.Decimal(first) <= U64_MAX && S.Decimal(last) <= U64_MAX
  }

  /** The positions of a `size`-byte blob that the range asks for. */
  predicate Asks(first: string, last: string, size: nat, i: nat)
    requires Part(first) && Part(last)
  {
    && i < size
    && if first == [] then i >= size - S.Decimal(last)
       else S.Decimal(first) <= i && (last != [] ==> i <= S.Decimal(last))
  }

  /** The result denotes exactly the positions asked for, and is unsatisfiable exactly when there are none. */
  ghost predicate Denotes(r: RangeParse, first: string, last: string, size: U64)
    requires Part(first) && Part(last)
  {
    match r
    case Ignored => false
    case Unsatisfiable => forall i: nat :: !Asks(first, last, size, i)
    case Satisfiable(start, len) =>
      && len > 0 && start + len <= size
      && forall i: nat :: Asks(first, last, size, i) <==> start <= i < start + len
  }

  lemma SuffixDenotes(last: string, size: U64)
    requires S.IsDigits(last) && S.Decimal(last) <= U64_MAX
    ensures Denotes(SuffixRange(S.Decimal(last), size), [], last, size)
  {
    hide S.Decimal, S.IsDigits;
  }

  lemma FirstLastDenotes(first: string, last: string, size: U64)
    requires WellFormed(first, last) && Fits(first, last) && first != []
    ensures Denotes(FirstLastRange(S.Decimal(first), if last == [] then None else Some(S.Decimal(last)), size), first, last, size)
  {
    hide S.Decimal, S.IsDigits;
  }

  lemma SplitOnceAt(first: string, last: string)
    requires '-' !in first
    ensures SplitOnce(first + "-" + last) == Some((first, last))
  {
    var s := first + "-" + last;
    assert s[|first|] == '-' && s[|first|] in s;
    var i := Position((c: char) => c == '-', s).value;
    assert forall k | 0 <= k < |first| :: s[k] == first[k] && first[k] in first;
    assert i == |first|;
    assert s[..i] == first && s[i + 1..] == last;
  }

  lemma DigitsOnly(s: string, c: char)
    requires Part(s) && !IsDigit(c)
    ensures c !in s
  {
  }

  /** A well-formed range whose numbers fit in 64 bits gets exactly the bytes it asks for. */
  lemma WellFormedIsServed(header: string, first: string, last: string, size: U64)
    requires WellFormed(first, last) && Fits(first, last)
    requires S.Trim(header) == UNIT + (first + "-" + last)
    ensures Denotes(ParseRange(header, size), first, last, size)
  {
    hide S.Decimal, S.Trim, Denotes, SuffixRange, FirstLastRange;
    var trimmed, spec := S.Trim(header), first + "-" + last;
    assert trimmed[|UNIT|..] == spec;
    DigitsOnly(first, ',');
    DigitsOnly(last, ',');
    DigitsOnly(first, '-');
    if first == [] {
      assert spec[1..] == last;
      SuffixDenotes(last, size);
    } else {
      assert spec[0] == first[0] && first[0] in first;
      SplitOnceAt(first, last);
      FirstLastDenotes(first, last, size);
    }
  }

  /** The header spells a range whose numbers fit in 64 bits. */
  predicate Spells(header: string, first: string, last: string) {
    WellFormed(first, last) && Fits(first, last) && S.Trim(header) == UNIT + (first + "-" + last)
  }

  lemma SuffixSpells(header: string, last: string)
    requires S.Trim(header) == UNIT + ("-" + last) && Number(last).Some?
    ensures Spells(header, [], last)
  {
    hide S.Decimal, S.Trim;
    EmptyIsZero();
    assert [] + "-" + last == "-" + last;
  }

  lemma FirstLastSpells(header: string, first: string, last: string)
    requires S.Trim(header) == UNIT + (first + "-" + last) && Number(first).Some?
    requires last != [] ==> Number(last).Some? && Number(first).value <= Number(last).value
    ensures Spells(header, first, last)
  {
    hide S.Decimal, S.Trim;
    EmptyIsZero();
  }

  lemma SplitOnceJoins(s: string)
    requires SplitOnce(s).Some?
    ensures var (first, last) := SplitOnce(s).value; s == first + "-" + last
  {
  }

  lemma NotIgnoredSpells(header: string, size: U64) returns (first: string, last: string)
    requires ParseRange(header, size) != Ignored
    ensures Spells(header, first, last)
  {
    hide S.Trim, SuffixRange, FirstLastRange, Number, SplitOnce, Spells;
    var trimmed := S.Trim(header);
    var spec := trimmed[|UNIT|..];
    assert trimmed == UNIT + spec;
    if spec != [] && spec[0] == '-' {
      first, last := [], spec[1..];
      assert spec == "-" + last;
      SuffixSpells(header, last);
    } else {
      SplitOnceJoins(spec);
      first, last := SplitOnce(spec).value.0, SplitOnce(spec).value.1;
      FirstLastSpells(header, first, last);
    }
  }

  /** Only such ranges are not ignored. */
  lemma IgnoredExactly(header: string, size: U64)
    ensures ParseRange(header, size) != Ignored <==> exists first, last :: Spells(header, first, last)
  {
    hide ParseRange, Denotes;
    if first, last :| Spells(header, first, last) {
      WellFormedIsServed(header, first, last, size);
      ServedIsNotIgnored(header, first, last, size);
    }
    if ParseRange(header, size) != Ignored {
      var first, last := NotIgnoredSpells(header, size);
    }
  }

  lemma EmptyIsZero()
    ensures S.Decimal([]) == 0
  {
  }

  lemma ServedIsNotIgnored(header: string, first: string, last: string, size: U64)
    requires Part(first) && Part(last) && Denotes(ParseRange(header, size), first, last, size)
    ensures ParseRange(header, size) != Ignored
  {
    hide ParseRange;
  }

  /** The `Content-Range` line names the first and last byte served; nothing in it wraps. */
  lemma ContentRangeIsExact(header: string, size: U64)
    requires ParseRange(header, size).Satisfiable?
    ensures var r := ParseRange(header, size);
      var (first, last) := ContentRange(r.start, r.len);
      && r.start + r.len <= U64_MAX
      && first <= last < size
      && last - first + 1 == r.len
  {
    hide S.Trim, Number, SplitOnce;
  }
}
