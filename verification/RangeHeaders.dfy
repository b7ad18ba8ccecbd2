/** byterange.py: byte ranges as tuples and as Range header values (section 2.1 of RFC 7233). */
module RangeHeaders {
  import opened Wrappers
  import opened Sequences

  // ---- Decimal numerals ----

  function Digit(d: nat): char
    requires d < 10
  {
    '0' + d as char
  }

  predicate IsDigit(c: char) { '0' <= c <= '9' }

  predicate AllDigits(s: string) { forall i :: 0 <= i < |s| ==> IsDigit(s[i]) }

  function Decimal(n: nat): (s: string)
    ensures s != "" && AllDigits(s)
    ensures |s| > 1 ==> s[0] != '0'
  {
    if n < 10 then [Digit(n)] else Decimal(n / 10) + [Digit(n % 10)]
  }

  /** int() of a string of digits; leading zeros are allowed. */
  function ParseDecimal(s: string): nat
    requires AllDigits(s)
  {
    if s == "" then 0 else 10 * ParseDecimal(s[..|s| - 1]) + (s[|s| - 1] - '0') as nat
  }

  lemma {:induction false} DecimalRoundTrip(n: nat)
    ensures ParseDecimal(Decimal(n)) == n
  {
    var s := Decimal(n);
    assert s[..|s| - 1] == if n < 10 then "" else Decimal(n / 10);
    if n >= 10 { DecimalRoundTrip(n / 10); }
  }

  /** Decimal is the only numeral of n without leading zeros. */
  lemma {:induction false} DecimalCanonical(s: string)
    requires s != "" && AllDigits(s) && (|s| > 1 ==> s[0] != '0')
    ensures Decimal(ParseDecimal(s)) == s
  {
    var init, last := s[..|s| - 1], s[|s| - 1];
    assert s == init + [last];
    if init == "" {
      assert ParseDecimal(init) == 0;
    } else {
      DecimalCanonical(init);
      LeadingDigitPositive(init);
    }
    TensAndOnes(ParseDecimal(init), (last - '0') as nat);
  }

  lemma TensAndOnes(a: nat, d: nat)
    requires d < 10
    ensures (10 * a + d) / 10 == a && (10 * a + d) % 10 == d
  {
  }

  lemma {:induction false} LeadingDigitPositive(s: string)
    requires s != "" && AllDigits(s) && s[0] != '0'
    ensures ParseDecimal(s) > 0
  {
    if |s| > 1 { LeadingDigitPositive(s[..|s| - 1]); }
  }

  // ---- Range tuples ----

  /** A tuple element: an int, or None, '' or a missing second element. */
  datatype Bound = Unset | At(pos: int)

  /** A normalised half-open range; last is None for "to the end". */
  datatype ByteRange = ByteRange(first: int, last: Option<int>)

  datatype RangeError = InvalidRange

  /** range_tuple_normalize: None stands for the whole file. In Python 2 an int never exceeds ''. */
  function Normalize(tuple: Option<(Bound, Bound)>): Result<Option<ByteRange>, RangeError> {
    if tuple.None? then Ok(None)
    else
      var first := if tuple.value.0.Unset? then 0 else tuple.value.0.pos;
      var last := if tuple.value.1.Unset? then None else Some(tuple.value.1.pos);
      if first == 0 && last.None? then Ok(None)
      else if last.Some? && last.value < first then Err(InvalidRange)
      else Ok(Some(ByteRange(first, last)))
  }

  function AsTuple(r: Option<ByteRange>): Option<(Bound, Bound)> {
    if r.None? then None
    else Some((At(r.value.first), if r.value.last.None? then Unset else At(r.value.last.value)))
  }

  /** The values Normalize can return. */
  ghost predicate Normal(r: Option<ByteRange>) {
    r.Some? ==> r.value != ByteRange(0, None) && (r.value.last.Some? ==> r.value.first <= r.value.last.value)
  }

  lemma NormalizeIdempotent(tuple: Option<(Bound, Bound)>)
    ensures Normalize(tuple).Ok? ==> Normal(Normalize(tuple).value)
                                     && Normalize(AsTuple(Normalize(tuple).value)) == Normalize(tuple)
  {
  }

  /**
   * Normalising never changes which bytes a tuple means, a missing first byte being 0 and a missing last one the
   * end; it fails exactly on a last byte before the first, and None stands for the whole file.
   */
  lemma NormalizeExact(first: Option<int>, last: Option<int>)
    ensures
      var lo: int := if first.None? then 0 else first.value;
      var r := Normalize(Some((if first.None? then Unset else At(first.value),
                               if last.None? then Unset else At(last.value))));
      && (r.Err? <==> last.Some? && last.value < lo)
      && (r.Ok? && r.value.None? <==> lo == 0 && last.None?)
      && (r.Ok? && r.value.Some? ==> r.value.value.first == lo && (r.value.value.last.Some? <==> last.Some?)
                                     && (last.Some? ==> r.value.value.last.value == last.value))
    ensures Normalize(None) == Ok(None)
  {
  }

  // ---- Headers ----

  function PrintInt(n: int): string { if n < 0 then "-" + Decimal(-n) else Decimal(n) }

  /** range_tuple_to_header on a normalised range: the header's last byte is inclusive, and a last byte of 0 stays 0. */
  function HeaderOf(r: ByteRange): string {
    var last := if r.last.Some? && r.last.value != 0 then Some(r.last.value - 1) else r.last;
    PREFIX + PrintInt(r.first) + "-" + (if last.None? then "" else PrintInt(last.value))
  }

  function ToHeader(tuple: Option<(Bound, Bound)>): Result<Option<string>, RangeError> {
    var r := Normalize(tuple);
    if r.Err? then Err(r.error)
    else if r.value.None? then Ok(None)
    else Ok(Some(HeaderOf(r.value.value)))
  }

  /** The longest prefix of digits. */
  function DigitsOf(s: string): (d: string)
    ensures d <= s && AllDigits(d)
    ensures |d| < |s| ==> !IsDigit(s[|d|])
  {
    if s == "" || !IsDigit(s[0]) then "" else [s[0]] + DigitsOf(s[1..])
  }

  lemma {:induction false} DigitsOfConcat(d: string, rest: string)
    requires AllDigits(d) && (rest == "" || !IsDigit(rest[0]))
    ensures DigitsOf(d + rest) == d
  {
    if d == "" {
      assert d + rest == rest;
    } else {
      assert (d + rest)[1..] == d[1..] + rest;
      DigitsOfConcat(d[1..], rest);
    }
  }

  /** None: no header or the whole file. Malformed: Python's (), the header does not match the pattern. */
  datatype Parsed = NoRange | Malformed | Range(range: ByteRange)

  const PREFIX: string := "bytes="

  /** range_header_to_tuple: matches ^bytes=(\d{1,})-(\d*), whatever follows. */
  function FromHeader(header: Option<string>): Result<Parsed, RangeError> {
    if header.None? then Ok(NoRange)
    else if !(PREFIX <= header.value) then Ok(Malformed)
    else FromSpec(header.value[|PREFIX|..])
  }

  function FromSpec(spec: string): Result<Parsed, RangeError> {
    var firstDigits := DigitsOf(spec);
    var tail := spec[|firstDigits|..];
    if firstDigits == "" || tail == "" || tail[0] != '-' then Ok(Malformed)
    else FromDigits(firstDigits, DigitsOf(tail[1..]))
  }

  function FromDigits(firstDigits: string, lastDigits: string): Result<Parsed, RangeError>
    requires AllDigits(firstDigits) && AllDigits(lastDigits)
  {
    var r := Normalize(Some((At(ParseDecimal(firstDigits)),
                             if lastDigits == "" then Unset else At(ParseDecimal(lastDigits)))));
    if r.Err? then Err(r.error)
    else if r.value.None? then Ok(NoRange)
    else
      var t := r.value.value;
      Ok(Range(if t.last.Some? && t.last.value != 0 then ByteRange(t.first, Some(t.last.value + 1)) else t))
  }

  ghost predicate SpelledBy(header: string, first: nat, last: Option<nat>, f: string, l: string, junk: string) {
    && header == PREFIX + (f + ("-" + (l + junk)))
    && f != "" && AllDigits(f) && ParseDecimal(f) == first
    && AllDigits(l) && (if last.None? then l == "" else l != "" && ParseDecimal(l) == last.value)
    && (junk == "" || !IsDigit(junk[0]))
  }

  /** header is "bytes=<first>-<last>" or "bytes=<first>-" in any decimal spelling, whatever follows the digits. */
  ghost predicate Spells(header: string, first: nat, last: Option<nat>) {
    exists f: string, l: string, junk: string :: SpelledBy(header, first, last, f, l, junk)
  }

  /** The half-open range meant by first-last, but a last byte of 0 stays 0. */
  function Expected(first: nat, last: Option<nat>): Result<Parsed, RangeError> {
    if last.None? then Ok(if first == 0 then NoRange else Range(ByteRange(first, None)))
    else if last.value < first then Err(InvalidRange)
    else Ok(Range(ByteRange(first, Some(if last.value == 0 then 0 else last.value + 1))))
  }

  lemma FromPrefixed(header: string, spec: string)
    requires header == PREFIX + spec
    ensures FromHeader(Some(header)) == FromSpec(spec)
  {
    assert header[|PREFIX|..] == spec;
  }

  /** What the parser returns for every spelling of every range. */
  lemma FromHeaderExact(header: string, first: nat, last: Option<nat>)
    requires Spells(header, first, last)
    ensures FromHeader(Some(header)) == Expected(first, last)
  {
    hide FromHeader, FromSpec, DigitsOf, ParseDecimal;
    var f: string, l: string, junk: string :| SpelledBy(header, first, last, f, l, junk);
    FromPrefixed(header, f + ("-" + (l + junk)));
    FromSpecParts(f, l, junk);
    assert FromDigits(f, l) == Expected(first, last);
  }

  /** A header the parser does not find malformed spells some range. */
  lemma WellFormedSpells(header: string) returns (first: nat, last: Option<nat>)
    requires FromHeader(Some(header)) != Ok(Malformed)
    ensures Spells(header, first, last)
  {
    var spec := header[|PREFIX|..];
    var f := DigitsOf(spec);
    var tail := spec[|f|..];
    var l := DigitsOf(tail[1..]);
    hide FromHeader, FromDigits, ParseDecimal, DigitsOf;
    Parts(header, spec, f, tail, l);
    first, last := ParseDecimal(f), if l == "" then None else Some(ParseDecimal(l));
    assert SpelledBy(header, first, last, f, l, tail[1..][|l|..]);
  }

  lemma Parts(header: string, spec: string, f: string, tail: string, l: string)
    requires PREFIX <= header && spec == header[|PREFIX|..]
    requires f <= spec && tail == spec[|f|..] && tail != "" && tail[0] == '-' && l <= tail[1..]
    ensures header == PREFIX + (f + ("-" + (l + tail[1..][|l|..])))
  {
    assert tail[1..] == l + tail[1..][|l|..];
    assert tail == "-" + tail[1..];
    assert spec == f + tail;
    assert header == PREFIX + spec;
  }

  /** The parser finds the header malformed exactly if it spells no range at all. */
  lemma MalformedExact(header: string)
    ensures FromHeader(Some(header)) == Ok(Malformed) <==> forall first, last :: !Spells(header, first, last)
  {
    hide FromHeader, Spells;
    if first, last :| Spells(header, first, last) {
      FromHeaderExact(header, first, last);
    }
    if FromHeader(Some(header)) != Ok(Malformed) {
      var first, last := WellFormedSpells(header);
    }
  }

  /** A range whose last byte comes before its first is an error, bytes=0-0 is the odd (0,0), bytes=0- no range. */
  lemma OddHeaders(header: string, first: nat, last: Option<nat>)
    requires Spells(header, first, last)
    ensures FromHeader(Some(header)).Err? <==> last.Some? && last.value < first
    ensures FromHeader(Some(header)) == Ok(NoRange) <==> first == 0 && last.None?
    ensures FromHeader(Some(header)) == Ok(Range(ByteRange(0, Some(0)))) <==> first == 0 && last == Some(0)
  {
    FromHeaderExact(header, first, last);
  }

  lemma FromSpecParts(f: string, l: string, junk: string)
    requires f != "" && AllDigits(f) && AllDigits(l) && (junk == "" || !IsDigit(junk[0]))
    ensures FromSpec(f + ("-" + (l + junk))) == FromDigits(f, l)
  {
    var tail := "-" + (l + junk);
    DigitsOfConcat(f, tail);
    assert (f + tail)[|f|..] == tail;
    assert tail[1..] == l + junk;
    DigitsOfConcat(l, junk);
  }

  lemma HeaderSpells(r: ByteRange)
    requires 0 <= r.first && (r.last.Some? ==> 0 <= r.last.value)
    ensures Spells(HeaderOf(r), r.first,
                   if r.last.None? then None else Some(if r.last.value == 0 then 0 else r.last.value - 1))
  {
    DecimalRoundTrip(r.first);
    var f, l := Decimal(r.first), "";
    if r.last.Some? {
      var n := if r.last.value == 0 then 0 else r.last.value - 1;
      DecimalRoundTrip(n);
      l := Decimal(n);
    }
    assert HeaderOf(r) == PREFIX + (f + ("-" + (l + "")));
    var last: Option<nat> := if r.last.None? then None else Some(if r.last.value == 0 then 0 else r.last.value - 1);
    assert SpelledBy(HeaderOf(r), r.first, last, f, l, "");
  }

  function ParsedAs(r: Option<ByteRange>): Parsed { if r.None? then NoRange else Range(r.value) }

  /** The ranges that survive printing and parsing: non-empty and not (0,1), open, or the odd (0,0). */
  ghost predicate SurvivesHeader(r: ByteRange) {
    && 0 <= r.first
    && (r.last.Some? ==> (r.first < r.last.value && r.last.value != 1) || r.last.value == 0)
  }

  /** Printing a normalised range and parsing it back returns it exactly when SurvivesHeader holds. */
  lemma HeaderRoundTrip(r: Option<ByteRange>)
    requires Normal(r)
    ensures ToHeader(AsTuple(r)).Ok?
    ensures FromHeader(ToHeader(AsTuple(r)).value) == Ok(ParsedAs(r)) <==> r.None? || SurvivesHeader(r.value)
  {
    hide Decimal, ParseDecimal, DigitsOf, Spells;
    if r.Some? {
      var b := r.value;
      assert ToHeader(AsTuple(r)) == Ok(Some(HeaderOf(b)));
      if b.first < 0 {
        assert HeaderOf(b)[|PREFIX|] == '-';
      } else {
        HeaderSpells(b);
        FromHeaderExact(HeaderOf(b), b.first,
                        if b.last.None? then None else Some(if b.last.value == 0 then 0 else b.last.value - 1));
      }
    }
  }

  lemma HeaderRoundTripFailure()
    ensures FromHeader(Some(HeaderOf(ByteRange(0, Some(1))))) == Ok(Range(ByteRange(0, Some(0))))
  {
    HeaderSpells(ByteRange(0, Some(1)));
    FromHeaderExact(HeaderOf(ByteRange(0, Some(1))), 0, Some(0));
  }

  // ---- What a range selects ----

  /** content[first..last] with Python's clamping. */
  function Slice(content: string, first: nat, last: Option<nat>): string {
    var lo := Min(first, |content|);
    var hi := if last.None? then |content| else Min(last.value, |content|);
    if lo <= hi then content[lo..hi] else ""
  }

  /** Whether a byte-range-spec, whose last position is inclusive, selects byte i of a representation of n bytes. */
  ghost predicate RfcSelects(first: nat, last: Option<nat>, n: nat, i: nat) {
    first <= i < n && (last.Some? ==> i <= last.value)
  }

  /** A printed header of a non-empty range denotes, read by the RFC, exactly the bytes of the tuple's slice. */
  lemma HeaderSelectsSlice(content: string, first: nat, last: Option<nat>)
    requires last.Some? ==> first < last.value
    ensures
      var inclusive: Option<nat> := if last.None? then None else Some(last.value - 1);
      var body := Slice(content, first, last);
      && Spells(HeaderOf(ByteRange(first, last)), first, inclusive)
      && (forall i: nat :: RfcSelects(first, inclusive, |content|, i) <==> first <= i < first + |body|)
      && (forall i: nat :: RfcSelects(first, inclusive, |content|, i) ==> body[i - first] == content[i])
  {
    HeaderSpells(ByteRange(first, last));
  }
}
