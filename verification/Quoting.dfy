/** grabber.py: URLParser's guess whether a path is quoted already, and the quoting itself. */
module Quoting {
  import opened Hex

  type Byte = c: char | c as int < 256
  type Path = seq<Byte>

  // ---- Percent encoding (section 2.1 of RFC 3986) ----

  predicate IsAlnum(c: char) { 'A' <= c <= 'Z' || 'a' <= c <= 'z' || '0' <= c <= '9' }

  /** The characters urllib.quote leaves alone. */
  predicate Safe(c: char) { IsAlnum(c) || c == '_' || c == '.' || c == '-' || c == '/' }

  function HexDigit(d: nat): (c: Byte)
    requires d < 16
    ensures IsHex(c) && IsAlnum(c)
  {
    if d < 10 then '0' + d as char else 'A' + (d - 10) as char
  }

  function QuoteByte(c: Byte): (q: Path)
    ensures q != []
  {
    if Safe(c) then [c] else ['%', HexDigit(c as int / 16), HexDigit(c as int % 16)]
  }

  /** urllib.quote(path). */
  function Quote(p: Path): Path {
    if p == [] then [] else QuoteByte(p[0]) + Quote(p[1..])
  }

  /** urllib.unquote: decodes every %XX, and leaves any other % alone. */
  function Unquote(p: Path): Path
    decreases |p|
  {
    if p == [] then []
    else if p[0] == '%' && |p| >= 3 && IsHex(p[1]) && IsHex(p[2]) then
      [(HexValue(p[1]) * 16 + HexValue(p[2])) as char] + Unquote(p[3..])
    else [p[0]] + Unquote(p[1..])
  }

  lemma UnquoteByte(c: Byte, rest: Path)
    ensures Unquote(QuoteByte(c) + rest) == [c] + Unquote(rest)
  {
    var q := QuoteByte(c) + rest;
    if Safe(c) {
      assert q[1..] == rest;
    } else {
      assert q[3..] == rest;
      assert q[0] == '%' && q[1] == HexDigit(c as int / 16) && q[2] == HexDigit(c as int % 16);
      HexRoundTrip(c as int / 16);
      HexRoundTrip(c as int % 16);
    }
  }

  lemma HexRoundTrip(d: nat)
    requires d < 16
    ensures HexValue(HexDigit(d)) == d
  {
  }

  /** Quoting loses nothing. */
  lemma {:induction false} QuoteRoundTrip(p: Path)
    ensures Unquote(Quote(p)) == p
  {
    if p != [] {
      UnquoteByte(p[0], Quote(p[1..]));
      QuoteRoundTrip(p[1..]);
    }
  }

  /** Letters, digits, _ . - and / are left alone; any other byte becomes % and two upper-case hex digits. */
  lemma QuotedChars(c: Byte)
    ensures
      var q := Quote([c]);
      if 'A' <= c <= 'Z' || 'a' <= c <= 'z' || '0' <= c <= '9' || c == '_' || c == '.' || c == '-' || c == '/' then
        q == [c]
      else
        && |q| == 3 && q[0] == '%'
        && ('0' <= q[1] <= '9' || 'A' <= q[1] <= 'F') && ('0' <= q[2] <= '9' || 'A' <= q[2] <= 'F')
  {
    assert Quote([c]) == QuoteByte(c) + Quote([c][1..]);
  }

  /** Quoting works piece by piece, so the segments of a path stay segments. */
  lemma {:induction false} QuoteConcat(a: Path, b: Path)
    ensures Quote(a + b) == Quote(a) + Quote(b)
  {
    if a == [] {
      assert a + b == b;
    } else {
      assert (a + b)[1..] == a[1..] + b;
      QuoteConcat(a[1..], b);
    }
  }

  lemma SegmentsStay(a: Path, b: Path)
    ensures Quote(a + ['/'] + b) == Quote(a) + ['/'] + Quote(b)
  {
    QuoteConcat(a + ['/'], b);
    QuoteConcat(a, ['/']);
    assert Quote(['/']) == ['/'] + Quote(['/'][1..]);
  }

  // ---- The guess ----

  predicate EscapeAt(p: Path, i: nat) { i + 2 < |p| && IsHex(p[i + 1]) && IsHex(p[i + 2]) }

  /** Every % is followed by two hex digits. */
  ghost predicate Escaped(p: Path) { forall i :: 0 <= i < |p| && p[i] == '%' ==> EscapeAt(p, i) }

  /** Looks quoted: some % in it, all of them well-formed, no space. */
  ghost predicate LooksQuoted(p: Path) { ' ' !in p && '%' in p && Escaped(p) }

  /** string.find(path, '%', from): the first % at or after from, or -1. */
  function FindPercent(p: Path, from: nat): (i: int)
    requires from <= |p|
    ensures -1 <= i < |p|
    ensures i < 0 ==> '%' !in p[from..]
    ensures i >= 0 ==> from <= i && p[i] == '%' && '%' !in p[from..i]
    decreases |p| - from
  {
    if from == |p| then -1 else if p[from] == '%' then from else FindPercent(p, from + 1)
  }

  /** guess_should_quote: false exactly for a path that looks quoted. */
  method GuessShouldQuote(path: Path) returns (should: bool)
    ensures should <==> !LooksQuoted(path)
  {
    if ' ' in path {
      return true;
    }
    var ind := FindPercent(path, 0);
    if ind > -1 {
      while ind > -1
        invariant -1 <= ind < |path| && '%' in path
        invariant ind > -1 ==> path[ind] == '%'
        invariant forall i :: 0 <= i < (if ind > -1 then ind else |path|) && path[i] == '%' ==> EscapeAt(path, i)
        decreases if ind > -1 then |path| - ind else 0
      {
        if |path| < ind + 3 {
          assert !EscapeAt(path, ind);
          return true;
        }
        if !IsHex(path[ind + 1]) || !IsHex(path[ind + 2]) {
          assert !EscapeAt(path, ind);
          return true;
        }
        var next := FindPercent(path, ind + 1);
        forall i | ind < i < (if next > -1 then next else |path|) ensures path[i] != '%' {
          if next < 0 { assert path[ind + 1..][i - ind - 1] == path[i]; }
          else { assert path[ind + 1..next][i - ind - 1] == path[i]; }
        }
        ind := next;
      }
      return false;
    }
    assert path[0..] == path;
    return true;
  }

  /** What parse does to a path when quote is None. */
  ghost function GuessThenQuote(p: Path): Path { if LooksQuoted(p) then p else Quote(p) }

  /** The two steps of parse: guess, then quote if so guessed. */
  method QuoteStep(path: Path) returns (r: Path)
    ensures r == GuessThenQuote(path)
  {
    var should := GuessShouldQuote(path);
    if should {
      r := Quote(path);
    } else {
      r := path;
    }
  }

  lemma EscapedConcat(c: Byte, rest: Path)
    requires Escaped(rest)
    ensures Escaped(QuoteByte(c) + rest)
  {
    var h := QuoteByte(c);
    var q := h + rest;
    forall i | 0 <= i < |q| && q[i] == '%' ensures EscapeAt(q, i) {
      if i >= |h| {
        assert EscapeAt(rest, i - |h|);
      }
    }
  }

  /** Quoted text has no space and only well-formed escapes; a % is in it exactly when some byte needed quoting. */
  lemma {:induction false} QuoteIsClean(p: Path)
    ensures ' ' !in Quote(p) && Escaped(Quote(p))
    ensures '%' !in Quote(p) <==> forall i :: 0 <= i < |p| ==> Safe(p[i])
    ensures (forall i :: 0 <= i < |p| ==> Safe(p[i])) ==> Quote(p) == p
  {
    if p != [] {
      QuoteIsClean(p[1..]);
      EscapedConcat(p[0], Quote(p[1..]));
      assert (forall i :: 0 <= i < |p| ==> Safe(p[i]))
        <==> Safe(p[0]) && forall i :: 0 <= i < |p[1..]| ==> Safe(p[1..][i]);
    }
  }

  /** Guessing and quoting again changes nothing, and the result has no space and only well-formed escapes. */
  lemma QuoteStable(p: Path)
    ensures GuessThenQuote(GuessThenQuote(p)) == GuessThenQuote(p)
    ensures ' ' !in GuessThenQuote(p) && Escaped(GuessThenQuote(p))
  {
    QuoteIsClean(p);
    QuoteIsClean(Quote(p));
  }

  /** Quoting without the guess is stable exactly for paths that need no quoting. */
  lemma BlindQuoteStable(p: Path)
    ensures Quote(Quote(p)) == Quote(p) <==> forall i :: 0 <= i < |p| ==> Safe(p[i])
  {
    QuoteIsClean(p);
    if Quote(Quote(p)) == Quote(p) {
      QuoteRoundTrip(p);
      QuoteRoundTrip(Quote(p));
      QuoteGrows(p);
      QuoteGrows(Quote(p));
    }
  }

  lemma {:induction false} QuoteGrows(p: Path)
    ensures |Quote(p)| >= |p|
    ensures |Quote(p)| == |p| ==> forall i :: 0 <= i < |p| ==> Safe(p[i])
  {
    if p != [] {
      QuoteGrows(p[1..]);
      assert forall i :: 1 <= i < |p| ==> p[i] == p[1..][i - 1];
    }
  }

  /** The guess is wrong in one way only: a path that is not quoted but looks so stays as it is, and loses its text when
      unquoted. */
  lemma GuessPreservesText(p: Path)
    ensures Unquote(GuessThenQuote(p)) == p <==> !LooksQuoted(p)
  {
    if LooksQuoted(p) {
      UnquoteShrinks(p);
    } else {
      QuoteRoundTrip(p);
    }
  }

  lemma {:induction false} UnquoteShrinks(p: Path)
    ensures |Unquote(p)| <= |p|
    ensures '%' in p && Escaped(p) ==> |Unquote(p)| < |p|
    decreases |p|
  {
    if p != [] {
      if p[0] == '%' && |p| >= 3 && IsHex(p[1]) && IsHex(p[2]) {
        UnquoteShrinks(p[3..]);
      } else {
        UnquoteShrinks(p[1..]);
        if '%' in p && Escaped(p) {
          assert EscapeAt(p, 0) || p[0] != '%';
          forall i | 0 <= i < |p[1..]| && p[1..][i] == '%' ensures EscapeAt(p[1..], i) {
            assert EscapeAt(p, i + 1);
          }
          var k :| 0 <= k < |p| && p[k] == '%';
          assert p[1..][k - 1] == '%';
        }
      }
    }
  }
}
