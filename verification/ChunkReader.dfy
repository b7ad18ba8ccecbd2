/**
 * case.py (watchEvents) and loadbalancer.py (main): the byte-at-a-time reader of chunk framing
 * (section 4.1 of RFC 7230).
 */
module ChunkReader {
  import opened Wrappers
  import opened Sequences
  import opened Hex

  const CRLF: string := "\r\n"

  predicate IsSpace(c: char) { c == ' ' || c == '\t' || c == '\n' || c == '\r' || c as int == 11 || c as int == 12 }

  function RStrip(s: string): string {
    if s != "" && IsSpace(s[|s| - 1]) then RStrip(s[..|s| - 1]) else s
  }

  function LStrip(s: string): string {
    if s != "" && IsSpace(s[0]) then LStrip(s[1..]) else s
  }

  predicate EndsWithCrlf(s: string) { |s| >= 2 && s[|s| - 2] == '\r' && s[|s| - 1] == '\n' }

  /** int(s, 16): blanks around, a sign and 0x are allowed; None is a ValueError. */
  function ParseInt16(s: string): Option<int> {
    var t := RStrip(LStrip(s));
    var sign := if t != "" && t[0] == '-' then -1 else 1;
    var u := if t != "" && (t[0] == '-' || t[0] == '+') then t[1..] else t;
    var digits := if |u| > 2 && u[0] == '0' && (u[1] == 'x' || u[1] == 'X') then u[2..] else u;
    if digits == "" || !AllHex(digits) then None else Some(sign * HexNumber(digits))
  }

  // ---- The reader ----

  /**
   * The local variables of the loop, the unread stream, and what was handed on. Reads are exact up to
   * the end of the stream.
   */
  datatype Reader = Reader(event: string, length: int, input: string, queue: seq<string>)

  function Start(input: string): Reader { Reader("", -1, input, []) }

  function ReadSize(input: string, n: int): nat { if n < 0 || n > |input| then |input| else n }

  /** One round of the endless loop; None if int() raises. */
  function Round(r: Reader): Option<Reader> {
    var line := if EndsWithCrlf(r.event) then RStrip(r.event) else r.event;
    if EndsWithCrlf(r.event) && line != "" then
      var length := ParseInt16(line);
      if length.None? then None
      else if length.value == -1 then Some(ReadByte(r.(event := "", length := -1)))
      else Some(ReadChunk(r.(length := length.value)))
    else if r.length == -1 then Some(ReadByte(r.(event := line)))
    else Some(ReadChunk(r))
  }

  function ReadByte(r: Reader): Reader {
    var n := ReadSize(r.input, 1);
    r.(event := r.event + r.input[..n], input := r.input[n..])
  }

  function ReadChunk(r: Reader): Reader {
    var n := ReadSize(r.input, r.length);
    Reader("", -1, r.input[n..], r.queue + [r.input[..n]])
  }

  function Rounds(r: Reader, n: nat): Option<Reader> {
    if n == 0 then Some(r)
    else
      var before := Rounds(r, n - 1);
      if before.None? then None else Round(before.value)
  }

  /** watchEvents, observed for so many rounds of its loop. crashed: int() raised and the thread is gone. */
  method WatchEvents(stream: string, rounds: nat) returns (queue: seq<string>, crashed: bool)
    ensures crashed <==> Rounds(Start(stream), rounds).None?
    ensures !crashed ==> queue == Rounds(Start(stream), rounds).value.queue
  {
    var event, length, rest := "", -1, stream;
    queue, crashed := [], false;
    var i := 0;
    NoRounds(Start(stream));
    while i < rounds
      invariant 0 <= i <= rounds
      invariant Rounds(Start(stream), i) == Some(Reader(event, length, rest, queue))
    {
      hide Rounds, RStrip, ParseInt16;
      NextRound(Start(stream), i);
      i := i + 1;
      if EndsWithCrlf(event) {
        event := RStrip(event);
        if |event| > 0 {
          var parsed := ParseInt16(event);
          if parsed.None? {
            CrashedForGood(Start(stream), i, rounds);
            return queue, true;
          }
          length := parsed.value;
          event := "";
        }
      }
      if length == -1 {
        var n := ReadSize(rest, 1);
        event, rest := event + rest[..n], rest[n..];
      } else {
        var n := ReadSize(rest, length);
        event, rest := rest[..n], rest[n..];
        queue := queue + [event];
        length := -1;
        event := "";
      }
    }
  }

  lemma NextRound(r: Reader, n: nat)
    requires Rounds(r, n).Some?
    ensures Rounds(r, n + 1) == Round(Rounds(r, n).value)
  {
  }

  lemma {:induction false} CrashedForGood(r: Reader, n: nat, m: nat)
    requires n <= m && Rounds(r, n).None?
    ensures Rounds(r, m).None?
  {
    hide Round;
    if n < m { CrashedForGood(r, n, m - 1); }
  }

  lemma {:induction false} RoundsAdd(r: Reader, a: nat, b: nat)
    ensures Rounds(r, a + b) == if Rounds(r, a).None? then None else Rounds(Rounds(r, a).value, b)
  {
    hide Round;
    if b > 0 {
      RoundsAdd(r, a, b - 1);
      assert a + b - 1 == a + (b - 1);
    }
  }

  /** What has been handed on stays handed on. */
  lemma {:induction false} QueueGrows(r: Reader, a: nat, b: nat)
    requires a <= b && Rounds(r, b).Some?
    ensures Rounds(r, a).Some? && Rounds(r, a).value.queue <= Rounds(r, b).value.queue
  {
    hide Round;
    if a < b {
      QueueGrows(r, a, b - 1);
      NextRound(r, b - 1);
      RoundKeepsQueue(Rounds(r, b - 1).value);
    }
  }

  lemma RoundKeepsQueue(r: Reader)
    ensures Round(r).Some? ==> r.queue <= Round(r).value.queue
  {
  }

  // ---- Framing ----

  /** A chunk in transit: its length in some hexadecimal spelling, and its data. */
  datatype Chunk = Chunk(size: string, data: string)

  ghost predicate WellSized(c: Chunk) { c.size != "" && AllHex(c.size) && HexNumber(c.size) == |c.data| }

  function Encode(chunks: seq<Chunk>): string {
    if chunks == [] then "" else chunks[0].size + (CRLF + (chunks[0].data + (CRLF + Encode(chunks[1..]))))
  }

  function Data(chunks: seq<Chunk>): seq<string> {
    if chunks == [] then [] else [chunks[0].data] + Data(chunks[1..])
  }

  function Cost(chunks: seq<Chunk>): nat {
    if chunks == [] then 0 else |chunks[0].size| + 5 + Cost(chunks[1..])
  }

  /** Between chunks: nothing gathered but perhaps the line end after the last one. */
  predicate Idle(r: Reader) { r.length == -1 && (r.event == "" || r.event == CRLF) }

  lemma IdleStrips()
    ensures RStrip(CRLF) == ""
  {
    assert CRLF[..1] == "\r";
  }

  lemma IdleReads(r: Reader, c: char, rest: string)
    requires Idle(r) && r.input == [c] + rest
    ensures Round(r) == Some(Reader([c], -1, rest, r.queue))
  {
    IdleStrips();
    assert r.input[..1] == [c] && r.input[1..] == rest;
    assert "" + [c] == [c];
  }

  lemma GatherReads(r: Reader, c: char, rest: string)
    requires r.length == -1 && !EndsWithCrlf(r.event) && r.input == [c] + rest
    ensures Round(r) == Some(Reader(r.event + [c], -1, rest, r.queue))
  {
    assert r.input[..1] == [c] && r.input[1..] == rest;
  }

  /** The rest of a line is gathered byte by byte. */
  lemma {:induction false} LineGathered(r: Reader, line: string, rest: string)
    requires r.length == -1 && '\n' !in r.event && '\n' !in line && r.input == line + rest
    ensures Rounds(r, |line|) == Some(Reader(r.event + line, -1, rest, r.queue))
    decreases |line|
  {
    hide Round, ReadByte, ReadChunk;
    NoRounds(r);
    if line == "" {
      assert r.input == rest && r.event + line == r.event;
    } else {
      var c, more := line[0], line[1..];
      assert r.input == [c] + (more + rest);
      GatherReads(r, c, more + rest);
      var next := Reader(r.event + [c], -1, more + rest, r.queue);
      OneRound(r);
      LineGathered(next, more, rest);
      RoundsAdd(r, 1, |more|);
      assert (r.event + [c]) + more == r.event + line;
    }
  }

  lemma OneRound(r: Reader)
    ensures Rounds(r, 1) == Round(r)
  {
    assert Rounds(r, 0) == Some(r);
  }

  lemma TwoRounds(r: Reader, s: Reader)
    requires Round(r) == Some(s)
    ensures Rounds(r, 2) == Round(s)
  {
    OneRound(r);
    OneRound(s);
    RoundsAdd(r, 1, 1);
  }

  /** A line end is gathered in two rounds. */
  lemma LineEndGathered(r: Reader, rest: string)
    requires r.length == -1 && '\n' !in r.event && r.input == CRLF + rest
    ensures Rounds(r, 2) == Some(Reader(r.event + CRLF, -1, rest, r.queue))
  {
    assert r.input == ['\r'] + (['\n'] + rest);
    GatherReads(r, '\r', ['\n'] + rest);
    var mid := Reader(r.event + ['\r'], -1, ['\n'] + rest, r.queue);
    GatherReads(mid, '\n', rest);
    assert mid.event + ['\n'] == r.event + CRLF;
    TwoRounds(r, mid);
  }

  lemma SizeParsed(size: string)
    requires size != "" && AllHex(size)
    ensures RStrip(size + CRLF) == size && ParseInt16(size) == Some(HexNumber(size))
  {
    hide HexNumber;
    StripCrlf(size);
    assert LStrip(size) == size;
    hide LStrip, RStrip;
    assert IsHex(size[0]) && (|size| > 1 ==> IsHex(size[1]));
  }

  /** The round after the size line reads the data, whatever is in it. */
  lemma DataRead(r: Reader, c: Chunk, rest: string)
    requires WellSized(c) && r.length == -1 && r.event == c.size + CRLF && r.input == c.data + rest
    ensures Round(r) == Some(Reader("", -1, rest, r.queue + [c.data]))
  {
    SizeParsed(c.size);
    assert r.input[..|c.data|] == c.data && r.input[|c.data|..] == rest;
  }

  lemma StripCrlf(line: string)
    requires line != "" && !IsSpace(line[|line| - 1])
    ensures RStrip(line + CRLF) == line && RStrip(line) == line
  {
    var s, t := line + CRLF, line + "\r";
    assert s[..|s| - 1] == t && s[|s| - 1] == '\n';
    assert t[..|t| - 1] == line && t[|t| - 1] == '\r';
    assert RStrip(s) == RStrip(t) == RStrip(line);
  }

  /** One chunk, from one idle state to the next. */
  lemma ChunkRead(r: Reader, c: Chunk, rest: string)
    requires Idle(r) && WellSized(c) && r.input == c.size + (CRLF + (c.data + (CRLF + rest)))
    ensures Rounds(r, |c.size| + 5) == Some(Reader(CRLF, -1, rest, r.queue + [c.data]))
  {
    hide Round, HexNumber;
    var afterSize := CRLF + (c.data + (CRLF + rest));
    SizeRead(r, c.size, afterSize);
    var sized := Reader(c.size, -1, afterSize, r.queue);
    LineEndGathered(sized, c.data + (CRLF + rest));
    var line := Reader(c.size + CRLF, -1, c.data + (CRLF + rest), r.queue);
    DataRead(line, c, CRLF + rest);
    var done := Reader("", -1, CRLF + rest, r.queue + [c.data]);
    LineEndGathered(done, rest);
    RoundsAdd(r, |c.size|, 2);
    OneRound(line);
    RoundsAdd(r, |c.size| + 2, 1);
    RoundsAdd(r, |c.size| + 3, 2);
    assert "" + CRLF == CRLF;
  }

  lemma FirstOff(s: string, rest: string)
    requires s != ""
    ensures s == [s[0]] + s[1..] && s + rest == [s[0]] + (s[1..] + rest)
    ensures '\n' !in s ==> '\n' !in s[1..] && '\n' !in [s[0]]
  {
  }

  lemma SizeRead(r: Reader, size: string, rest: string)
    requires Idle(r) && size != "" && '\n' !in size && r.input == size + rest
    ensures Rounds(r, |size|) == Some(Reader(size, -1, rest, r.queue))
  {
    hide Round, Rounds;
    var c, more := size[0], size[1..];
    FirstOff(size, rest);
    IdleReads(r, c, more + rest);
    OneRound(r);
    LineGathered(Reader([c], -1, more + rest, r.queue), more, rest);
    RoundsAdd(r, 1, |more|);
  }

  lemma {:induction false} ChunksRead(r: Reader, chunks: seq<Chunk>, rest: string)
    requires Idle(r) && (forall i :: 0 <= i < |chunks| ==> WellSized(chunks[i]))
    requires r.input == Encode(chunks) + rest
    ensures Rounds(r, Cost(chunks)).Some?
    ensures
      var after := Rounds(r, Cost(chunks)).value;
      Idle(after) && after.input == rest && after.queue == r.queue + Data(chunks)
    decreases |chunks|
  {
    hide Round, WellSized, Rounds;
    if chunks == [] {
      NoRounds(r);
      assert r.input == rest && r.queue + [] == r.queue;
    } else {
      var c, more := chunks[0], chunks[1..];
      var tail := Encode(more) + rest;
      assert r.input == c.size + (CRLF + (c.data + (CRLF + tail)));
      ChunkRead(r, c, tail);
      var next := Reader(CRLF, -1, tail, r.queue + [c.data]);
      ChunksRead(next, more, rest);
      RoundsAdd(r, |c.size| + 5, Cost(more));
      Regroup(r.queue, [c.data], Data(more));
    }
  }

  lemma NoRounds(r: Reader)
    ensures Rounds(r, 0) == Some(r)
  {
  }

  /**
   * Framing round trip: for every list of byte strings and every hexadecimal spelling of their lengths, the
   * reader hands on a prefix of the list at any time, all of it after Cost rounds, and nothing else ever.
   */
  lemma FramingRoundTrip(chunks: seq<Chunk>, n: nat)
    requires forall i :: 0 <= i < |chunks| ==> WellSized(chunks[i])
    ensures Rounds(Start(Encode(chunks)), n).Some?
    ensures Rounds(Start(Encode(chunks)), n).value.queue <= Data(chunks)
    ensures n >= Cost(chunks) ==> Rounds(Start(Encode(chunks)), n).value.queue == Data(chunks)
  {
    hide Round, WellSized, Rounds, Encode, Data, Cost;
    var r := Start(Encode(chunks));
    assert Encode(chunks) + "" == Encode(chunks) && r.queue + Data(chunks) == Data(chunks);
    ChunksRead(r, chunks, "");
    var done := Rounds(r, Cost(chunks)).value;
    if n >= Cost(chunks) {
      Drained(done, n - Cost(chunks));
      RoundsAdd(r, Cost(chunks), n - Cost(chunks));
    } else {
      QueueGrows(r, n, Cost(chunks));
    }
  }

  lemma IdleAtEnd(r: Reader)
    requires Idle(r) && r.input == ""
    ensures Round(r).Some? && Idle(Round(r).value)
    ensures Round(r).value.input == "" && Round(r).value.queue == r.queue
  {
    IdleStrips();
  }

  /** At the end of the stream the loop spins without handing on anything. */
  lemma {:induction false} Drained(r: Reader, n: nat)
    requires Idle(r) && r.input == ""
    ensures Rounds(r, n).Some? && Idle(Rounds(r, n).value)
    ensures Rounds(r, n).value.input == "" && Rounds(r, n).value.queue == r.queue
  {
    hide Round, Idle;
    if n > 0 {
      Drained(r, n - 1);
      IdleAtEnd(Rounds(r, n - 1).value);
    }
  }

  lemma {:induction false} RStripKeeps(s: string, k: nat)
    requires k < |s| && !IsSpace(s[k])
    ensures k < |RStrip(s)| && RStrip(s) <= s
  {
    if IsSpace(s[|s| - 1]) { RStripKeeps(s[..|s| - 1], k); }
  }

  lemma ExtensionUnreadable(size: string, extension: string)
    requires size != "" && AllHex(size)
    ensures RStrip((size + (";" + extension)) + CRLF) != ""
    ensures ParseInt16(RStrip((size + (";" + extension)) + CRLF)).None?
  {
    var s := (size + (";" + extension)) + CRLF;
    assert s[|size|] == ';' && !IsHex(';') && !IsSpace(';') && s[0] == size[0];
    RStripKeeps(s, |size|);
    var t := RStrip(s);
    assert t[|size|] == ';' && t[0] == size[0];
    assert LStrip(t) == t;
    RStripKeeps(t, |size|);
    assert RStrip(t)[|size|] == ';' && RStrip(t)[0] == size[0];
    assert |size| > 1 ==> RStrip(t)[1] == size[1];
  }

  /**
   * A chunk extension, which section 4.1.1 of RFC 7230 allows after the size, kills the reader: what came
   * before has been handed on, and the round after that line raises.
   */
  lemma ExtensionCrashes(chunks: seq<Chunk>, size: string, extension: string, rest: string)
    requires forall i :: 0 <= i < |chunks| ==> WellSized(chunks[i])
    requires size != "" && AllHex(size) && '\n' !in extension
    ensures
      var stream := Encode(chunks) + ((size + (";" + extension)) + (CRLF + rest));
      var n := Cost(chunks) + |size| + 1 + |extension| + 2;
      && Rounds(Start(stream), n).Some? && Rounds(Start(stream), n).value.queue == Data(chunks)
      && Rounds(Start(stream), n + 1).None?
  {
    hide Round, WellSized, Rounds, Encode, Data, Cost;
    var line := size + (";" + extension);
    var r := Start(Encode(chunks) + (line + (CRLF + rest)));
    assert r.queue + Data(chunks) == Data(chunks);
    ChunksRead(r, chunks, line + (CRLF + rest));
    var idle := Rounds(r, Cost(chunks)).value;
    ExtensionRead(idle, size, extension, rest);
    RoundsAdd(r, Cost(chunks), |line| + 2);
    RoundsAdd(r, Cost(chunks), |line| + 3);
  }

  lemma ExtensionRead(r: Reader, size: string, extension: string, rest: string)
    requires Idle(r) && size != "" && AllHex(size) && '\n' !in extension
    requires r.input == (size + (";" + extension)) + (CRLF + rest)
    ensures
      var n := |size| + 1 + |extension| + 2;
      && Rounds(r, n).Some? && Rounds(r, n).value.queue == r.queue
      && Rounds(r, n + 1).None?
  {
    hide Round, Rounds;
    var line := size + (";" + extension);
    SizeRead(r, line, CRLF + rest);
    LineEndGathered(Reader(line, -1, CRLF + rest, r.queue), rest);
    RoundsAdd(r, |line|, 2);
    NextRound(r, |line| + 2);
    ExtensionUnreadable(size, extension);
    UnreadableLine(Reader(line + CRLF, -1, rest, r.queue));
  }

  lemma UnreadableLine(r: Reader)
    requires EndsWithCrlf(r.event) && RStrip(r.event) != "" && ParseInt16(RStrip(r.event)).None?
    ensures Round(r).None?
  {
  }

  /** A stream that ends inside a chunk: what there is of it is handed on like a whole one, and then nothing more. */
  lemma TruncatedChunk(chunks: seq<Chunk>, size: string, part: string, n: nat)
    requires forall i :: 0 <= i < |chunks| ==> WellSized(chunks[i])
    requires size != "" && AllHex(size) && |part| < HexNumber(size)
    requires n >= Cost(chunks) + (|size| + 3)
    ensures
      var end := Rounds(Start(Encode(chunks) + (size + (CRLF + part))), n);
      end.Some? && end.value.queue == Data(chunks) + [part]
  {
    hide Round, WellSized, Rounds, Encode, Data, Cost, HexNumber, Idle;
    var r := Start(Encode(chunks) + (size + (CRLF + part)));
    assert Idle(r) by { StartIsIdle(Encode(chunks) + (size + (CRLF + part))); }
    ChunksRead(r, chunks, size + (CRLF + part));
    var idle := Rounds(r, Cost(chunks)).value;
    assert r.queue + Data(chunks) == Data(chunks);
    PartRead(idle, size, part);
    RoundsAdd(r, Cost(chunks), |size| + 3);
    var done := Reader("", -1, "", idle.queue + [part]);
    StartIsIdle("");
    Drained(done, n - (Cost(chunks) + (|size| + 3)));
    RoundsAdd(r, Cost(chunks) + (|size| + 3), n - (Cost(chunks) + (|size| + 3)));
  }

  lemma StartIsIdle(input: string)
    ensures Idle(Start(input)) && forall queue :: Idle(Reader("", -1, input, queue))
  {
  }

  lemma PartRead(r: Reader, size: string, part: string)
    requires Idle(r) && size != "" && AllHex(size) && |part| < HexNumber(size)
    requires r.input == size + (CRLF + part)
    ensures Rounds(r, |size| + 3) == Some(Reader("", -1, "", r.queue + [part]))
  {
    hide Round, Rounds, HexNumber;
    SizeRead(r, size, CRLF + part);
    LineEndGathered(Reader(size, -1, CRLF + part, r.queue), part);
    RoundsAdd(r, |size|, 2);
    NextRound(r, |size| + 2);
    PartHandedOn(Reader(size + CRLF, -1, part, r.queue), size, part);
  }

  lemma PartHandedOn(r: Reader, size: string, part: string)
    requires size != "" && AllHex(size) && |part| < HexNumber(size)
    requires r.event == size + CRLF && r.length == -1 && r.input == part
    ensures Round(r) == Some(Reader("", -1, "", r.queue + [part]))
  {
    SizeParsed(size);
    assert part[..|part|] == part && part[|part|..] == "";
  }

  /** int(s, 16) also takes a sign, a 0x and blanks around the digits. */
  lemma IntSpellings(digits: string)
    requires digits != "" && AllHex(digits)
    ensures
      var n: int := HexNumber(digits);
      && ParseInt16(digits) == Some(n) && ParseInt16("+" + digits) == Some(n) && ParseInt16("-" + digits) == Some(-n)
      && ParseInt16("0x" + digits) == Some(n) && ParseInt16(" " + digits) == Some(n)
  {
    hide ParseInt16, HexNumber;
    PlainInt(digits);
    SignedInt('+', digits);
    SignedInt('-', digits);
    PrefixedInt(digits);
    PaddedInt(digits);
    assert ['+'] + digits == "+" + digits && ['-'] + digits == "-" + digits;
  }

  lemma PlainInt(digits: string)
    requires digits != "" && AllHex(digits)
    ensures ParseInt16(digits) == Some(HexNumber(digits))
  {
    hide HexNumber, LStrip, RStrip;
    assert IsHex(digits[0]) && IsHex(digits[|digits| - 1]) && (|digits| > 1 ==> IsHex(digits[1]));
    Unpadded(digits);
  }

  lemma SignedInt(sign: char, digits: string)
    requires digits != "" && AllHex(digits) && (sign == '+' || sign == '-')
    ensures var n: int := HexNumber(digits); ParseInt16([sign] + digits) == Some(if sign == '-' then -n else n)
  {
    hide HexNumber, LStrip, RStrip;
    assert IsHex(digits[0]) && IsHex(digits[|digits| - 1]) && (|digits| > 1 ==> IsHex(digits[1]));
    Unpadded([sign] + digits);
    assert ([sign] + digits)[1..] == digits;
  }

  lemma PrefixedInt(digits: string)
    requires digits != "" && AllHex(digits)
    ensures ParseInt16("0x" + digits) == Some(HexNumber(digits))
  {
    hide HexNumber, LStrip, RStrip;
    assert IsHex(digits[|digits| - 1]);
    Unpadded("0x" + digits);
    assert ("0x" + digits)[2..] == digits;
  }

  lemma PaddedInt(digits: string)
    requires digits != "" && AllHex(digits)
    ensures ParseInt16(" " + digits) == Some(HexNumber(digits))
  {
    PlainInt(digits);
    hide LStrip, RStrip;
    PaddedLeft(digits);
  }

  lemma PaddedLeft(s: string)
    ensures LStrip(" " + s) == LStrip(s)
  {
    assert (" " + s)[1..] == s;
  }

  lemma Unpadded(s: string)
    requires s != "" && !IsSpace(s[0]) && !IsSpace(s[|s| - 1])
    ensures LStrip(s) == s && RStrip(s) == s
  {
  }

  /** A negative size below -1 hands on the whole rest of the stream at once; -1 is skipped. */
  lemma NegativeSize(r: Reader, digits: string)
    requires digits != "" && AllHex(digits) && HexNumber(digits) > 0
    requires r.event == ("-" + digits) + CRLF
    ensures HexNumber(digits) > 1 ==> Round(r) == Some(Reader("", -1, "", r.queue + [r.input]))
    ensures HexNumber(digits) == 1 ==> Round(r) == Some(ReadByte(Reader("", -1, r.input, r.queue)))
  {
    var line := "-" + digits;
    assert line[|line| - 1] == digits[|digits| - 1];
    StripCrlf(line);
    assert LStrip(line) == line && line[1..] == digits;
    assert IsHex(digits[0]) && (|digits| > 1 ==> IsHex(digits[1]));
    var size: int := HexNumber(digits);
    assert ParseInt16(line) == Some(-size);
    assert r.input[..|r.input|] == r.input && r.input[|r.input|..] == "";
  }
}
