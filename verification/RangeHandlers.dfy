/** byterange.py: the file: and ftp: handlers, from the Range header to the file object they return. */
module RangeHandlers {
  import opened Wrappers
  import opened RangeHeaders
  import opened PlainFiles
  import opened Windows

  /** The ranges that come out of a header. */
  predicate Proper(b: ByteRange) {
    0 <= b.first && b != ByteRange(0, None) && (b.last.Some? ==> b.first <= b.last.value)
  }

  lemma ParsedIsNormal(header: Option<string>)
    ensures FromHeader(header).Ok? && FromHeader(header).value.Range? ==> Proper(FromHeader(header).value.range)
  {
  }

  /** What FileRangeHandler.open_local_file answers to a parsed header: the body and the announced Content-Length. */
  function LocalBody(content: string, parsed: Result<Parsed, RangeError>): Result<(string, int), Error>
    requires parsed.Ok? && parsed.value.Range? ==> Proper(parsed.value.range)
  {
    match parsed
    case Err(_) => Err(RangeNotSatisfiable)
    case Ok(Malformed) => Err(AssertionFailed)
    case Ok(NoRange) => Ok((content, |content|))
    case Ok(Range(b)) =>
      var last := if b.last.None? then |content| else b.last.value;
      if b.first < 0 || b.first > |content| || last > |content| then Err(RangeNotSatisfiable)
      else Ok((View(content, b.first, Some(last)), last - b.first))
  }

  function LocalAnswer(content: string, header: Option<string>): Result<(string, int), Error> {
    ParsedIsNormal(header);
    LocalBody(content, FromHeader(header))
  }

  method OpenLocalFile(content: string, header: Option<string>) returns (r: Result<(FileRef, int), Error>)
    ensures LocalAnswer(content, header).Err? ==> r == Err(LocalAnswer(content, header).error)
    ensures LocalAnswer(content, header).Ok? ==>
      && r.Ok? && r.value.0.Valid() && fresh(r.value.0.Repr())
      && r.value.0.Abs().data == LocalAnswer(content, header).value.0 && r.value.0.Abs().pos == 0
      && r.value.1 == LocalAnswer(content, header).value.1
  {
    hide FromHeader, Slice;
    var size: int := |content|;
    var raw := new RawFile(content, true);
    var fo := RawRef(raw);
    var brange := FromHeader(header);
    if brange.Err? {
      return Err(RangeNotSatisfiable);
    }
    if brange.value.Malformed? {
      return Err(AssertionFailed);
    }
    if brange.value.Range? {
      ParsedIsNormal(header);
      var fb := brange.value.range.first;
      var lb := if brange.value.range.last.None? then size else brange.value.range.last.value;
      if fb < 0 || fb > size || lb > size {
        return Err(RangeNotSatisfiable);
      }
      size := lb - fb;
      var w := OpenWindow(fo, Some((At(fb), At(lb))));
      fo := WindowRef(w.value);
    }
    return Ok((fo, size));
  }

  /**
   * bytes=a-b with a <= b and b >= 1: a range error exactly when the last byte is not in the file,
   * otherwise the slice, announced at its length.
   */
  lemma LocalClosedRange(content: string, header: string, a: nat, b: nat)
    requires Spells(header, a, Some(b)) && a <= b && b >= 1
    ensures LocalAnswer(content, Some(header))
         == if b < |content| then Ok((content[a..b + 1], b + 1 - a)) else Err(RangeNotSatisfiable)
  {
    hide FromHeader, Spells, LocalBody;
    FromHeaderExact(header, a, Some(b));
    ClosedBody(content, a, b);
  }

  lemma ClosedBody(content: string, a: nat, b: nat)
    requires a <= b && b >= 1
    ensures LocalBody(content, Expected(a, Some(b)))
         == if b < |content| then Ok((content[a..b + 1], b + 1 - a)) else Err(RangeNotSatisfiable)
  {
    assert Expected(a, Some(b)) == Ok(Range(ByteRange(a, Some(b + 1))));
  }

  /** bytes=a-: a range error exactly when a lies past the end. */
  lemma LocalOpenRange(content: string, header: string, a: nat)
    requires Spells(header, a, None)
    ensures LocalAnswer(content, Some(header))
         == if a <= |content| then Ok((content[a..], |content| - a)) else Err(RangeNotSatisfiable)
  {
    hide FromHeader, Spells, LocalBody;
    FromHeaderExact(header, a, None);
    OpenBody(content, a);
  }

  lemma OpenBody(content: string, a: nat)
    ensures LocalBody(content, Expected(a, None))
         == if a <= |content| then Ok((content[a..], |content| - a)) else Err(RangeNotSatisfiable)
  {
    if a <= |content| { assert content[a..|content|] == content[a..]; }
  }

  /** For every spelled range that is answered at all, the body has the announced length, except for bytes=0-0 on a
      non-empty file. */
  lemma LocalLengthHonest(content: string, header: string, a: nat, last: Option<nat>)
    requires Spells(header, a, last) && LocalAnswer(content, Some(header)).Ok?
    ensures |LocalAnswer(content, Some(header)).value.0| == LocalAnswer(content, Some(header)).value.1
       <==> !(a == 0 && last == Some(0) && content != "")
  {
    hide FromHeader, Spells, LocalBody;
    FromHeaderExact(header, a, last);
    LengthHonest(content, a, last);
  }

  lemma LengthHonest(content: string, a: nat, last: Option<nat>)
    requires LocalBody(content, Expected(a, last)).Ok?
    ensures |LocalBody(content, Expected(a, last)).value.0| == LocalBody(content, Expected(a, last)).value.1
       <==> !(a == 0 && last == Some(0) && content != "")
  {
  }

  /** Without a range the whole file is sent; a header that spells none fails an assertion. */
  lemma LocalOddRequests(content: string, header: string)
    ensures LocalAnswer(content, None) == Ok((content, |content|))
    ensures (forall first, last :: !Spells(header, first, last)) ==>
              LocalAnswer(content, Some(header)) == Err(AssertionFailed)
    ensures Spells(header, 0, None) ==> LocalAnswer(content, Some(header)) == Ok((content, |content|))
    ensures Spells(header, 0, Some(0)) ==> LocalAnswer(content, Some(header)) == Ok((content, 0))
  {
    NoHeader();
    hide FromHeader, Spells;
    MalformedExact(header);
    if Spells(header, 0, None) { FromHeaderExact(header, 0, None); }
    if Spells(header, 0, Some(0)) {
      FromHeaderExact(header, 0, Some(0));
      assert View(content, 0, Some(0)) == content;
    }
  }

  lemma LocalReversedRange(content: string, header: string, a: nat, b: nat)
    requires Spells(header, a, Some(b)) && b < a
    ensures LocalAnswer(content, Some(header)) == Err(RangeNotSatisfiable)
  {
    hide FromHeader, Spells;
    FromHeaderExact(header, a, Some(b));
  }

  lemma NoHeader()
    ensures FromHeader(None) == Ok(NoRange)
  {
  }

  // ---- FTP ----

  /** What a transfer of `range` shows, if it is answered: the bytes from its first on, clipped like a window. */
  function FtpView(content: string, range: ByteRange, announced: Option<nat>): Option<PlainFile>
    requires Proper(range)
  {
    if range.first > |content| then None
    else if range.last.None? then
      if announced.None? || announced.value == 0 || announced.value < range.first then None
      else Some(PlainFile(content[range.first..], 0, None))
    else
      var n: nat := range.last.value - range.first;
      Some(PlainFile(View(content[range.first..], 0, Some(n)), 0, Limit(Some(n))))
  }

  function FtpBody(content: string, parsed: Result<Parsed, RangeError>, announced: Option<nat>): Option<PlainFile>
    requires parsed.Ok? && parsed.value.Range? ==> Proper(parsed.value.range)
  {
    match parsed
    case Err(_) => None
    case Ok(Malformed) => None
    case Ok(NoRange) => Some(PlainFile(content, 0, None))
    case Ok(Range(b)) => FtpView(content, b, announced)
  }

  function FtpAnswer(content: string, header: Option<string>, announced: Option<nat>): Option<PlainFile> {
    ParsedIsNormal(header);
    FtpBody(content, FromHeader(header), announced)
  }

  /** Whether the server knows REST, and the length it announces for a transfer that starts at some offset, if any. */
  datatype FtpServer = FtpServer(knowsRest: bool, announce: nat -> Option<nat>) {
    /** What retrfile returns as the length when it is asked to start at this offset. */
    function Announced(first: nat): Option<nat> { announce(if knowsRest then first else 0) }
  }

  function FirstOf(header: Option<string>): nat {
    ParsedIsNormal(header);
    var parsed := FromHeader(header);
    if parsed.Ok? && parsed.value.Range? then parsed.value.range.first else 0
  }

  /**
   * retrfile(file, type, rest): a server that knows REST sends the file from there, or refuses an offset
   * past the end; one that does not sends it all, and a window skips to the offset.
   */
  method RetrFile(content: string, rest: Option<nat>, server: FtpServer)
    returns (r: Result<(FileRef, Option<nat>), Error>)
    requires rest.Some? ==> rest.value > 0
    ensures r.Ok? <==> rest.None? || rest.value <= |content|
    ensures r.Ok? ==>
      && r.value.0.Valid() && fresh(r.value.0.Repr())
      && r.value.0.Ground().At(0) <= |r.value.0.Ground().file.data|
      && r.value.0.Abs() == PlainFile(if rest.None? then content else content[rest.value..], 0, None)
      && r.value.1 == server.Announced(if rest.None? then 0 else rest.value)
      && r.value.1 == server.announce(if rest.Some? && server.knowsRest then rest.value else 0)
  {
    if rest.Some? && server.knowsRest {
      if rest.value > |content| {
        return Err(TransferRefused);
      }
      var raw := new RawFile(content[rest.value..], false);
      return Ok((RawRef(raw), server.announce(rest.value)));
    }
    var raw := new RawFile(content, false);
    if rest.None? {
      return Ok((RawRef(raw), server.announce(0)));
    }
    var w := OpenWindow(RawRef(raw), Some((At(rest.value), Unset)));
    if w.Err? {
      return Err(w.error);
    }
    return Ok((WindowRef(w.value), server.announce(0)));
  }

  /**
   * FTPRangeHandler.ftp_open: whether the server knows REST matters to the result only through the length that
   * it announces. (0,0) lets a last byte of 0 through as "no limit" (ViewIsSlice).
   */
  method FtpOpen(content: string, header: Option<string>, server: FtpServer) returns (r: Result<FileRef, Error>)
    ensures r.Ok? <==> FtpAnswer(content, header, server.Announced(FirstOf(header))).Some?
    ensures r.Ok? ==> r.value.Valid() && fresh(r.value.Repr())
                      && r.value.Abs() == FtpAnswer(content, header, server.Announced(FirstOf(header))).value
  {
    var rangeTup := FromHeader(header);
    if rangeTup.Err? {
      return Err(RangeNotSatisfiable);
    }
    if rangeTup.value.Malformed? {
      return Err(AssertionFailed);
    }
    if rangeTup.value.NoRange? {
      var whole := RetrFile(content, None, server);
      return Ok(whole.value.0);
    } else {
      ParsedIsNormal(header);
      r := FtpOpenRange(content, rangeTup.value.range, server);
    }
  }

  method FtpOpenRange(content: string, range: ByteRange, server: FtpServer) returns (r: Result<FileRef, Error>)
    requires Proper(range)
    ensures r.Ok? <==> FtpView(content, range, server.Announced(range.first)).Some?
    ensures r.Ok? ==> r.value.Valid() && fresh(r.value.Repr())
                      && r.value.Abs() == FtpView(content, range, server.Announced(range.first)).value
  {
    hide Slice;
    var fb: nat := range.first;
    var rest := if fb > 0 then Some(fb) else None;
    var transfer := RetrFile(content, rest, server);
    if transfer.Err? {
      return Err(transfer.error);
    }
    var (fp, announced) := transfer.value;
    assert fp.Abs().data == content[fb..];
    if range.last.None? {
      if announced.None? || announced.value == 0 || announced.value - fb < 0 {
        return Err(RangeNotSatisfiable);
      }
      return Ok(fp);
    }
    var retrlen: nat := range.last.value - fb;
    var w := OpenWindow(fp, Some((At(0), At(retrlen))));
    return Ok(WindowRef(w.value));
  }

  /** bytes=a-b with b >= 1: exactly that slice of the file, unless a lies past the end. */
  lemma FtpClosedRange(content: string, header: string, announced: Option<nat>, a: nat, b: nat)
    requires Spells(header, a, Some(b)) && a <= b && b >= 1
    ensures FtpAnswer(content, Some(header), announced)
         == if a <= |content| then Some(PlainFile(Slice(content, a, Some(b + 1)), 0, Some(b + 1 - a))) else None
  {
    hide FromHeader, Spells;
    FromHeaderExact(header, a, Some(b));
    if a <= |content| { FtpViewIsSlice(content, a, b + 1, announced); }
    assert FtpBody(content, Expected(a, Some(b)), announced) == FtpView(content, ByteRange(a, Some(b + 1)), announced);
  }

  /** bytes=a-: the tail from a, provided the server announces a length that reaches a; without one it is refused. */
  lemma FtpTail(content: string, header: string, announced: Option<nat>, a: nat)
    requires Spells(header, a, None) && a > 0
    ensures FtpAnswer(content, Some(header), announced)
         == if a <= |content| && announced.Some? && a <= announced.value
            then Some(PlainFile(content[a..], 0, None)) else None
  {
    hide FromHeader, Spells;
    FromHeaderExact(header, a, None);
    assert FtpBody(content, Expected(a, None), announced) == FtpView(content, ByteRange(a, None), announced);
  }

  /** The same for FTP, whose failures are not told apart here. */
  lemma FtpOddRequests(content: string, header: string, announced: Option<nat>)
    ensures FtpAnswer(content, None, announced) == Some(PlainFile(content, 0, None))
    ensures (forall first, last :: !Spells(header, first, last)) ==> FtpAnswer(content, Some(header), announced) == None
    ensures Spells(header, 0, None) || Spells(header, 0, Some(0)) ==>
              FtpAnswer(content, Some(header), announced) == Some(PlainFile(content, 0, None))
  {
    NoHeader();
    hide FromHeader, Spells;
    MalformedExact(header);
    if Spells(header, 0, None) { FromHeaderExact(header, 0, None); }
    if Spells(header, 0, Some(0)) {
      FromHeaderExact(header, 0, Some(0));
      assert View(content[0..], 0, Some(0)) == content;
    }
  }

  lemma FtpReversedRange(content: string, header: string, announced: Option<nat>, a: nat, b: nat)
    requires Spells(header, a, Some(b)) && b < a
    ensures FtpAnswer(content, Some(header), announced) == None
  {
    hide FromHeader, Spells;
    FromHeaderExact(header, a, Some(b));
  }

  /**
   * For a closed range two servers of the same file give the same answer. For bytes=a- they do if both announce
   * the length of the whole file; one that announces what it will send after REST is refused past the middle.
   */
  lemma FtpServersAgree(content: string, header: string, first: nat, last: Option<nat>, s: FtpServer, t: FtpServer)
    requires Spells(header, first, last)
    ensures
      var a := FtpAnswer(content, Some(header), s.Announced(FirstOf(Some(header))));
      var b := FtpAnswer(content, Some(header), t.Announced(FirstOf(Some(header))));
      && (last.Some? ==> a == b)
      && (s.Announced(first) == t.Announced(first) ==> a == b)
      && (last.None? && 0 < first <= |content| && s.Announced(first) == Some(|content| - first) ==>
            (a.Some? <==> 2 * first <= |content|))
  {
    hide FromHeader, Spells, FtpView;
    FromHeaderExact(header, first, last);
    if last.Some? {
      var at := FirstOf(Some(header));
      ClosedIgnoresAnnounced(content, first, last.value, s.Announced(at), t.Announced(at));
    } else if first > 0 {
      FtpTail(content, header, s.Announced(first), first);
    }
  }

  lemma ClosedIgnoresAnnounced(content: string, first: nat, last: nat, a: Option<nat>, b: Option<nat>)
    ensures FtpBody(content, Expected(first, Some(last)), a) == FtpBody(content, Expected(first, Some(last)), b)
  {
  }

  lemma FtpViewIsSlice(content: string, first: nat, last: nat, announced: Option<nat>)
    requires first < last && first <= |content|
    ensures FtpView(content, ByteRange(first, Some(last)), announced)
         == Some(PlainFile(Slice(content, first, Some(last)), 0, Some(last - first)))
  {
    SliceOfSlice(content, first, None, 0, Some(last - first));
    assert Slice(content, first, None) == content[first..];
  }
}
