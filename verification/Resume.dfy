/** grabber.py: PyCurlFileObject grabbing into a file, resuming a partial one, under the retry loop. */
module Resume {
  import opened Wrappers
  import opened Sequences
  import opened RangeHeaders
  import opened Retrying

  /** reget is true for 'simple'. The range is one that the options have normalised. */
  datatype GrabOptions = GrabOptions(reget: bool, range: Option<ByteRange>, retry: Options)

  ghost predicate Legal(o: GrabOptions) { Normal(o.range) && (o.range.Some? ==> o.range.value.first >= 0) }

  /** The local file: None while it does not exist. Writes are visible at once. */
  type File = Option<string>

  // ---- The server ----

  datatype Reply = Refused | Body(bytes: string)

  /**
   * A server that honours ranges (section 2.1 of RFC 7233): first-last, last inclusive. A range that
   * ends before it starts is invalid and the header is ignored; one that starts past the end is refused.
   */
  function Serve(content: string, asked: Option<(nat, Option<nat>)>): Reply {
    if asked.None? || (asked.value.1.Some? && asked.value.1.value < asked.value.0) then Body(content)
    else if asked.value.0 >= |content| then Refused
    else Body(Slice(content, asked.value.0, if asked.value.1.None? then None else Some(asked.value.1.value + 1)))
  }

  /** The server sends exactly the bytes that the RFC says the range selects. */
  lemma ServeSelects(content: string, first: nat, last: Option<nat>)
    requires last.Some? ==> first <= last.value
    ensures
      var reply := Serve(content, Some((first, last)));
      if first >= |content| then reply.Refused?
      else
        && reply.Body?
        && (forall i: nat :: RfcSelects(first, last, |content|, i) <==> first <= i < first + |reply.bytes|)
        && (forall i: nat :: RfcSelects(first, last, |content|, i) ==> reply.bytes[i - first] == content[i])
  {
  }

  /** What the header of a range asks for. */
  function Asked(r: Option<ByteRange>): Option<(nat, Option<nat>)>
    requires Normal(r) && (r.Some? ==> r.value.first >= 0)
  {
    if r.None? then None
    else Some((r.value.first,
               if r.value.last.None? then None else Some(if r.value.last.value == 0 then 0 else r.value.last.value - 1)))
  }

  lemma AskedIsPrinted(r: Option<ByteRange>)
    requires Normal(r) && (r.Some? ==> r.value.first >= 0)
    ensures ToHeader(AsTuple(r)).Ok?
    ensures r.Some? ==> ToHeader(AsTuple(r)).value.Some?
                        && Spells(ToHeader(AsTuple(r)).value.value, Asked(r).value.0, Asked(r).value.1)
    ensures r.None? ==> ToHeader(AsTuple(r)).value.None?
  {
    hide Spells;
    if r.Some? { HeaderSpells(r.value); }
  }

  /** How a transfer ends: as it should, in a pycurl error, or in a KeyboardInterrupt. */
  datatype Ending = Completes | Breaks | KeyPressed

  /**
   * What one attempt meets: whether the local file can be opened, the sizes of the blocks curl hands over and how
   * it stops, what the checkfunc says of a finished file (Success if there is none), and what the callback
   * installed for a failure of this kind raises.
   */
  datatype Episode = Episode(opens: bool, blocks: seq<nat>, ending: Ending,
                             check: Outcome<()>, callback: Option<Exception>)

  function Delivered(body: string, blocks: seq<nat>): (n: nat)
    ensures n <= |body|
  {
    if blocks == [] then 0
    else
      var n := Delivered(body, blocks[..|blocks| - 1]);
      Min(|body|, n + blocks[|blocks| - 1])
  }

  // ---- One attempt ----

  function RegetLength(o: GrabOptions, f: File): nat { if o.reget && f.Some? then |f.value| else 0 }

  /** The range requested before normalisation: the options' range shifted by what is there, but not if it starts at 0. */
  function Requested(o: GrabOptions, f: File): Option<ByteRange> {
    var k := RegetLength(o, f);
    if o.range.Some? then
      Some(if o.range.value.first != 0 then ByteRange(o.range.value.first + k, o.range.value.last) else o.range.value)
    else if o.reget && f.Some? then Some(ByteRange(k, None))
    else None
  }

  function Request(o: GrabOptions, f: File): Result<Option<ByteRange>, RangeError> { Normalize(AsTuple(Requested(o, f))) }

  lemma RequestIsNormal(o: GrabOptions, f: File)
    requires Legal(o)
    ensures Request(o, f).Ok? ==> Normal(Request(o, f).value)
                                  && (Request(o, f).value.Some? ==> Request(o, f).value.value.first >= 0)
  {
  }

  /** What is in the file when the first block arrives: mode 'ab' keeps it, mode 'wb' does not. */
  function Kept(o: GrabOptions, f: File): string { if o.reget && f.Some? then f.value else "" }

  /** How a transfer goes of which `got` of `all` bytes arrive: error 14 is whatever pycurl reports. */
  function Transferred(got: nat, all: Option<nat>, ending: Ending): Outcome<()> {
    if ending.KeyPressed? then Interrupted
    else if all == Some(got) && ending.Completes? then Success(())
    else GrabError(14)
  }

  /** The file after an attempt, and how the attempt went; 16 is an error on opening the local file. */
  function Attempted(content: string, o: GrabOptions, f: File, e: Episode): (File, Outcome<()>)
    requires Legal(o)
  {
    RequestIsNormal(o, f);
    var r := Request(o, f);
    if r.Err? then (f, Foreign)
    else if !e.opens then (f, GrabError(16))
    else
      match Serve(content, Asked(r.value))
      case Refused => (Some(Kept(o, f)), Transferred(0, None, e.ending))
      case Body(body) =>
        var n := Delivered(body, e.blocks);
        (Some(Kept(o, f) + body[..n]), Transferred(n, Some(|body|), e.ending))
  }

  /** Which attempts succeed, and what every other one ends in. */
  lemma AttemptOutcome(content: string, o: GrabOptions, f: File, e: Episode)
    requires Legal(o) && Request(o, f).Ok? && Normal(Request(o, f).value)
    requires Request(o, f).value.Some? ==> Request(o, f).value.value.first >= 0
    ensures
      var reply := Serve(content, Asked(Request(o, f).value));
      var outcome := Attempted(content, o, f, e).1;
      var whole := reply.Body? && Delivered(reply.bytes, e.blocks) == |reply.bytes|;
      && (outcome == Success(()) <==> e.opens && whole && e.ending.Completes?)
      && (outcome == Interrupted <==> e.opens && e.ending.KeyPressed?)
      && (outcome == GrabError(16) <==> !e.opens)
      && (outcome == GrabError(14) <==> e.opens && !e.ending.KeyPressed? && !(whole && e.ending.Completes?))
  {
  }

  class LocalFile {
    var data: File

    constructor (data: File)
      ensures this.data == data
    {
      this.data := data;
    }
  }

  class PyCurlFileObject {
    const opts: GrabOptions
    const file: LocalFile
    var append: bool
    var amountRead: nat

    constructor (opts: GrabOptions, file: LocalFile)
      ensures this.opts == opts && this.file == file && !append && amountRead == 0
    {
      this.opts, this.file, append, amountRead := opts, file, false, 0;
    }

    method BuildRange() returns (r: Result<Option<ByteRange>, RangeError>)
      modifies this
      ensures r == Request(opts, file.data)
      ensures append == (opts.reget && file.data.Some?)
      ensures amountRead == if append then |file.data.value| else old(amountRead)
    {
      append := false;
      var regetLength := 0;
      var rt: Option<ByteRange> := None;
      if opts.reget && file.data.Some? {
        regetLength := |file.data.value|;
        amountRead := regetLength;
        rt := Some(ByteRange(regetLength, None));
        append := true;
      }
      if opts.range.Some? {
        rt := opts.range;
        if rt.value.first != 0 {
          rt := Some(ByteRange(rt.value.first + regetLength, rt.value.last));
        }
      }
      return Normalize(AsTuple(rt));
    }

    method Retrieve(buf: string)
      requires file.data.Some?
      modifies this`amountRead, file
      ensures file.data == Some(old(file.data).value + buf) && amountRead == old(amountRead) + |buf|
    {
      amountRead := amountRead + |buf|;
      file.data := Some(file.data.value + buf);
    }

    /** One attempt; the amount reported to the progress meter is the size of the file. */
    method DoGrab(content: string, e: Episode) returns (outcome: Outcome<()>)
      requires Legal(opts) && amountRead == 0
      modifies this, file
      ensures (file.data, outcome) == Attempted(content, opts, old(file.data), e)
      ensures !outcome.Foreign? && e.opens ==> file.data.Some? && amountRead == |file.data.value|
      ensures !outcome.Foreign? && !e.opens ==> outcome == GrabError(16) && file.data == old(file.data)
      ensures !outcome.Foreign? && e.opens ==> (outcome.Interrupted? <==> e.ending.KeyPressed?)
      ensures e.opens && outcome.GrabError? ==> outcome.code == 14
      ensures outcome.Success? ==> e.opens && e.ending.Completes?
      ensures outcome.Foreign? ==> file.data == old(file.data)
    {
      RequestIsNormal(opts, file.data);
      var range := BuildRange();
      if range.Err? {
        return Foreign;
      }
      if !e.opens {
        return GrabError(16);
      }
      if !append {
        file.data := Some("");
      }
      ghost var kept := file.data.value;
      match Serve(content, Asked(range.value)) {
        case Refused =>
          return if e.ending.KeyPressed? then Interrupted else GrabError(14);
        case Body(body) =>
          var n := 0;
          var i := 0;
          assert kept == kept + body[..0];
          while i < |e.blocks|
            invariant 0 <= i <= |e.blocks| && n == Delivered(body, e.blocks[..i])
            invariant file.data == Some(kept + body[..n]) && amountRead == |kept| + n
          {
            var next := Min(|body|, n + e.blocks[i]);
            assert e.blocks[..i + 1][..i] == e.blocks[..i];
            BlockTaken(kept, body, n, next);
            Retrieve(body[n..next]);
            n, i := next, i + 1;
          }
          assert e.blocks[..i] == e.blocks;
          if e.ending.KeyPressed? {
            return Interrupted;
          }
          if n == |body| && e.ending.Completes? {
            return Success(());
          }
          return GrabError(14);
      }
    }
  }

  // ---- What one attempt does to a prefix ----

  /** The bytes asked for. */
  function Wanted(content: string, o: GrabOptions): string
    requires Legal(o)
  {
    if o.range.None? then content
    else Slice(content, o.range.value.first, if o.range.value.last.None? then None else Some(o.range.value.last.value))
  }

  ghost predicate Partial(f: File, wanted: string) { f.Some? ==> f.value <= wanted }

  /** Nothing to resume from, or an open end, or a range that starts after 0 and has not been filled. */
  predicate SafeStart(o: GrabOptions, f: File)
    requires Legal(o)
  {
    var k := RegetLength(o, f);
    || o.range.None?
    || o.range.value.last.None?
    || (if o.range.value.first == 0 then k == 0 && o.range.value.last.value > 0
        else o.range.value.first + k < o.range.value.last.value)
  }

  /** The range a safe start asks for: what is missing. */
  function Missing(o: GrabOptions, k: nat): Option<ByteRange> {
    if o.range.None? then (if k == 0 then None else Some(ByteRange(k, None)))
    else if o.range.value.first == 0 then o.range
    else Some(ByteRange(o.range.value.first + k, o.range.value.last))
  }

  lemma SafeRequest(o: GrabOptions, f: File)
    requires Legal(o) && SafeStart(o, f)
    ensures Request(o, f) == Ok(Missing(o, RegetLength(o, f)))
  {
  }

  /** The reply to a non-empty range is the slice it names. */
  lemma ReplyIsSlice(content: string, first: nat, last: Option<nat>)
    requires last.Some? ==> first < last.value
    requires first != 0 || last.Some?
    ensures Serve(content, Asked(Some(ByteRange(first, last))))
         == if first >= |content| then Refused else Body(Slice(content, first, last))
  {
  }

  /** What the server sends to a safe start continues the file towards the bytes wanted. */
  lemma SafeContinues(content: string, o: GrabOptions, f: File)
    requires Legal(o) && Partial(f, Wanted(content, o)) && SafeStart(o, f)
    ensures Request(o, f).Ok? && Normal(Request(o, f).value)
    ensures
      var reply := Serve(content, Asked(Request(o, f).value));
      reply.Body? ==> Kept(o, f) + reply.bytes == Wanted(content, o)
  {
    hide Request, Slice, Serve, Asked, Legal;
    SafeRequest(o, f);
    var k := RegetLength(o, f);
    assert Kept(o, f) == Wanted(content, o)[..k];
    MissingReply(content, o, k);
  }

  lemma MissingReply(content: string, o: GrabOptions, k: nat)
    requires Legal(o) && k <= |Wanted(content, o)|
    requires o.range.Some? && o.range.value.last.Some? ==>
               if o.range.value.first == 0 then k == 0 && o.range.value.last.value > 0
               else o.range.value.first + k < o.range.value.last.value
    ensures Normal(Missing(o, k)) && (Missing(o, k).Some? ==> Missing(o, k).value.first >= 0)
    ensures
      var reply := Serve(content, Asked(Missing(o, k)));
      reply.Body? ==> Wanted(content, o)[..k] + reply.bytes == Wanted(content, o)
  {
    hide Slice, Serve, Asked;
    if o.range.Some? {
      var b := o.range.value;
      var last: Option<nat> := if b.last.None? then None else Some(b.last.value);
      SliceContinues(content, b.first, last, k);
      ReplyIsSlice(content, b.first + k, last);
    } else if k == 0 {
      TakeNothing(content);
      PlainReply(content);
    } else {
      WholeSlice(content);
      SliceContinues(content, 0, None, k);
      ReplyIsSlice(content, k, None);
    }
  }

  lemma PlainReply(content: string)
    ensures Asked(None) == None && Serve(content, None) == Body(content)
  {
  }

  lemma WholeSlice(content: string)
    ensures Slice(content, 0, None) == content
  {
  }

  lemma TakeNothing(content: string)
    ensures content[..0] + content == content
  {
  }

  lemma SliceContinues(content: string, first: nat, last: Option<nat>, k: nat)
    requires k <= |Slice(content, first, last)|
    ensures Slice(content, first, last)[..k] + Slice(content, first + k, last) == Slice(content, first, last)
  {
  }

  lemma SafeAttempt(content: string, o: GrabOptions, f: File, e: Episode)
    requires Legal(o) && Partial(f, Wanted(content, o)) && SafeStart(o, f)
    ensures Partial(Attempted(content, o, f, e).0, Wanted(content, o))
    ensures Attempted(content, o, f, e).1.Success? ==> Attempted(content, o, f, e).0 == Some(Wanted(content, o))
    ensures !Attempted(content, o, f, e).1.Foreign?
  {
    SafeContinues(content, o, f);
    hide Serve, Asked, Request, Wanted, SafeStart, Legal, Delivered;
    match Serve(content, Asked(Request(o, f).value)) {
      case Refused =>
      case Body(body) =>
        PrefixTaken(Kept(o, f), body, Delivered(body, e.blocks), Wanted(content, o));
    }
  }

  lemma PrefixTaken(kept: string, body: string, n: nat, wanted: string)
    requires kept + body == wanted && n <= |body|
    ensures kept + body[..n] <= wanted && (n == |body| ==> kept + body[..n] == wanted)
  {
    assert kept + body[..n] == wanted[..|kept| + n];
    assert body[..|body|] == body;
  }

  lemma BlockTaken(kept: string, body: string, n: nat, next: nat)
    requires n <= next <= |body|
    ensures (kept + body[..n]) + body[n..next] == kept + body[..next]
  {
    assert body[..n] + body[n..next] == body[..next];
  }

  /** From any other start a full delivery overshoots: the reply starts over at byte 0, or is the whole file. */
  lemma UnsafeOvershoots(content: string, o: GrabOptions, f: File)
    requires Legal(o) && Partial(f, Wanted(content, o)) && !SafeStart(o, f) && content != ""
    ensures Request(o, f).Ok? && Normal(Request(o, f).value)
    ensures
      var reply := Serve(content, Asked(Request(o, f).value));
      reply.Body? && |Kept(o, f) + reply.bytes| > |Wanted(content, o)|
  {
    RequestIsNormal(o, f);
  }

  /** An attempt that gets everything it asks for, and passes its check. */
  function Full(content: string, o: GrabOptions, f: File): Episode
    requires Legal(o)
  {
    RequestIsNormal(o, f);
    var reply := if Request(o, f).Ok? then Serve(content, Asked(Request(o, f).value)) else Refused;
    Episode(true, if reply.Body? then [|reply.bytes|] else [], Completes, Success(()), None)
  }

  /** From an unsafe state, an attempt that gets everything succeeds, and leaves more than the bytes wanted. */
  lemma FullOvershoots(content: string, o: GrabOptions, f: File)
    requires Legal(o) && Partial(f, Wanted(content, o)) && !SafeStart(o, f) && content != ""
    ensures Attempted(content, o, f, Full(content, o, f)).1.Success? && Full(content, o, f).check.Success?
    ensures
      var after := Attempted(content, o, f, Full(content, o, f)).0;
      after.Some? && |after.value| > |Wanted(content, o)|
  {
    UnsafeOvershoots(content, o, f);
    hide Serve, Asked, Request, Wanted, SafeStart, Legal;
    var body := Serve(content, Asked(Request(o, f).value)).bytes;
    OneBlock(body, |body|);
    assert body[..|body|] == body;
  }

  /** From a safe state, an attempt that gets a reply, and all of it, succeeds with the bytes wanted. */
  lemma FullCompletes(content: string, o: GrabOptions, f: File)
    requires Legal(o) && Partial(f, Wanted(content, o)) && SafeStart(o, f)
    requires content != "" && RegetLength(o, f) + (if o.range.None? then 0 else o.range.value.first) < |content|
    ensures Attempted(content, o, f, Full(content, o, f)) == (Some(Wanted(content, o)), Success(()))
  {
    SafeContinues(content, o, f);
    SafeRequest(o, f);
    MissingIsServed(content, o, RegetLength(o, f));
    hide Serve, Asked, Request, Wanted, SafeStart, Legal, Missing;
    var body := Serve(content, Asked(Request(o, f).value)).bytes;
    OneBlock(body, |body|);
    assert body[..|body|] == body;
  }

  lemma MissingIsServed(content: string, o: GrabOptions, k: nat)
    requires Legal(o) && k + (if o.range.None? then 0 else o.range.value.first) < |content|
    requires o.range.Some? && o.range.value.first == 0 ==> k == 0
    requires Normal(Missing(o, k)) && (Missing(o, k).Some? ==> Missing(o, k).value.first >= 0)
    ensures Serve(content, Asked(Missing(o, k))).Body?
  {
  }

  /** A file that is complete already cannot be resumed: the server refuses, every attempt ends in error 14. */
  lemma CompleteIsRefused(content: string, o: GrabOptions, e: Episode)
    requires o.reget && o.range.None? && content != "" && e.opens && !e.ending.KeyPressed?
    ensures Attempted(content, o, Some(content), e) == (Some(content), GrabError(14))
  {
  }

  /** A file longer than the range it is to hold: the range to ask for is invalid, and nothing is done. */
  lemma OverlongFails(content: string, o: GrabOptions, f: File, e: Episode)
    requires Legal(o) && Resumable(o) && o.range.value.first > 0
    requires o.range.value.first + RegetLength(o, f) > o.range.value.last.value
    ensures Attempted(content, o, f, e) == (f, Foreign)
  {
  }

  /**
   * Whatever an attempt meets, it leaves the file a prefix of the bytes wanted exactly when it starts from a
   * safe state (or the remote file is empty).
   */
  lemma AttemptKeepsPrefix(content: string, o: GrabOptions, f: File)
    requires Legal(o) && Partial(f, Wanted(content, o))
    ensures (forall e :: Partial(Attempted(content, o, f, e).0, Wanted(content, o)))
       <==> SafeStart(o, f) || content == ""
  {
    if SafeStart(o, f) {
      forall e { SafeAttempt(content, o, f, e); }
    } else if content == "" {
      forall e { EmptyStaysEmpty(o, f, e); }
    } else {
      FullOvershoots(content, o, f);
      hide Attempted, Wanted, SafeStart, Legal;
      assert !Partial(Attempted(content, o, f, Full(content, o, f)).0, Wanted(content, o));
    }
  }

  lemma EmptyStaysEmpty(o: GrabOptions, f: File, e: Episode)
    requires Legal(o) && Partial(f, Wanted("", o))
    ensures Partial(Attempted("", o, f, e).0, Wanted("", o))
    ensures Attempted("", o, f, e).1.Success? ==> Attempted("", o, f, e).0 == Some(Wanted("", o))
  {
    assert Wanted("", o) == "" && Kept(o, f) == "";
    RequestIsNormal(o, f);
  }

  /** An attempt leaves a safe state behind exactly when it does not spoil the range it would resume. */
  lemma InterruptedStaysSafe(content: string, o: GrabOptions, f: File, e: Episode)
    requires Legal(o) && Partial(f, Wanted(content, o)) && SafeStart(o, f)
    ensures SafeStart(o, Attempted(content, o, f, e).0) <==> !Spoils(content, o, f, e)
  {
    RequestIsNormal(o, f);
    if o.range.Some? && o.range.value.last.Some? && o.reget {
      SafeContinues(content, o, f);
      WantedLength(content, o);
      hide Serve, Asked, Request, Wanted, Legal, Delivered;
      var reply := Serve(content, Asked(Request(o, f).value));
      if reply.Body? {
        assert |Kept(o, f)| + |reply.bytes| == |Wanted(content, o)|;
      }
    }
  }

  lemma WantedLength(content: string, o: GrabOptions)
    requires Legal(o) && o.range.Some? && o.range.value.last.Some? && o.range.value.first < o.range.value.last.value
    ensures |Wanted(content, o)| <= o.range.value.last.value - o.range.value.first
    ensures o.range.value.last.value <= |content|
       <==> |Wanted(content, o)| == o.range.value.last.value - o.range.value.first
  {
  }

  /** Something arrives of a closed range that starts at 0, or the whole of one that ends within the content. */
  predicate Spoils(content: string, o: GrabOptions, f: File, e: Episode)
    requires Legal(o)
  {
    RequestIsNormal(o, f);
    && Resumable(o) && e.opens && Request(o, f).Ok?
    && var reply := Serve(content, Asked(Request(o, f).value));
       && reply.Body?
       && var n := Delivered(reply.bytes, e.blocks);
          if o.range.value.first == 0 then n > 0 else o.range.value.last.value <= |content| && n == |reply.bytes|
  }

  /** A closed range that is to be resumed. */
  predicate Resumable(o: GrabOptions) { o.reget && o.range.Some? && o.range.value.last.Some? }

  // ---- Whole runs ----

  /** The file after so many attempts, attempt i meeting episodes(i). */
  function FileAt(content: string, o: GrabOptions, f: File, episodes: nat -> Episode, attempts: nat): File
    requires Legal(o)
  {
    if attempts == 0 then f
    else Attempted(content, o, FileAt(content, o, f, episodes, attempts - 1), episodes(attempts)).0
  }

  /** The attempt as the retry loop sees it: a grab that succeeds is then checked. */
  function Checked(grabbed: Outcome<()>, e: Episode): Attempt<()> {
    Attempt(if grabbed.Success? then e.check else grabbed, e.callback)
  }

  function AttemptAt(content: string, o: GrabOptions, f: File, episodes: nat -> Episode, t: nat): Attempt<()>
    requires Legal(o)
  {
    if t == 0 then Attempt(Foreign, None)
    else Checked(Attempted(content, o, FileAt(content, o, f, episodes, t - 1), episodes(t)).1, episodes(t))
  }

  /** The retry loop gets as far as attempt n: it tries again after all before. */
  ghost predicate Made(content: string, o: GrabOptions, f: File, episodes: nat -> Episode, n: nat)
    requires Legal(o)
  {
    forall t :: 1 <= t < n ==> After(o.retry, t, AttemptAt(content, o, f, episodes, t)).Again?
  }

  /**
   * What a caller can check beforehand: a safe start, and a single attempt, or no closed range under reget that
   * starts at 0 or ends within the content. A remote file without bytes is always safe.
   */
  predicate RunsSafe(content: string, o: GrabOptions, f: File)
    requires Legal(o)
  {
    content == "" || (SafeStart(o, f) && !(CanRetry(o) && Refills(content, o)))
  }

  /** Some failure of the first attempt is tried again, if only a KeyboardInterrupt. */
  predicate CanRetry(o: GrabOptions) { o.retry.retry.Some? && o.retry.retry.value != 1 }

  predicate Refills(content: string, o: GrabOptions) {
    Resumable(o) && (o.range.value.first == 0 || o.range.value.last.value <= |content|)
  }

  /** Attempt t gets the whole reply, so that its checkfunc is asked. */
  predicate Grabbed(content: string, o: GrabOptions, f: File, episodes: nat -> Episode, t: nat)
    requires Legal(o)
  {
    t >= 1 && Attempted(content, o, FileAt(content, o, f, episodes, t - 1), episodes(t)).1.Success?
  }

  /** How attempt t ends: the checkfunc's answer if the file came, else the error of the grab. */
  ghost function Verdict(content: string, o: GrabOptions, f: File, episodes: nat -> Episode, t: nat): (v: Outcome<()>)
    requires Legal(o) && t >= 1
    ensures Grabbed(content, o, f, episodes, t) ==> v == episodes(t).check
    ensures !Grabbed(content, o, f, episodes, t) ==>
              v == Attempted(content, o, FileAt(content, o, f, episodes, t - 1), episodes(t)).1 && !v.Success?
  {
    AttemptAt(content, o, f, episodes, t).outcome
  }

  /** Attempt t is not the last: no callback raises, tries are left, and its failure is one to be tried again. */
  ghost predicate TriedAgain(content: string, o: GrabOptions, f: File, episodes: nat -> Episode, t: nat)
    requires Legal(o) && t >= 1
  {
    var v := Verdict(content, o, f, episodes, t);
    && episodes(t).callback.None? && o.retry.retry.Some? && t != o.retry.retry.value
    && (v.Interrupted? || (v.GrabError? && v.code in o.retry.retrycodes))
  }

  lemma AgainIsTriedAgain(content: string, o: GrabOptions, f: File, episodes: nat -> Episode, t: nat)
    requires Legal(o) && t >= 1 && After(o.retry, t, AttemptAt(content, o, f, episodes, t)).Again?
    ensures TriedAgain(content, o, f, episodes, t)
  {
    hide Attempted;
  }

  /** urlgrab into a file: attempts until one succeeds or is not to be tried again; `bound` is such an attempt. */
  method UrlGrab(content: string, o: GrabOptions, file: LocalFile, episodes: nat -> Episode, ghost bound: nat)
    returns (r: Result<(), Exception>, tries: nat)
    requires Legal(o)
    requires bound >= 1 && !After(o.retry, bound, AttemptAt(content, o, file.data, episodes, bound)).Again?
    modifies file
    ensures 1 <= tries <= bound && Made(content, o, old(file.data), episodes, tries)
    ensures file.data == FileAt(content, o, old(file.data), episodes, tries)
    ensures !After(o.retry, tries, AttemptAt(content, o, old(file.data), episodes, tries)).Again?
    ensures r == Final(After(o.retry, tries, AttemptAt(content, o, old(file.data), episodes, tries)))
    ensures r.Ok? ==> Grabbed(content, o, old(file.data), episodes, tries) && episodes(tries).check.Success?
    ensures forall t :: 1 <= t < tries ==> TriedAgain(content, o, old(file.data), episodes, t)
    ensures
      var e := episodes(tries);
      match Verdict(content, o, old(file.data), episodes, tries)
      case Success(v) => r == Ok(v)
      case Foreign => r == Err(Uncaught)
      case GrabError(code) =>
        && (e.callback.Some? ==> r == Err(e.callback.value))
        && (e.callback.None? ==> r == Err(Grab(code)) && (o.retry.retry.None? || tries == o.retry.retry.value
                                                           || code !in o.retry.retrycodes))
      case Interrupted =>
        && (e.callback.Some? ==> r == Err(e.callback.value))
        && (e.callback.None? ==> r == Err(Interrupt) && (o.retry.retry.None? || tries == o.retry.retry.value))
    ensures Partial(old(file.data), Wanted(content, o)) && RunsSafe(content, o, old(file.data)) ==>
              Partial(file.data, Wanted(content, o)) && (r.Ok? ==> file.data == Some(Wanted(content, o)))
  {
    hide Attempted, Wanted, RunsSafe, Partial, Legal;
    ghost var f := file.data;
    tries := 0;
    while true
      invariant 0 <= tries < bound
      invariant file.data == FileAt(content, o, f, episodes, tries)
      invariant Made(content, o, f, episodes, tries + 1)
      decreases bound - tries
    {
      tries := tries + 1;
      var e := episodes(tries);
      var fo := new PyCurlFileObject(o, file);
      var outcome := fo.DoGrab(content, e);
      if outcome.Success? {
        outcome := e.check;
      }
      var next := After(o.retry, tries, Attempt(outcome, e.callback));
      assert AttemptAt(content, o, f, episodes, tries) == Attempt(outcome, e.callback);
      if !next.Again? {
        forall t | 1 <= t < tries ensures TriedAgain(content, o, f, episodes, t) {
          AgainIsTriedAgain(content, o, f, episodes, t);
        }
        if Partial(f, Wanted(content, o)) && RunsSafe(content, o, f) {
          ResumeSafety(content, o, f, episodes, tries);
        }
        return Final(next), tries;
      }
    }
  }

  predicate SpoilsAt(content: string, o: GrabOptions, f: File, episodes: nat -> Episode, t: nat)
    requires Legal(o)
  {
    t >= 1 && Spoils(content, o, FileAt(content, o, f, episodes, t - 1), episodes(t))
  }

  /** A run from a safe prefix stays one as long as no attempt before the last spoils the range. */
  lemma {:induction false} UnspoiltRun(content: string, o: GrabOptions, f: File, episodes: nat -> Episode, n: nat)
    requires Legal(o) && Partial(f, Wanted(content, o)) && SafeStart(o, f)
    requires forall i :: 1 <= i < n ==> !SpoilsAt(content, o, f, episodes, i)
    ensures Partial(FileAt(content, o, f, episodes, n), Wanted(content, o))
    ensures n >= 1 ==> SafeStart(o, FileAt(content, o, f, episodes, n - 1))
                       && Partial(FileAt(content, o, f, episodes, n - 1), Wanted(content, o))
    ensures AttemptAt(content, o, f, episodes, n).outcome.Success? ==>
              FileAt(content, o, f, episodes, n) == Some(Wanted(content, o))
  {
    hide Attempted, Wanted, SafeStart, Legal, Spoils, Partial;
    if n >= 1 {
      UnspoiltRun(content, o, f, episodes, n - 1);
      var before := FileAt(content, o, f, episodes, n - 1);
      if n >= 2 {
        assert !SpoilsAt(content, o, f, episodes, n - 1);
        InterruptedStaysSafe(content, o, FileAt(content, o, f, episodes, n - 2), episodes(n - 1));
      }
      SafeAttempt(content, o, before, episodes(n));
    }
  }

  lemma {:induction false} EmptyRun(o: GrabOptions, f: File, episodes: nat -> Episode, n: nat)
    requires Legal(o) && Partial(f, Wanted("", o))
    ensures Partial(FileAt("", o, f, episodes, n), Wanted("", o))
    ensures AttemptAt("", o, f, episodes, n).outcome.Success? ==> FileAt("", o, f, episodes, n) == Some(Wanted("", o))
  {
    hide Attempted, Wanted, Legal, Partial;
    if n >= 1 {
      EmptyRun(o, f, episodes, n - 1);
      EmptyStaysEmpty(o, FileAt("", o, f, episodes, n - 1), episodes(n));
    }
  }

  /**
   * Resume safety over whole runs: after every attempt the loop makes, the file is a prefix of the bytes wanted,
   * and a run that succeeds leaves exactly those.
   */
  lemma ResumeSafety(content: string, o: GrabOptions, f: File, episodes: nat -> Episode, n: nat)
    requires Legal(o) && Partial(f, Wanted(content, o)) && RunsSafe(content, o, f)
    requires Made(content, o, f, episodes, n)
    ensures Partial(FileAt(content, o, f, episodes, n), Wanted(content, o))
    ensures AttemptAt(content, o, f, episodes, n).outcome.Success? ==>
              FileAt(content, o, f, episodes, n) == Some(Wanted(content, o))
  {
    hide Attempted, Wanted, SafeStart, Legal, Partial, FileAt, AttemptAt;
    if content == "" {
      EmptyRun(o, f, episodes, n);
    } else {
      forall i | 1 <= i < n ensures !SpoilsAt(content, o, f, episodes, i) {
        assert After(o.retry, 1, AttemptAt(content, o, f, episodes, 1)).Again?;
      }
      UnspoiltRun(content, o, f, episodes, n);
    }
  }

  /** The condition is exact: without it some run the loop makes succeeds with more than the bytes wanted. */
  lemma ResumeExact(content: string, o: GrabOptions, f: File)
    requires Legal(o) && Partial(f, Wanted(content, o))
    ensures RunsSafe(content, o, f) <==>
      forall episodes, n :: Made(content, o, f, episodes, n) ==>
        Partial(FileAt(content, o, f, episodes, n), Wanted(content, o))
    ensures RunsSafe(content, o, f) <==>
      forall episodes, n ::
        Made(content, o, f, episodes, n) && AttemptAt(content, o, f, episodes, n).outcome.Success? ==>
          FileAt(content, o, f, episodes, n) == Some(Wanted(content, o))
  {
    hide Attempted, Wanted, Legal, FileAt, AttemptAt, Made, RunsSafe;
    if RunsSafe(content, o, f) {
      forall episodes, n | Made(content, o, f, episodes, n)
        ensures Partial(FileAt(content, o, f, episodes, n), Wanted(content, o))
        ensures AttemptAt(content, o, f, episodes, n).outcome.Success? ==>
                  FileAt(content, o, f, episodes, n) == Some(Wanted(content, o))
      {
        ResumeSafety(content, o, f, episodes, n);
      }
    } else {
      var episodes, n := UnsafeRun(content, o, f);
    }
  }

  /** The run that goes wrong: from an unsafe start the first attempt, else the second after one that spoils the range. */
  lemma UnsafeRun(content: string, o: GrabOptions, f: File) returns (episodes: nat -> Episode, n: nat)
    requires Legal(o) && Partial(f, Wanted(content, o)) && !RunsSafe(content, o, f)
    ensures Made(content, o, f, episodes, n) && AttemptAt(content, o, f, episodes, n).outcome.Success?
    ensures
      var after := FileAt(content, o, f, episodes, n);
      after.Some? && |after.value| > |Wanted(content, o)|
  {
    hide Attempted, Wanted, Legal, SafeStart, Partial, Full;
    if !SafeStart(o, f) {
      FullOvershoots(content, o, f);
      episodes, n := _ => Full(content, o, f), 1;
      assert FileAt(content, o, f, episodes, 0) == f;
    } else {
      var first := SpoilingEpisode(content, o, f);
      var mid := Attempted(content, o, f, first).0;
      SafeAttempt(content, o, f, first);
      InterruptedStaysSafe(content, o, f, first);
      FullOvershoots(content, o, mid);
      var second := Full(content, o, mid);
      episodes, n := t => if t == 1 then first else second, 2;
      assert FileAt(content, o, f, episodes, 0) == f;
      assert FileAt(content, o, f, episodes, 1) == mid;
    }
  }

  /** One byte, or all of them, and then a KeyboardInterrupt. */
  lemma SpoilingEpisode(content: string, o: GrabOptions, f: File) returns (e: Episode)
    requires Legal(o) && Partial(f, Wanted(content, o)) && SafeStart(o, f) && content != "" && Refills(content, o)
    ensures Spoils(content, o, f, e) && e.callback.None?
    ensures Attempted(content, o, f, e).1.Interrupted?
  {
    SafeRequest(o, f);
    RequestIsNormal(o, f);
    var b := o.range.value;
    var k := RegetLength(o, f);
    ReplyIsSlice(content, b.first + k, Some(b.last.value));
    var body := Serve(content, Asked(Request(o, f).value)).bytes;
    e := Episode(true, [if b.first == 0 then 1 else |body|], KeyPressed, Success(()), None);
    OneBlock(body, e.blocks[0]);
  }

  /** Resuming a range that starts at 0 corrupts the file: it is fetched from 0 again and appended. */
  lemma ResumeFromZeroCorrupts()
    ensures
      var o := GrabOptions(true, Some(ByteRange(0, Some(4))), Options(Some(2), {14}));
      var episodes := (i: nat) => if i == 1 then Episode(true, [2], Breaks, Success(()), None)
                                  else Episode(true, [4], Completes, Success(()), None);
      && Made("abcdef", o, None, episodes, 2) && AttemptAt("abcdef", o, None, episodes, 2).outcome.Success?
      && FileAt("abcdef", o, None, episodes, 2) == Some("ab" + "abcd")
  {
    var o := GrabOptions(true, Some(ByteRange(0, Some(4))), Options(Some(2), {14}));
    var range := Some(ByteRange(0, Some(4)));
    var first, second := Episode(true, [2], Breaks, Success(()), None), Episode(true, [4], Completes, Success(()), None);
    var episodes := (i: nat) => if i == 1 then first else second;
    OneBlock("abcd", 2);
    OneBlock("abcd", 4);
    assert "abcdef"[0..4] == "abcd" && "abcd"[..2] == "ab" && "abcd"[..4] == "abcd";
    assert Request(o, None) == Ok(range) && Request(o, Some("ab")) == Ok(range);
    assert Serve("abcdef", Asked(range)) == Body("abcd");
    assert Attempted("abcdef", o, None, first) == (Some("ab"), GrabError(14)) by {
      assert Kept(o, None) + "ab" == "ab";
    }
    assert FileAt("abcdef", o, None, episodes, 0) == None;
    assert FileAt("abcdef", o, None, episodes, 1) == Some("ab");
    assert Attempted("abcdef", o, Some("ab"), second) == (Some("ab" + "abcd"), Success(()));
  }

  /**
   * So does resuming a closed range that is already full, whatever made the loop try again: a broken transfer
   * with 14 in retrycodes, an interrupt, or a checkfunc raising a code in retrycodes. The server ignores the
   * range 4-3 and the whole remote file is appended.
   */
  lemma FullRangeCorrupts(retry: Options, first: Episode)
    requires first.opens && first.blocks == [2]
    requires After(retry, 1, Checked(Transferred(2, Some(2), first.ending), first)).Again?
    ensures
      var o := GrabOptions(true, Some(ByteRange(2, Some(4))), retry);
      var episodes := (i: nat) => if i == 1 then first else Episode(true, [6], Completes, Success(()), None);
      && Made("abcdef", o, None, episodes, 2) && AttemptAt("abcdef", o, None, episodes, 2).outcome.Success?
      && FileAt("abcdef", o, None, episodes, 2) == Some("cd" + "abcdef")
  {
    var o := GrabOptions(true, Some(ByteRange(2, Some(4))), retry);
    var second := Episode(true, [6], Completes, Success(()), None);
    var episodes := (i: nat) => if i == 1 then first else second;
    OneBlock("cd", 2);
    OneBlock("abcdef", 6);
    assert "abcdef"[2..4] == "cd" && "cd"[..2] == "cd" && "abcdef"[..6] == "abcdef";
    assert Request(o, None) == Ok(Some(ByteRange(2, Some(4))));
    assert Request(o, Some("cd")) == Ok(Some(ByteRange(4, Some(4))));
    assert Serve("abcdef", Asked(Some(ByteRange(2, Some(4))))) == Body("cd");
    assert Serve("abcdef", Asked(Some(ByteRange(4, Some(4))))) == Body("abcdef");
    assert Attempted("abcdef", o, None, first) == (Some("cd"), Transferred(2, Some(2), first.ending)) by {
      assert Kept(o, None) + "cd" == "cd";
    }
    assert FileAt("abcdef", o, None, episodes, 0) == None;
    assert FileAt("abcdef", o, None, episodes, 1) == Some("cd");
    assert Attempted("abcdef", o, Some("cd"), second) == (Some("cd" + "abcdef"), Success(()));
  }

  lemma OneBlock(body: string, size: nat)
    ensures Delivered(body, [size]) == Min(|body|, size)
  {
    assert [size][..0] == [];
  }
}
