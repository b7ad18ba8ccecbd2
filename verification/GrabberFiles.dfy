/**
 * grabber.py: the buffer shared by URLGrabberFileObject and PyCurlFileObject. The two classes repeat
 * _fill_buffer and read word for word; they differ in readline, modelled as ReadLine and ReadLineUnbuffered.
 */
module GrabberFiles {
  import opened Wrappers
  import opened Sequences
  import opened Streams

  class GrabberFileObject {
    const rbufsize: nat := 8192
    const fo: RawStream
    var rbuf: string
    var amountRead: nat

    constructor (fo: RawStream)
      ensures this.fo == fo && rbuf == "" && amountRead == 0
    {
      this.fo := fo;
      rbuf, amountRead := "", 0;
    }

    /** The bytes still to be handed out: the buffer, then the unread file object. */
    ghost function Remaining(): string
      reads this, fo
    {
      rbuf + fo.rest
    }

    /** Nothing is buffered ahead of data that can still come; PyCurlFileObject keeps this between calls. */
    ghost predicate Settled()
      reads this, fo
    {
      rbuf == "" || fo.rest == ""
    }

    /**
     * The blocks are joined into the buffer only at the end, so a failing read loses exactly the bytes
     * that this call had already fetched; amountRead tells how many those were. A negative amount fetches
     * everything into an empty buffer, and nothing into another.
     */
    method FillBuffer(amt: Option<int>) returns (r: Result<(), IOError>)
      modifies this, fo
      ensures r.Ok? ==> Remaining() == old(Remaining()) && old(rbuf) <= rbuf
      ensures r.Ok? ==> Filled(amt, old(rbuf), rbuf, fo.rest)
      ensures r.Err? ==> rbuf == old(rbuf)
      ensures amountRead >= old(amountRead) && amountRead - old(amountRead) <= |old(fo.rest)|
      ensures fo.rest == old(fo.rest)[amountRead - old(amountRead)..]
    {
      hide Flatten, StreamStep;
      var want: Option<int> := amt;
      if rbuf != "" && amt.Some? {
        var L := |rbuf|;
        if amt.value > L {
          want := Some(amt.value - L);
        } else {
          return Ok(());
        }
      }
      var buf := [rbuf];
      ghost var got, ahead := "", fo.rest;
      FlattenOne(rbuf);
      while want.None? || want.value != 0
        invariant rbuf == old(rbuf)
        invariant Flatten(buf) == rbuf + got && ahead == got + fo.rest
        invariant amountRead == old(amountRead) + |got|
        invariant want == Wanted(amt, |rbuf|, |got|)
        invariant amt.Some? && amt.value >= 0 ==> want.value >= 0
        decreases |fo.rest|
      {
        var readamount := if want.None? then rbufsize else Min(want.value, rbufsize);
        var fetched := fo.Read(Some(readamount));
        if fetched.Err? {
          assert ahead[|got|..] == fo.rest;
          return Err(fetched.error);
        }
        if fetched.value == "" {
          break;
        }
        BlockFits(ahead[|got|..], readamount, fetched.value, fo.rest);
        if want.Some? {
          want := Some(want.value - |fetched.value|);
        }
        BlockAppended(buf, rbuf, got, fetched.value, fo.rest);
        buf := buf + [fetched.value];
        got := got + fetched.value;
        amountRead := amountRead + |fetched.value|;
      }
      Regroup(rbuf, got, fo.rest);
      assert ahead[|got|..] == fo.rest;
      rbuf := Flatten(buf);
      return Ok(());
    }

    /**
     * read() hands out everything, read(n) exactly n bytes, or all the rest when there are fewer, and a
     * negative n all but that many bytes of the buffer, or of everything if the buffer is empty.
     */
    method Read(amt: Option<int>) returns (r: Result<string, IOError>)
      modifies this, fo
      ensures r.Ok? ==> StreamStep(old(Remaining()), Op.Read(amt), [r.value], Remaining())
      ensures r.Ok? ==> r.value == ReadValue(old(rbuf), old(Remaining()), amt)
                        && old(Remaining()) == r.value + Remaining()
      ensures r.Ok? ==>
        |r.value| == if amt.None? then |old(Remaining())|
                     else if amt.value >= 0 then Min(amt.value, |old(Remaining())|)
                     else var n := if old(rbuf) == "" then |old(Remaining())| else |old(rbuf)|;
                          if n + amt.value < 0 then 0 else n + amt.value
      ensures r.Ok? && old(rbuf) == "" ==>
                (rbuf == "" <==> amt.None? || amt.value >= 0 || old(Remaining()) == "")
      ensures old(Settled()) ==> Settled()
      ensures amountRead >= old(amountRead)
      ensures r.Err? ==> rbuf == old(rbuf) && amountRead - old(amountRead) <= |old(fo.rest)|
                         && fo.rest == old(fo.rest)[amountRead - old(amountRead)..]
      ensures r.Err? ==> (Remaining() == old(Remaining()) <==> amountRead == old(amountRead))
    {
      hide StreamStep, ReadValue, Filled;
      ghost var buffer, ahead, count := rbuf, fo.rest, amountRead;
      var filled := FillBuffer(amt);
      if filled.Err? {
        LostIff(buffer, ahead, amountRead - count);
        return Err(filled.error);
      }
      ReadIsStep(buffer, rbuf, fo.rest, amt);
      ReadLength(buffer, rbuf + fo.rest, amt);
      var n := if amt.None? then |rbuf| else SliceIndex(amt.value, |rbuf|);
      var s;
      s, rbuf := rbuf[..n], rbuf[n..];
      return Ok(s);
    }

    /**
     * URLGrabberFileObject.readline: `buffered` bytes are in the buffer when the line is cut. If a read
     * fails, `lost` are the bytes that drop out of the stream between the buffer and the unread file object.
     */
    method ReadLine(limit: int) returns (r: Result<string, IOError>, ghost buffered: nat, ghost lost: string)
      modifies this, fo
      ensures r.Ok? ==> StreamStep(old(Remaining()), Op.ReadLine(limit), [r.value], Remaining())
      ensures r.Ok? && limit >= 0 ==>
                |r.value| == (if limit < buffered then limit else Min(LineEnd(old(Remaining())), buffered))
      ensures r.Ok? && r.value == "" ==> limit == 0 || old(Remaining()) == ""
      ensures r.Ok? && buffered <= limit && LineEnd(old(Remaining())) <= buffered ==>
                r.value == FirstLine(old(Remaining()))
      ensures r.Ok? ==>
        && buffered == |r.value| + |rbuf| <= |old(Remaining())|
        && r.value == LimitedLine(old(Remaining()), limit, buffered)
        && ('\n' in old(rbuf) || 0 < limit <= |old(rbuf)| ==> buffered == |old(rbuf)|)
      ensures r.Err? ==> old(rbuf) <= rbuf && old(Remaining()) == rbuf + (lost + fo.rest)
    {
      hide LineEnd, FindNewline, LimitedLine, StreamStep, FirstLine, Filled;
      ghost var before := Remaining();
      buffered, lost := 0, "";
      var i := FindNewline(rbuf);
      while i < 0 && !(0 < limit <= |rbuf|)
        invariant Remaining() == before && old(rbuf) <= rbuf
        invariant i < 0 ==> '\n' !in rbuf
        invariant i >= 0 ==> i < |rbuf| && rbuf[i] == '\n' && '\n' !in rbuf[..i]
        invariant '\n' in old(rbuf) || 0 < limit <= |old(rbuf)| ==> rbuf == old(rbuf)
        decreases |fo.rest|
      {
        var L := |rbuf|;
        ghost var had, ahead, count := rbuf, fo.rest, amountRead;
        var filled := FillBuffer(Some(L + rbufsize));
        if filled.Err? {
          lost := ahead[..amountRead - count];
          assert ahead == lost + fo.rest;
          return Err(filled.error), 0, lost;
        }
        FilledMore(L + rbufsize, had, rbuf, fo.rest);
        if !(|rbuf| > L) {
          break;
        }
        i := FindNewline(rbuf[L..]);
        NewlineAfter(rbuf, L);
        if i >= 0 { i := i + L; }
      }
      CutIsLine(rbuf, fo.rest, limit, i);
      buffered := |rbuf|;
      ghost var cut := Cut(rbuf, limit, i);
      if i < 0 { i := |rbuf|; } else { i := i + 1; }
      if 0 <= limit < |rbuf| { i := limit; }
      assert i == cut;
      var s;
      s, rbuf := rbuf[..i], rbuf[i..];
      return Ok(s), buffered, "";
    }

    /**
     * PyCurlFileObject.readline goes straight to the file object and ignores the limit. That loses and reorders
     * nothing, but it returns the next line only if the buffer is empty, as read leaves it unless given a negative
     * amount: the bytes kept back then look like the end of the file. The limit holds only for short lines.
     */
    method ReadLineUnbuffered(limit: int) returns (r: Result<string, IOError>)
      modifies this, fo
      ensures rbuf == old(rbuf) && amountRead == old(amountRead)
      ensures r.Ok? ==> r.value == FirstLine(old(fo.rest)) && old(fo.rest) == r.value + fo.rest
      ensures r.Ok? && old(Settled()) ==> old(Remaining()) == r.value + Remaining()
      ensures r.Ok? && old(Settled()) ==>
                (r.value == FirstLine(old(Remaining())) <==> rbuf == "")
      ensures r.Ok? && rbuf == "" ==> StreamStep(old(Remaining()), Op.ReadLine(-1), [r.value], Remaining())
      ensures old(Settled()) ==> Settled()
      ensures r.Ok? && limit >= 0 ==> (|r.value| <= limit <==> LineEnd(old(fo.rest)) <= limit)
      ensures r.Err? ==> Remaining() == old(Remaining())
    {
      ghost var ahead := fo.rest;
      r := fo.ReadLine();
      if r.Ok? {
        FlattenOne(r.value);
        assert r.value == LimitedLine(ahead, -1, |ahead|);
        assert "" + ahead == ahead && "" + fo.rest == fo.rest;
      }
    }
  }

  datatype CopyError = SourceFailed | WriteFailed

  lemma FilledMore(amt: nat, was: string, buffer: string, rest: string)
    requires Filled(Some(amt), was, buffer, rest) && |was| < amt
    ensures |buffer| <= |was| ==> rest == ""
  {
  }

  lemma NewlineAfter(buffer: string, had: nat)
    requires had <= |buffer| && '\n' !in buffer[..had]
    ensures
      var i := FindNewline(buffer[had..]);
      if i < 0 then '\n' !in buffer else buffer[i + had] == '\n' && '\n' !in buffer[..i + had]
  {
    var i := FindNewline(buffer[had..]);
    assert buffer == buffer[..had] + buffer[had..];
    if i >= 0 { assert buffer[..i + had] == buffer[..had] + buffer[had..][..i]; }
  }

  /** What is still to be fetched when `had` bytes were buffered and `got` have come. */
  function Wanted(amt: Option<int>, had: nat, got: nat): Option<int> {
    if amt.None? then None else if had == 0 then Some(amt.value - got) else Some(amt.value - had - got)
  }

  /** How a successful _fill_buffer leaves the buffer. */
  ghost predicate Filled(amt: Option<int>, was: string, buffer: string, rest: string) {
    && (amt.None? ==> rest == "")
    && (amt.Some? && amt.value >= 0 ==>
          (|buffer| >= amt.value || rest == "") && (|buffer| <= amt.value || buffer == was))
    && (amt.Some? && amt.value < 0 ==> if was == "" then rest == "" else buffer == was)
  }

  /** What read(amt) returns. */
  function ReadValue(buffer: string, all: string, amt: Option<int>): string {
    if amt.None? then all
    else
      var source := if amt.value < 0 && buffer != "" then buffer else all;
      source[..SliceIndex(amt.value, |source|)]
  }

  lemma ReadLength(buffer: string, all: string, amt: Option<int>)
    ensures |ReadValue(buffer, all, amt)|
         == if amt.None? then |all| else if amt.value >= 0 then Min(amt.value, |all|)
            else var n := if buffer == "" then |all| else |buffer|; if n + amt.value < 0 then 0 else n + amt.value
  {
  }

  lemma BlockFits(before: string, amt: int, block: string, after: string)
    requires before == block + after ==> StreamStep(before, Op.Read(Some(amt)), [block], after)
    requires before == block + after
    ensures amt >= 0 ==> |block| <= amt
  {
  }

  lemma BlockAppended(buf: seq<string>, buffer: string, got: string, block: string, rest: string)
    ensures Flatten(buf) == buffer + got ==> Flatten(buf + [block]) == buffer + (got + block)
    ensures got + (block + rest) == (got + block) + rest
  {
    FlattenSnoc(buf, block);
    Regroup(buffer, got, block);
    Regroup(got, block, rest);
  }

  lemma LostIff(buffer: string, rest: string, lost: nat)
    requires lost <= |rest|
    ensures buffer + rest[lost..] == buffer + rest <==> lost == 0
  {
    if lost > 0 { assert |buffer + rest[lost..]| < |buffer + rest|; }
  }

  /** Taking bytes off a filled buffer takes exactly those bytes off the whole stream. */
  lemma ReadIsStep(was: string, buffer: string, rest: string, amt: Option<int>)
    requires Filled(amt, was, buffer, rest)
    ensures
      var n := if amt.None? then |buffer| else SliceIndex(amt.value, |buffer|);
      && StreamStep(buffer + rest, Op.Read(amt), [buffer[..n]], buffer[n..] + rest)
      && buffer[..n] == ReadValue(was, buffer + rest, amt)
      && (was == "" ==> (buffer[n..] == "" <==> amt.None? || amt.value >= 0 || buffer + rest == ""))
      && (was == "" ==> buffer[n..] == "" || rest == "")
  {
    var n := if amt.None? then |buffer| else SliceIndex(amt.value, |buffer|);
    FlattenOne(buffer[..n]);
    assert buffer + rest == buffer[..n] + (buffer[n..] + rest);
    if rest == "" { assert buffer + rest == buffer; }
  }

  /**
   * URLGrabberFileObject._do_grab: copies the stream in blocks of 8192 bytes, no more than the known amount.
   * `room` is how much the local file can take, if that is limited: a write that does not fit fails. Whatever
   * fails, what was written is the beginning of the stream.
   */
  method CopyOut(fo: GrabberFileObject, amount: Option<nat>, room: Option<nat>)
    returns (r: Result<nat, CopyError>, written: string)
    modifies fo, fo.fo
    ensures r.Ok? ==>
      && written == (if amount.None? then old(fo.Remaining()) else Front(old(fo.Remaining()), amount.value))
      && r.value == |written| && old(fo.Remaining()) == written + fo.Remaining()
    ensures written <= old(fo.Remaining())
    ensures (amount.Some? ==> |written| <= amount.value) && (room.Some? ==> |written| <= room.value)
    ensures r == Err(WriteFailed) ==> room == Some(|written|) && written != old(fo.Remaining())
  {
    hide StreamStep, ReadValue, Front, Filled, FirstLine, LimitedLine;
    ghost var before, here := fo.Remaining(), fo.Remaining();
    written := "";
    var bs := 8192;
    var size := 0;
    while true
      invariant here == fo.Remaining() && before == written + here && size == |written|
      invariant 0 <= bs <= 8192 && (amount.Some? ==> size <= amount.value) && (room.Some? ==> size <= room.value)
      invariant bs == 0 ==> amount.Some? && size == amount.value
      decreases |here|
    {
      if amount.Some? {
        bs := Min(bs, amount.value - size);
      }
      var block := fo.Read(Some(bs));
      if block.Err? {
        return Err(SourceFailed), written;
      }
      ghost var after := fo.Remaining();
      ReadTakes(here, bs, block.value, after);
      if block.value == "" {
        CopyDone(written, here, after, amount, bs);
        return Ok(size), written;
      }
      Regroup(written, block.value, after);
      here := after;
      if room.Some? && size + |block.value| > room.value {
        PartWritten(written, block.value, after, room.value - size);
        written := written + block.value[..room.value - size];
        return Err(WriteFailed), written;
      }
      written := written + block.value;
      size := size + |block.value|;
    }
  }

  lemma CopyDone(written: string, here: string, after: string, amount: Option<nat>, bs: nat)
    requires here == after && (bs == 0 || after == "")
    requires amount.Some? ==> |written| <= amount.value
    requires bs == 0 ==> amount == Some(|written|)
    ensures written == if amount.None? then written + here else Front(written + here, amount.value)
  {
    assert (written + here)[..|written|] == written;
  }

  lemma PartWritten(written: string, block: string, after: string, n: nat)
    requires n < |block|
    ensures var all := (written + block) + after; written + block[..n] <= all && written + block[..n] != all
  {
    assert (written + block) + after == (written + block[..n]) + (block[n..] + after);
  }

  function Front(s: string, n: nat): string { s[..Min(n, |s|)] }

  lemma ReadTakes(before: string, n: nat, out: string, after: string)
    requires StreamStep(before, Op.Read(Some(n)), [out], after)
    ensures before == out + after && |out| <= n && (out == "" ==> n == 0 || after == "")
  {
    FlattenOne(out);
  }
}
