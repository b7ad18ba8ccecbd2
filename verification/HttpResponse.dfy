/** keepalive.py: the response object whose read, readline and readlines share one buffer. */
module HttpResponse {
  import opened Wrappers
  import opened Sequences
  import opened Streams

  class HTTPResponse {
    const rbufsize: nat := 8096
    const raw: RawStream
    var rbuf: string

    constructor (raw: RawStream)
      ensures this.raw == raw && rbuf == ""
    {
      this.raw := raw;
      rbuf := "";
    }

    /** The bytes still to be handed out: the buffer, then the unread raw stream. */
    ghost function Remaining(): string
      reads this, raw
    {
      rbuf + raw.rest
    }

    /** A negative amount keeps that many bytes of a non-empty buffer back; an empty one passes it on to the raw read. */
    method Read(amt: Option<int>) returns (r: Result<string, IOError>)
      modifies this, raw
      ensures r.Ok? ==> StreamStep(old(Remaining()), Op.Read(amt), [r.value], Remaining())
      ensures r.Ok? && amt.Some? && old(rbuf) != "" && amt.value <= |old(rbuf)| ==>
                r.value == old(rbuf)[..SliceIndex(amt.value, |old(rbuf)|)] && raw.rest == old(raw.rest)
      ensures r.Ok? && amt.Some? && amt.value < 0 && old(rbuf) == "" && r.value == "" ==> Remaining() == ""
      ensures r.Ok? && (amt.None? || amt.value > |old(rbuf)|) ==> old(rbuf) <= r.value && rbuf == ""
      ensures r.Ok? && amt.Some? && amt.value > |old(rbuf)| ==> |r.value| > |old(rbuf)| || old(raw.rest) == ""
      ensures |rbuf| <= |old(rbuf)|
      ensures r.Err? ==> rbuf == old(rbuf) && raw.rest == old(raw.rest)
    {
      var want := amt;
      if rbuf != "" && amt.Some? {
        var L := |rbuf|;
        if amt.value > L {
          want := Some(amt.value - L);
        } else {
          var i := SliceIndex(amt.value, L);
          ghost var was := rbuf;
          var s;
          s, rbuf := rbuf[..i], rbuf[i..];
          FlattenOne(s);
          assert was + raw.rest == s + (rbuf + raw.rest);
          return Ok(s);
        }
      }
      var more := raw.Read(want);
      if more.Err? {
        return more;
      }
      var s := rbuf + more.value;
      rbuf := "";
      FlattenOne(s);
      return Ok(s);
    }

    /**
     * `buffered` bytes are in the buffer when the line is cut, as many as some division into raw reads brings
     * there; none are fetched when the buffer already holds a newline or enough bytes for the limit. A failing
     * raw read loses nothing.
     */
    method ReadLine(limit: int) returns (r: Result<string, IOError>, ghost buffered: nat)
      modifies this, raw
      ensures r.Ok? ==> StreamStep(old(Remaining()), Op.ReadLine(limit), [r.value], Remaining())
      ensures r.Ok? && limit >= 0 ==>
                |r.value| == (if limit < buffered then limit else Min(LineEnd(old(Remaining())), buffered))
      ensures r.Ok? && r.value == "" ==> limit == 0 || old(Remaining()) == ""
      ensures r.Ok? && buffered <= limit && LineEnd(old(Remaining())) <= buffered ==>
                r.value == FirstLine(old(Remaining()))
      ensures r.Ok? ==>
        && buffered == |r.value| + |rbuf| <= |old(Remaining())|
        && r.value == LimitedLine(old(Remaining()), limit, buffered)
        && ('\n' in old(rbuf) || 0 < limit <= |old(rbuf)| ==> buffered == |old(rbuf)|)
        && (buffered == |old(rbuf)| || buffered <= LineEnd(old(Remaining())) + 8096)
      ensures r.Ok? ==>
        && Reaches(old(Remaining()), limit, |old(rbuf)|, 8096, buffered)
        && Stops(old(Remaining()), limit, buffered)
      ensures r.Err? ==> Remaining() == old(Remaining())
    {
      hide LineEnd, IsLineEnd, FindNewline, LimitedLine, StreamStep, FirstLine, Flatten, Stops, Reaches;
      ReachesStart(rbuf, raw.rest, limit, rbufsize);
      ghost var before := Remaining();
      buffered := 0;
      var i := FindNewline(rbuf);
      while i < 0 && !(0 < limit <= |rbuf|)
        invariant Remaining() == before
        invariant i < 0 ==> '\n' !in rbuf
        invariant i >= 0 ==> i < |rbuf| && rbuf[i] == '\n' && '\n' !in rbuf[..i]
        invariant '\n' in old(rbuf) || 0 < limit <= |old(rbuf)| ==> rbuf == old(rbuf)
        invariant rbuf == old(rbuf) || |rbuf| <= LineEnd(before) + rbufsize
        invariant |rbuf| <= |before| && Reaches(before, limit, |old(rbuf)|, rbufsize, |rbuf|)
        decreases |raw.rest|
      {
        var fetched := raw.Read(Some(rbufsize));
        if fetched.Err? {
          return Err(fetched.error), 0;
        }
        if fetched.value == "" {
          break;
        }
        SearchGoesOn(rbuf, fetched.value, raw.rest, limit, |old(rbuf)|, rbufsize);
        i := FindNewline(fetched.value);
        if i >= 0 {
          i := i + |rbuf|;
        }
        rbuf := rbuf + fetched.value;
      }
      CutIsLine(rbuf, raw.rest, limit, i);
      SearchEnds(rbuf, raw.rest, limit);
      buffered := |rbuf|;
      ghost var cut := Cut(rbuf, limit, i);
      if i < 0 { i := |rbuf|; } else { i := i + 1; }
      if 0 <= limit < |rbuf| { i := limit; }
      assert i == cut;
      var data;
      data, rbuf := rbuf[..i], rbuf[i..];
      return Ok(data), buffered;
    }

    /** On a failing raw read the lines gathered so far are lost with the exception; the rest of the stream is not. */
    method ReadLines(sizehint: int) returns (r: Result<seq<string>, IOError>, ghost lost: nat)
      modifies this, raw
      ensures r.Ok? ==> StreamStep(old(Remaining()), Op.ReadLines(sizehint), r.value, Remaining())
      ensures r.Err? ==> lost <= |SplitLines(old(Remaining()))|
                         && Remaining() == Flatten(SplitLines(old(Remaining()))[lost..])
    {
      hide Flatten, SplitLines, LinesUpTo, LineEnd, FirstLine, StreamStep, Gathered, LimitedLine, Reaches, Stops;
      ghost var before, all := Remaining(), SplitLines(Remaining());
      ghost var taken := LinesUpTo(all, sizehint, 0);
      var total: nat := 0;
      var list := [];
      ghost var here := before;
      GatherStart(before, sizehint);
      while true
        invariant here == Remaining()
        invariant Gathered(before, all, taken, sizehint, list, total, here)
        decreases |here|
      {
        var line, _ := ReadLine(-1);
        if line.Err? {
          LinesLeft(before, all, taken, sizehint, list, total, here);
          return Err(line.error), |list|;
        }
        ghost var after := Remaining();
        PlainLine(here, line.value, after);
        if line.value == "" {
          GatherEnd(before, all, taken, sizehint, list, total);
          LinesTaken(before, sizehint, list, here);
          break;
        }
        GatherLine(before, all, taken, sizehint, list, total, here, after);
        list := list + [line.value];
        total := total + |line.value|;
        here := after;
        if sizehint != 0 && total >= sizehint {
          LinesTaken(before, sizehint, list, here);
          break;
        }
      }
      return Ok(list), 0;
    }
  }

  lemma ReachesStart(buffer: string, rest: string, limit: int, block: nat)
    ensures Reaches(buffer + rest, limit, |buffer|, block, |buffer|)
  {
  }

  lemma SearchGoesOn(buffer: string, fetched: string, rest: string, limit: int, had: nat, block: nat)
    requires fetched != "" && |fetched| <= block && '\n' !in buffer && !(0 < limit <= |buffer|) && had <= |buffer|
    requires Reaches(buffer + (fetched + rest), limit, had, block, |buffer|)
    ensures buffer + (fetched + rest) == (buffer + fetched) + rest
    ensures Reaches(buffer + (fetched + rest), limit, had, block, |buffer + fetched|)
    ensures |buffer + fetched| <= LineEnd(buffer + (fetched + rest)) + block
    ensures
      var i := FindNewline(fetched);
      if i < 0 then '\n' !in buffer + fetched
      else (buffer + fetched)[i + |buffer|] == '\n' && '\n' !in (buffer + fetched)[..i + |buffer|]
  {
    Regroup(buffer, fetched, rest);
    NoLineEndInside(buffer, fetched + rest);
    assert (buffer + (fetched + rest))[..|buffer|] == buffer;
    assert !Stops(buffer + (fetched + rest), limit, |buffer|);
    var i := FindNewline(fetched);
    if i >= 0 { assert (buffer + fetched)[..i + |buffer|] == buffer + fetched[..i]; }
  }

  lemma SearchEnds(buffer: string, rest: string, limit: int)
    requires '\n' in buffer || 0 < limit <= |buffer| || rest == ""
    ensures Stops(buffer + rest, limit, |buffer|)
  {
    assert (buffer + rest)[..|buffer|] == buffer;
  }
}
