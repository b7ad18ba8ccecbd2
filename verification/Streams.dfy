/** Byte streams: lines, the way a stream is cut into lines, and the raw source under the buffered file objects. */
module Streams {
  import opened Wrappers
  import opened Sequences

  /** n is where the first line of s ends: just past its first newline, or at the end of s. */
  ghost predicate IsLineEnd(s: string, n: nat) {
    && n <= |s|
    && (forall k :: 0 <= k < n - 1 ==> s[k] != '\n')
    && (n == |s| || (n > 0 && s[n - 1] == '\n'))
  }

  function LineEnd(s: string): (n: nat)
    ensures IsLineEnd(s, n)
  {
    if s == "" then 0 else if s[0] == '\n' then 1 else 1 + LineEnd(s[1..])
  }

  lemma LineEndUnique(s: string, n: nat)
    requires IsLineEnd(s, n)
    ensures n == LineEnd(s)
  {
    var m := LineEnd(s);
    assert !(n < m) && !(m < n);
  }

  /** The first line of s, newline included. */
  function FirstLine(s: string): string { s[..LineEnd(s)] }

  /** Python's find('\n'): the index of the first newline, or -1. */
  function FindNewline(s: string): (i: int)
    ensures -1 <= i < |s|
    ensures i < 0 ==> '\n' !in s
    ensures i >= 0 ==> s[i] == '\n' && '\n' !in s[..i]
  {
    if s == "" then -1 else if s[0] == '\n' then 0
    else var i := FindNewline(s[1..]); if i < 0 then -1 else i + 1
  }

  lemma NoLineEndInside(buffer: string, rest: string)
    requires '\n' !in buffer
    ensures LineEnd(buffer + rest) >= |buffer|
  {
    var s := buffer + rest;
    var n := LineEnd(s);
    assert n == |s| || s[n - 1] == '\n';
  }

  /** Cutting a stream short cuts its first line short, and nothing else. */
  lemma FirstLineOfPrefix(s: string, k: nat)
    requires k <= |s|
    ensures FirstLine(s[..k]) == FirstLine(s)[..Min(k, LineEnd(s))]
  {
    LineEndUnique(s[..k], Min(k, LineEnd(s)));
  }

  function SplitLines(s: string): seq<string>
    decreases |s|
  {
    if s == "" then [] else [FirstLine(s)] + SplitLines(s[LineEnd(s)..])
  }

  /** What it means to be the newline split of s: nothing is lost, and every piece is one line. */
  ghost predicate IsLineSplit(s: string, lines: seq<string>) {
    && Flatten(lines) == s
    && (forall i :: 0 <= i < |lines| ==> lines[i] != "" && LineEnd(lines[i]) == |lines[i]|)
    && (forall i :: 0 <= i < |lines| - 1 ==> lines[i] != "" && lines[i][|lines[i]| - 1] == '\n')
  }

  lemma LineSplitCons(s: string, lines: seq<string>)
    requires s != "" && lines != [] && lines[0] == FirstLine(s)
    requires IsLineSplit(s[LineEnd(s)..], lines[1..])
    ensures IsLineSplit(s, lines)
  {
    var n := LineEnd(s);
    LineEndUnique(lines[0], n);
    assert s == lines[0] + s[n..];
    if |lines| > 1 {
      assert lines[1] == lines[1..][0] && n < |s|;
    }
    forall i | 0 < i < |lines| ensures lines[i] != "" && LineEnd(lines[i]) == |lines[i]| {
      assert lines[i] == lines[1..][i - 1];
    }
    forall i | 0 <= i < |lines| - 1 ensures lines[i] != "" && lines[i][|lines[i]| - 1] == '\n' {
      assert i > 0 ==> lines[i] == lines[1..][i - 1];
    }
  }

  lemma LineSplitUncons(s: string, lines: seq<string>)
    requires s != "" && IsLineSplit(s, lines)
    ensures lines != [] && lines[0] == FirstLine(s) && IsLineSplit(s[LineEnd(s)..], lines[1..])
  {
    assert s == lines[0] + Flatten(lines[1..]);
    assert |lines| == 1 ==> Flatten(lines[1..]) == "";
    LineEndUnique(s, |lines[0]|);
    assert s[LineEnd(s)..] == Flatten(lines[1..]);
  }

  /** SplitLines is the one and only newline split. */
  lemma {:induction false} SplitLinesExact(s: string, lines: seq<string>)
    ensures IsLineSplit(s, lines) <==> lines == SplitLines(s)
    decreases |s|
  {
    if s == "" {
      if lines != [] { assert Flatten(lines) == lines[0] + Flatten(lines[1..]); }
    } else if lines == [] {
      assert Flatten(lines) == "";
    } else {
      SplitLinesExact(s[LineEnd(s)..], lines[1..]);
      if IsLineSplit(s, lines) {
        LineSplitUncons(s, lines);
        assert lines == [lines[0]] + lines[1..];
      }
      if lines == SplitLines(s) {
        LineSplitCons(s, lines);
      }
    }
  }

  /** The lines handed out by readlines(hint): all of them for hint 0, otherwise up to the first that reaches the hint. */
  function LinesUpTo(lines: seq<string>, hint: int, total: nat): seq<string> {
    if lines == [] then []
    else
      var sofar := total + |lines[0]|;
      if hint != 0 && sofar >= hint then [lines[0]]
      else [lines[0]] + LinesUpTo(lines[1..], hint, sofar)
  }

  /** LinesUpTo takes the shortest non-empty prefix whose bytes reach the hint, or everything. */
  lemma {:induction false} LinesUpToShortest(lines: seq<string>, hint: int, total: nat)
    ensures
      var taken := LinesUpTo(lines, hint, total);
      && taken <= lines
      && (hint == 0 ==> taken == lines)
      && (hint != 0 && |taken| < |lines| ==> total + |Flatten(taken)| >= hint)
      && (forall k :: 0 < k < |taken| ==> hint == 0 || total + |Flatten(lines[..k])| < hint)
  {
    if lines != [] {
      var sofar := total + |lines[0]|;
      var taken := LinesUpTo(lines, hint, total);
      assert Flatten([lines[0]]) == lines[0] + Flatten([]);
      if hint != 0 && sofar >= hint {
        assert taken == [lines[0]];
      } else {
        LinesUpToShortest(lines[1..], hint, sofar);
        assert taken[1..] == LinesUpTo(lines[1..], hint, sofar);
        forall k | 0 < k < |taken| ensures hint == 0 || total + |Flatten(lines[..k])| < hint {
          assert lines[..k][1..] == lines[1..][..k - 1];
          if k == 1 { assert lines[..1] == [lines[0]]; }
        }
      }
    }
  }

  // ---- What one call on a buffered reader may do to the stream that is still to be handed out ----

  datatype Op = Read(amt: Option<int>) | ReadLine(limit: int) | ReadLines(hint: int)

  /** readline(limit) when `buffered` bytes sit in the buffer at the moment the line is cut. */
  function LimitedLine(s: string, limit: int, buffered: nat): string
    requires buffered <= |s|
  {
    if 0 <= limit < buffered then s[..limit] else s[..Min(LineEnd(s), buffered)]
  }

  /** A call `op` hands out `out` and leaves `after` of the stream `before`. */
  ghost predicate StreamStep(before: string, op: Op, out: seq<string>, after: string) {
    && before == Flatten(out) + after
    && match op
       case Read(amt) =>
         && |out| == 1
         && (amt.None? ==> after == "")
         && (amt.Some? && amt.value >= 0 ==>
               |out[0]| <= amt.value && (out[0] == "" ==> amt.value == 0 || after == ""))
       case ReadLine(limit) =>
         && |out| == 1
         && (limit < 0 ==> out[0] == FirstLine(before))
         && (limit >= 0 ==> |out[0]| <= limit)
         && (out[0] == "" ==> limit == 0 || before == "")
         && (exists buffered: nat :: |out[0]| <= buffered <= |before| && out[0] == LimitedLine(before, limit, buffered))
       case ReadLines(hint) =>
         out == LinesUpTo(SplitLines(before), hint, 0)
  }

  /** Where both readline methods cut the buffer, i being the index of its first newline or negative. */
  function Cut(buffer: string, limit: int, i: int): int {
    if 0 <= limit < |buffer| then limit else if i < 0 then |buffer| else i + 1
  }

  /** Once the search loop has stopped, the bytes cut off the buffer are a legal readline(limit) of the whole stream. */
  lemma CutIsLine(buffer: string, rest: string, limit: int, i: int)
    requires i < 0 ==> '\n' !in buffer && (rest == "" || 0 < limit <= |buffer|)
    requires i >= 0 ==> i < |buffer| && buffer[i] == '\n' && '\n' !in buffer[..i]
    ensures
      var n := Cut(buffer, limit, i);
      && 0 <= n <= |buffer|
      && StreamStep(buffer + rest, ReadLine(limit), [buffer[..n]], buffer[n..] + rest)
      && buffer[..n] == LimitedLine(buffer + rest, limit, |buffer|)
      && n == (if 0 <= limit < |buffer| then limit else Min(LineEnd(buffer + rest), |buffer|))
      && (|buffer| <= limit && LineEnd(buffer + rest) <= |buffer| ==> buffer[..n] == FirstLine(buffer + rest))
  {
    var n := Cut(buffer, limit, i);
    CutAt(buffer, rest, limit, i);
    FlattenOne(buffer[..n]);
    CutApart(buffer, rest, n);
    hide FirstLine, LimitedLine, Flatten, LineEnd;
  }

  lemma CutApart(buffer: string, rest: string, n: nat)
    requires n <= |buffer|
    ensures (buffer + rest)[..n] == buffer[..n] && buffer + rest == buffer[..n] + (buffer[n..] + rest)
  {
  }

  lemma CutAt(buffer: string, rest: string, limit: int, i: int)
    requires i < 0 ==> '\n' !in buffer && (rest == "" || 0 < limit <= |buffer|)
    requires i >= 0 ==> i < |buffer| && buffer[i] == '\n' && '\n' !in buffer[..i]
    ensures
      var s, n := buffer + rest, Cut(buffer, limit, i);
      && 0 <= n <= |buffer| && LimitedLine(s, limit, |buffer|) == buffer[..n]
      && (limit < 0 ==> buffer[..n] == FirstLine(s)) && (limit >= 0 ==> n <= limit)
      && n == (if 0 <= limit < |buffer| then limit else Min(LineEnd(s), |buffer|))
      && (n == 0 ==> limit == 0 || s == "")
  {
    var s := buffer + rest;
    if i >= 0 {
      assert forall k :: 0 <= k < i ==> s[k] == buffer[..i][k];
      LineEndUnique(s, i + 1);
    } else if rest == "" {
      assert s == buffer;
      LineEndUnique(s, |buffer|);
    } else {
      NoLineEndInside(buffer, rest);
    }
    CutApart(buffer, rest, Cut(buffer, limit, i));
  }

  lemma LinesUpToCons(line: string, more: seq<string>, hint: int, total: nat)
    ensures LinesUpTo([line] + more, hint, total)
         == [line] + (if hint != 0 && total + |line| >= hint then [] else LinesUpTo(more, hint, total + |line|))
  {
    assert ([line] + more)[1..] == more;
  }

  /**
   * The loop invariant of readlines: `list`, of `total` bytes, has been gathered from a stream `before`
   * whose lines are `all`, `here` is what is left of it, and `taken` is what will be handed out in the end.
   */
  ghost predicate Gathered(before: string, all: seq<string>, taken: seq<string>,
                           hint: int, list: seq<string>, total: nat, here: string) {
    && before == Flatten(list) + here
    && all == list + SplitLines(here)
    && taken == list + LinesUpTo(SplitLines(here), hint, total)
  }

  lemma GatherBytes(list: seq<string>, line: string, after: string)
    ensures Flatten(list) + (line + after) == Flatten(list + [line]) + after
  {
    hide Flatten;
    FlattenSnoc(list, line);
    Regroup(Flatten(list), line, after);
  }

  lemma SplitLinesStep(s: string)
    requires s != ""
    ensures SplitLines(s) == [FirstLine(s)] + SplitLines(s[LineEnd(s)..])
  {
  }

  lemma GatherStart(s: string, hint: int)
    ensures Gathered(s, SplitLines(s), LinesUpTo(SplitLines(s), hint, 0), hint, [], 0, s)
    ensures LinesUpTo([], hint, 0) == [] && SplitLines("") == []
  {
    assert Flatten<char>([]) == "";
  }

  lemma GatherEnd(before: string, all: seq<string>, taken: seq<string>, hint: int, list: seq<string>, total: nat)
    requires Gathered(before, all, taken, hint, list, total, "")
    ensures before == Flatten(list) + "" && taken == list
  {
  }

  lemma GatherSplit(list: seq<string>, here: string, after: string)
    requires here != "" && after == here[LineEnd(here)..]
    ensures list + SplitLines(here) == (list + [FirstLine(here)]) + SplitLines(after)
  {
    assert SplitLines(here) == [FirstLine(here)] + SplitLines(after);
    Regroup(list, [FirstLine(here)], SplitLines(after));
  }

  lemma GatherTaken(list: seq<string>, line: string, more: seq<string>, hint: int, total: nat)
    ensures list + LinesUpTo([line] + more, hint, total)
         == (if hint != 0 && total + |line| >= hint then list + [line]
             else (list + [line]) + LinesUpTo(more, hint, total + |line|))
  {
    LinesUpToCons(line, more, hint, total);
    Regroup(list, [line], LinesUpTo(more, hint, total + |line|));
  }

  /** One more line: either the hint is reached and nothing else will be taken, or the invariant is kept. */
  lemma GatherLine(before: string, all: seq<string>, taken: seq<string>,
                   hint: int, list: seq<string>, total: nat, here: string, after: string)
    requires here != "" && after == here[LineEnd(here)..]
    requires Gathered(before, all, taken, hint, list, total, here)
    ensures before == Flatten(list + [FirstLine(here)]) + after
    ensures
      if hint != 0 && total + |FirstLine(here)| >= hint then taken == list + [FirstLine(here)]
      else Gathered(before, all, taken, hint, list + [FirstLine(here)], total + |FirstLine(here)|, after)
  {
    hide Flatten, SplitLines, LinesUpTo, LineEnd, FirstLine;
    LineOff(here, after);
    GatherBytes(list, FirstLine(here), after);
    GatherSplit(list, here, after);
    GatherTakes(list, here, after, hint, total);
  }

  lemma LineOff(here: string, after: string)
    requires after == here[LineEnd(here)..]
    ensures here == FirstLine(here) + after
  {
  }

  lemma GatherTakes(list: seq<string>, here: string, after: string, hint: int, total: nat)
    requires here != "" && after == here[LineEnd(here)..]
    ensures
      var line := FirstLine(here);
      list + LinesUpTo(SplitLines(here), hint, total)
        == (if hint != 0 && total + |line| >= hint then list + [line]
            else (list + [line]) + LinesUpTo(SplitLines(after), hint, total + |line|))
  {
    hide SplitLines, LinesUpTo, LineEnd, FirstLine;
    SplitLinesStep(here);
    GatherTaken(list, FirstLine(here), SplitLines(after), hint, total);
  }

  lemma PlainLine(before: string, line: string, after: string)
    requires StreamStep(before, ReadLine(-1), [line], after)
    ensures line == FirstLine(before) && after == before[LineEnd(before)..] && before == line + after
    ensures line == "" <==> before == ""
  {
    FlattenOne(line);
  }

  /** What is left when readlines gives up after `list`. */
  lemma LinesLeft(before: string, all: seq<string>, taken: seq<string>,
                  hint: int, list: seq<string>, total: nat, here: string)
    requires Gathered(before, all, taken, hint, list, total, here)
    ensures |list| <= |all| && here == Flatten(all[|list|..])
  {
    SplitLinesExact(here, SplitLines(here));
    assert all[|list|..] == SplitLines(here);
  }

  lemma LinesTaken(before: string, hint: int, list: seq<string>, after: string)
    requires before == Flatten(list) + after && list == LinesUpTo(SplitLines(before), hint, 0)
    ensures StreamStep(before, ReadLines(hint), list, after)
  {
  }

  /** A run: states[i] is the stream left before call i, outs[i] what call i handed out. */
  ghost predicate StreamRun(states: seq<string>, ops: seq<Op>, outs: seq<seq<string>>) {
    && |states| == |ops| + 1 == |outs| + 1
    && forall i :: 0 <= i < |ops| ==> StreamStep(states[i], ops[i], outs[i], states[i + 1])
  }

  lemma RunTail(states: seq<string>, ops: seq<Op>, outs: seq<seq<string>>)
    requires StreamRun(states, ops, outs) && ops != []
    ensures StreamStep(states[0], ops[0], outs[0], states[1])
    ensures StreamRun(states[1..], ops[1..], outs[1..])
  {
    hide StreamStep;
    forall i | 0 <= i < |ops[1..]|
      ensures StreamStep(states[1..][i], ops[1..][i], outs[1..][i], states[1..][i + 1])
    {
      assert StreamStep(states[i + 1], ops[i + 1], outs[i + 1], states[i + 2]);
    }
  }

  lemma StepConserves(before: string, op: Op, out: seq<string>, after: string)
    requires StreamStep(before, op, out, after)
    ensures before == Flatten(out) + after
  {
  }

  /** However calls are mixed, what was handed out followed by what is left is the original stream. */
  lemma {:induction false} RunConserves(states: seq<string>, ops: seq<Op>, outs: seq<seq<string>>)
    requires StreamRun(states, ops, outs)
    ensures states[0] == Flatten(Flatten(outs)) + states[|ops|]
  {
    if ops == [] {
      assert Flatten(outs) == [];
    } else {
      RunTail(states, ops, outs);
      hide StreamStep;
      StepConserves(states[0], ops[0], outs[0], states[1]);
      RunConserves(states[1..], ops[1..], outs[1..]);
      FlattenAppend(outs[0], Flatten(outs[1..]));
      Regroup(Flatten(outs[0]), Flatten(Flatten(outs[1..])), states[|ops|]);
    }
  }

  /** Reading lines until one comes back empty, under any limits but 0, hands out the whole stream. */
  lemma EmptyLineIsTheEnd(states: seq<string>, ops: seq<Op>, outs: seq<seq<string>>, limit: int)
    requires StreamRun(states, ops, outs) && ops != []
    requires ops[|ops| - 1] == ReadLine(limit) && limit != 0 && outs[|ops| - 1] == [""]
    ensures states[0] == Flatten(Flatten(outs)) && states[|ops|] == ""
  {
    var n := |ops| - 1;
    assert StreamStep(states[n], ops[n], outs[n], states[n + 1]);
    RunConserves(states, ops, outs);
  }

  /** A run of plain readline() calls is the newline split of the stream, as far as it went. */
  lemma {:induction false} ReadLineRunSplits(states: seq<string>, ops: seq<Op>, outs: seq<seq<string>>)
    requires StreamRun(states, ops, outs)
    requires forall i :: 0 <= i < |ops| ==> ops[i].ReadLine? && ops[i].limit < 0
    requires forall i :: 0 <= i < |outs| ==> outs[i] != [""]
    ensures SplitLines(states[0]) == Flatten(outs) + SplitLines(states[|ops|])
  {
    if ops == [] {
      assert Flatten(outs) == [];
    } else {
      RunTail(states, ops, outs);
      ReadLineRunSplits(states[1..], ops[1..], outs[1..]);
      var line := outs[0][0];
      assert outs[0] == [line] && Flatten(outs[0]) == line + Flatten([]);
      assert states[0][LineEnd(states[0])..] == states[1];
    }
  }

  /**
   * readline(limit) stays within the first line exactly when the limit does not fall
   * strictly between the end of that line and the end of the buffered bytes.
   */
  lemma LimitOverrunsLine(s: string, limit: int, buffered: nat)
    requires buffered <= |s|
    ensures LimitedLine(s, limit, buffered) <= FirstLine(s) <==> !(LineEnd(s) < limit < buffered)
  {
    var line := LimitedLine(s, limit, buffered);
    if |line| <= LineEnd(s) {
      assert line == FirstLine(s)[..|line|];
    }
  }

  // ---- How far a line search reads ahead ----

  /** The search of readline(limit) is over once this many bytes are in the buffer, or none are left. */
  predicate Stops(s: string, limit: int, buffered: nat)
    requires buffered <= |s|
  {
    '\n' in s[..buffered] || 0 < limit <= buffered || buffered == |s|
  }

  /** Some division into raw reads of at most `block` bytes takes a search that starts with `had` bytes as far as n. */
  ghost predicate Reaches(s: string, limit: int, had: nat, block: nat, n: nat)
    requires n <= |s|
  {
    n == had || exists m: nat :: had <= m < n <= m + block && !Stops(s, limit, m) && Reaches(s, limit, had, block, m)
  }

  /** Single bytes get the search to the end of the first line, and one more block past it. */
  lemma {:induction false} ReachesByBytes(s: string, limit: int, had: nat, block: nat, n: nat)
    requires 0 < block && had <= n < LineEnd(s) < limit
    ensures Reaches(s, limit, had, block, n)
  {
    if had < n {
      ReachesByBytes(s, limit, had, block, n - 1);
      assert !Stops(s, limit, n - 1);
    }
  }

  /**
   * Whether readline(limit) can return bytes past the first newline depends only on what is buffered before
   * the call: it can exactly if the limit lies past the newline, and before the end of the buffer if that holds
   * the newline already, and otherwise before the end of one more block after all but the newline.
   */
  lemma LimitCanOverrun(s: string, limit: int, had: nat, block: nat)
    requires had <= |s| && 0 < block
    ensures
      (exists n: nat :: n <= |s| && Reaches(s, limit, had, block, n) && Stops(s, limit, n)
                        && !(LimitedLine(s, limit, n) <= FirstLine(s)))
      <==> LineEnd(s) < limit < (if LineEnd(s) <= had then had else Min(|s|, LineEnd(s) - 1 + block))
  {
    var e := LineEnd(s);
    forall n: nat | n <= |s| ensures LimitedLine(s, limit, n) <= FirstLine(s) <==> !(e < limit < n) {
      LimitOverrunsLine(s, limit, n);
    }
    var most := if e <= had then had else Min(|s|, e - 1 + block);
    if e < limit < most {
      if e > had { ReachesByBytes(s, limit, had, block, e - 1); }
      assert e > 0 ==> s[..most][e - 1] == s[e - 1];
      assert Stops(s, limit, most);
      assert e > had ==> !Stops(s, limit, e - 1);
      assert Reaches(s, limit, had, block, most);
    }
    forall n: nat | n <= |s| && Reaches(s, limit, had, block, n) && e < limit < n ensures limit < most {
      ReachesNoFurther(s, limit, had, block, n);
    }
  }

  lemma ReachesNoFurther(s: string, limit: int, had: nat, block: nat, n: nat)
    requires had <= n <= |s| && Reaches(s, limit, had, block, n) && LineEnd(s) < limit
    ensures n <= if LineEnd(s) <= had then had else if n < LineEnd(s) then n else LineEnd(s) - 1 + block
  {
  }

  /** The concrete overrun: the buffer holds "a\nbc" and the caller asks for a line of at most 3 bytes. */
  lemma LimitOverrunsLineExample()
    ensures LimitedLine("a\nbc", 3, 4) == "a\nb" && FirstLine("a\nbc") == "a\n"
  {
    LineEndUnique("a\nbc", 2);
  }

  datatype IOError = ReadFailed

  /**
   * The object under a buffered reader. A read hands over some prefix of what is still to come,
   * non-empty unless nothing is left or nothing was asked for; a negative amount sets no limit. It may also
   * fail, consuming nothing.
   */
  class RawStream {
    var rest: string

    constructor (data: string)
      ensures rest == data
    {
      rest := data;
    }

    method Read(amt: Option<int>) returns (r: Result<string, IOError>)
      modifies this
      ensures r.Ok? && r.value == "" ==> amt == Some(0) || rest == ""
      ensures r.Ok? ==> StreamStep(old(rest), Op.Read(amt), [r.value], rest) && old(rest) == r.value + rest
      ensures r.Err? ==> rest == old(rest)
    {
      if * {
        return Err(ReadFailed);
      }
      var n := |rest|;
      if amt.Some? && (amt.value == 0 || rest == "") {
        n := 0;
      } else if amt.Some? {
        n :| 1 <= n <= |rest| && (amt.value > 0 ==> n <= amt.value);
      }
      assert rest == rest[..n] + rest[n..];
      assert Flatten([rest[..n]]) == rest[..n] + Flatten([]);
      r := Ok(rest[..n]);
      rest := rest[n..];
    }

    method ReadLine() returns (r: Result<string, IOError>)
      modifies this
      ensures r.Ok? ==> r.value == FirstLine(old(rest)) && old(rest) == r.value + rest
      ensures r.Err? ==> rest == old(rest)
    {
      if * {
        return Err(ReadFailed);
      }
      r := Ok(FirstLine(rest));
      rest := rest[LineEnd(rest)..];
    }
  }
}
