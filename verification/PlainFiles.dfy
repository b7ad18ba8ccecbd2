/** The reference semantics of a file object: contents, a position, and at most a clamp on seeks. */
module PlainFiles {
  import opened Wrappers
  import opened Sequences
  import opened Streams
  import opened RangeHeaders

  datatype PlainFile = PlainFile(data: string, pos: nat, clamp: Option<nat>)

  function Rest(f: PlainFile): string { Slice(f.data, f.pos, None) }

  function Take(s: string, size: int): string { if size < 0 then s else s[..Min(size, |s|)] }

  /** What read(size) returns. */
  function ReadOut(f: PlainFile, size: int): string { Take(Rest(f), size) }

  /** What readline(size) returns. */
  function LineOut(f: PlainFile, size: int): string { Take(FirstLine(Rest(f)), size) }

  function Advance(f: PlainFile, n: nat): PlainFile { f.(pos := f.pos + n) }

  function Clamped(f: PlainFile, target: int): int {
    if f.clamp.Some? && target >= f.clamp.value then f.clamp.value else target
  }

  /** Where seek(offset, whence) wants to go, after clamping. */
  function Target(f: PlainFile, offset: int, whence: int): int {
    Clamped(f, if whence == 0 then offset else f.pos + offset)
  }

  datatype FileOp = Reading(size: int) | ReadingLine(size: int)

  function OpOut(f: PlainFile, op: FileOp): string {
    if op.Reading? then ReadOut(f, op.size) else LineOut(f, op.size)
  }

  /** What a mix of reads and readlines returns, joined. */
  function Output(f: PlainFile, ops: seq<FileOp>): string
    decreases |ops|
  {
    if ops == [] then ""
    else
      var out := OpOut(f, ops[0]);
      out + Output(Advance(f, |out|), ops[1..])
  }

  /** However reads are mixed, they return the file from the position on, in order and without gaps. */
  lemma {:induction false} OutputContiguous(f: PlainFile, ops: seq<FileOp>)
    ensures Output(f, ops) <= Rest(f)
    decreases |ops|
  {
    hide Rest, OpOut;
    if ops != [] {
      var out := OpOut(f, ops[0]);
      OneOut(f, ops[0]);
      OutputContiguous(Advance(f, |out|), ops[1..]);
    }
  }

  lemma OneOut(f: PlainFile, op: FileOp)
    ensures Rest(f) == OpOut(f, op) + Rest(Advance(f, |OpOut(f, op)|))
  {
    var out := OpOut(f, op);
    assert out <= Rest(f);
    hide OpOut, LineEnd;
    RestAfter(f, |out|);
  }

  lemma RestAfter(f: PlainFile, n: nat)
    requires n <= |Rest(f)|
    ensures Rest(Advance(f, n)) == Rest(f)[n..]
  {
  }

  /** read(size) returns that many bytes from the position on, or what is left, or all of it for a negative size. */
  lemma ReadOutExact(f: PlainFile, size: int)
    ensures
      var rest := if f.pos <= |f.data| then f.data[f.pos..] else "";
      ReadOut(f, size) == rest[..if size < 0 || size > |rest| then |rest| else size]
  {
    var rest := if f.pos <= |f.data| then f.data[f.pos..] else "";
    assert Rest(f) == rest == rest[..|rest|];
  }

  /** readline(size) returns the file from the position on, up to the first of a newline, the size, and the end. */
  lemma LineOutExact(f: PlainFile, size: int)
    ensures
      var rest := if f.pos <= |f.data| then f.data[f.pos..] else "";
      var out := LineOut(f, size);
      && out <= rest && (size >= 0 ==> |out| <= size)
      && (forall k :: 0 <= k < |out| - 1 ==> out[k] != '\n')
      && (out == rest || (size >= 0 && |out| == size) || (out != "" && out[|out| - 1] == '\n'))
  {
    assert Rest(f) == if f.pos <= |f.data| then f.data[f.pos..] else "";
    var line := FirstLine(Rest(f));
    assert IsLineEnd(Rest(f), |line|);
  }

  /** seek goes to the offset from the start or from the position, but not past the clamp. */
  lemma TargetExact(f: PlainFile, offset: int, whence: int)
    requires whence == 0 || whence == 1
    ensures
      var wish := if whence == 0 then offset else f.pos + offset;
      Target(f, offset, whence) == if f.clamp.Some? && wish > f.clamp.value then f.clamp.value else wish
  {
  }

  // ---- Windows over plain files ----

  /** RangeableFileObject tests `if self.lastbyte`, so a last byte of 0 is no limit. */
  function Limit(last: Option<nat>): Option<nat> { if last == Some(0) then None else last }

  /** What a window (first, last) shows of its file. */
  function View(data: string, first: nat, last: Option<nat>): string { Slice(data, first, Limit(last)) }

  /** A window shows the bytes first..last exactly when its last byte is not 0, or there are no bytes. */
  lemma ViewIsSlice(data: string, first: nat, last: Option<nat>)
    requires last.Some? ==> first <= last.value
    ensures View(data, first, last) == Slice(data, first, last) <==> last != Some(0) || data == ""
  {
  }

  /** The length of a slice of n bytes. */
  function Span(n: nat, first: nat, last: Option<nat>): int {
    (if last.None? then n else Min(last.value, n)) - Min(first, n)
  }

  lemma SliceAt(data: string, first: nat, last: Option<nat>)
    requires last.Some? ==> first <= last.value
    ensures |Slice(data, first, last)| == Span(|data|, first, last)
    ensures forall k :: 0 <= k < |Slice(data, first, last)| ==> Slice(data, first, last)[k] == data[first + k]
  {
  }

  /** Where the last byte of a window within a window lies in the file. */
  function Inner(a: nat, b: Option<nat>, l: Option<nat>): Option<nat> {
    if l.None? then b else if b.None? then Some(a + l.value) else Some(Min(b.value, a + l.value))
  }

  /** Windows compose: a window over a window shows one slice of the file. */
  lemma SliceOfSlice(data: string, a: nat, b: Option<nat>, f: nat, l: Option<nat>)
    requires b.Some? ==> a <= b.value
    requires l.Some? ==> f <= l.value
    ensures Slice(Slice(data, a, b), f, l) == Slice(data, a + f, Inner(a, b, l))
  {
    hide Slice, Span, Inner;
    var inner, last := Slice(data, a, b), Inner(a, b, l);
    SliceAt(data, a, b);
    if last.Some? && last.value < a + f {
      NothingLeft(data, a, b, f, l);
    } else {
      SliceAt(inner, f, l);
      SliceAt(data, a + f, last);
      SpanOfSpan(|data|, a, b, f, l);
      var x, y := Slice(inner, f, l), Slice(data, a + f, last);
      forall k | 0 <= k < |x| ensures x[k] == y[k] {
        assert x[k] == inner[f + k] && y[k] == data[a + f + k];
      }
    }
  }

  lemma NothingLeft(data: string, a: nat, b: Option<nat>, f: nat, l: Option<nat>)
    requires (b.Some? ==> a <= b.value) && (l.Some? ==> f <= l.value)
    requires Inner(a, b, l).Some? && Inner(a, b, l).value < a + f
    ensures Slice(Slice(data, a, b), f, l) == "" == Slice(data, a + f, Inner(a, b, l))
  {
  }

  lemma SpanOfSpan(n: nat, a: nat, b: Option<nat>, f: nat, l: Option<nat>)
    requires (b.Some? ==> a <= b.value) && (l.Some? ==> f <= l.value)
    requires Inner(a, b, l).Some? ==> a + f <= Inner(a, b, l).value
    ensures Span(n, a, b) >= 0
    ensures
      var k := Span(Span(n, a, b), f, l);
      k == Span(n, a + f, Inner(a, b, l)) && (k > 0 ==> f + k <= Span(n, a, b) && a + f + k <= n)
  {
  }

  /** _calc_read_size. */
  function ClipSize(realpos: int, limit: Option<nat>, size: int): int {
    if limit.Some? && (size <= -1 || realpos + size >= limit.value) then limit.value - realpos else size
  }

  lemma TakeClipped(s: string, room: nat, size: int)
    ensures Take(Take(s, room), size) == Take(s, ClipSize(0, Some(room), size))
    ensures Take(FirstLine(Take(s, room)), size) == Take(FirstLine(s), ClipSize(0, Some(room), size))
  {
    FirstLineOfPrefix(s, Min(room, |s|));
    assert FirstLine(Take(s, room)) == Take(FirstLine(s), room);
  }

  lemma RestOfWindow(data: string, pos: nat, first: nat, limit: Option<nat>)
    requires first <= pos && (limit.Some? ==> pos <= limit.value)
    ensures Slice(Slice(data, first, limit), pos - first, None)
         == Take(Slice(data, pos, None), if limit.None? then -1 else limit.value - pos)
  {
    SliceOfSlice(data, first, limit, pos - first, None);
    SliceIsTake(data, pos, limit);
  }

  lemma SliceIsTake(data: string, pos: nat, limit: Option<nat>)
    requires limit.Some? ==> pos <= limit.value
    ensures Slice(data, pos, limit) == Take(Slice(data, pos, None), if limit.None? then -1 else limit.value - pos)
  {
  }

  /** A window reading through its file with the clipped size, and a plain file over the slice, read the same bytes. */
  lemma ClippedRead(f: PlainFile, first: nat, limit: Option<nat>, size: int)
    requires first <= f.pos && (limit.Some? ==> f.pos <= limit.value)
    ensures
      var w := PlainFile(Slice(f.data, first, limit), f.pos - first, None);
      var clipped := ClipSize(f.pos, limit, size);
      ReadOut(f, clipped) == ReadOut(w, size) && LineOut(f, clipped) == LineOut(w, size)
  {
    hide Slice, FirstLine;
    RestOfWindow(f.data, f.pos, first, limit);
    if limit.Some? {
      TakeClipped(Rest(f), limit.value - f.pos, size);
    }
  }
}
