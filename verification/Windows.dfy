/** byterange.py: RangeableFileObject, over files with and without seek and over other windows. */
module Windows {
  import opened Wrappers
  import opened Sequences
  import opened Streams
  import opened RangeHeaders
  import opened PlainFiles

  datatype Error = AssertionFailed | TypeFailed | SeekFromEnd | RangeNotSatisfiable | TransferRefused

  /** A file object from outside the module: a local file (with seek) or a network stream (without). */
  class RawFile {
    const data: string
    const seekable: bool
    var pos: nat

    constructor (data: string, seekable: bool)
      ensures this.data == data && this.seekable == seekable && pos == 0
    {
      this.data, this.seekable, this.pos := data, seekable, 0;
    }

    ghost function Abs(): PlainFile
      reads this
    {
      PlainFile(data, pos, None)
    }

    method Read(size: int) returns (s: string)
      modifies this
      ensures s == ReadOut(old(Abs()), size) && Abs() == Advance(old(Abs()), |s|)
    {
      s := ReadOut(PlainFile(data, pos, None), size);
      pos := pos + |s|;
    }

    method ReadLine(size: int) returns (s: string)
      modifies this
      ensures s == LineOut(old(Abs()), size) && Abs() == Advance(old(Abs()), |s|)
    {
      s := LineOut(PlainFile(data, pos, None), size);
      pos := pos + |s|;
    }

    method Seek(offset: nat)
      requires seekable
      modifies this
      ensures pos == offset
    {
      pos := offset;
    }
  }

  /**
   * _poor_mans_seek: reading forward ends where a native seek to pos + offset would, if that is inside
   * the file; otherwise it fails and leaves the file at its end.
   */
  method PoorMansSeek(fo: RawFile, offset: nat) returns (r: Result<(), Error>)
    requires fo.pos <= |fo.data|
    modifies fo
    ensures r.Ok? <==> old(fo.pos) + offset <= |fo.data|
    ensures fo.pos == if r.Ok? then old(fo.pos) + offset else |fo.data|
    ensures r.Err? ==> r.error == RangeNotSatisfiable
  {
    var pos: nat := 0;
    var bufsize: nat := 1024;
    while pos < offset
      invariant pos <= offset && fo.pos == old(fo.pos) + pos <= |fo.data|
      invariant bufsize > 0
      decreases offset - pos
    {
      if pos + bufsize > offset {
        bufsize := offset - pos;
      }
      var buf := fo.Read(bufsize);
      if |buf| != bufsize {
        return Err(RangeNotSatisfiable);
      }
      pos := pos + bufsize;
    }
    return Ok(());
  }

  /** A file object as the module sees it: one from outside, or a window. */
  datatype FileRef = RawRef(raw: RawFile) | WindowRef(win: Window) {

    ghost function Repr(): set<object> {
      match this case RawRef(f) => {f} case WindowRef(w) => w.Repr
    }

    ghost function Depth(): nat {
      match this case RawRef(_) => 0 case WindowRef(w) => w.depth
    }

    /** The file at the bottom of a tower of windows, and where in it this object starts and must stop. */
    ghost function Ground(): Bottom {
      match this case RawRef(f) => Bottom(f, 0, None) case WindowRef(w) => w.ground
    }

    ghost predicate Valid()
      reads Repr()
      decreases Depth(), 1
    {
      match this
      case RawRef(f) => f.seekable || f.pos <= |f.data|
      case WindowRef(w) => w in w.Repr && w.depth > 0 && w.Valid()
    }

    ghost function Abs(): PlainFile
      reads Repr(), match this case RawRef(f) => {f} case WindowRef(w) => {w}
    {
      match this case RawRef(f) => f.Abs() case WindowRef(w) => w.Abs()
    }

    method Read(size: int) returns (s: string)
      requires Valid()
      modifies Repr()
      ensures Valid() && s == ReadOut(old(Abs()), size) && Abs() == Advance(old(Abs()), |s|)
      decreases Depth(), 1
    {
      match this {
        case RawRef(f) => s := f.Read(size);
        case WindowRef(w) => s := w.Read(size);
      }
    }

    method ReadLine(size: int) returns (s: string)
      requires Valid()
      modifies Repr()
      ensures Valid() && s == LineOut(old(Abs()), size) && Abs() == Advance(old(Abs()), |s|)
      decreases Depth(), 1
    {
      match this {
        case RawRef(f) => s := f.ReadLine(size);
        case WindowRef(w) => s := w.ReadLine(size);
      }
    }

    /** _do_seek: move on by offset from realpos, natively if the object can seek. */
    method SeekOn(realpos: nat, offset: int) returns (r: Result<(), Error>)
      requires Valid() && InStep(realpos, Abs())
      modifies Repr()
      ensures r.Ok? ==> offset >= 0 && Valid() && InStep(realpos + offset, Abs()) && SameFile(Abs(), old(Abs()))
      ensures r == Err(AssertionFailed) <==> offset < 0
      ensures r == Err(AssertionFailed) ==> Valid() && Abs() == old(Abs())
      ensures r == Err(RangeNotSatisfiable) <==> offset >= 0 && Ground().OutOfReach(realpos + offset)
      ensures r.Err? ==> r.error.AssertionFailed? || r.error.RangeNotSatisfiable?
      decreases Depth(), 2
    {
      hide Slice, View, Target, Clamped, Bottom.Within;
      if offset < 0 {
        return Err(AssertionFailed);
      }
      match this {
        case RawRef(f) =>
          if f.seekable {
            f.Seek(realpos + offset);
            return Ok(());
          }
          r := PoorMansSeek(f, offset);
        case WindowRef(w) =>
          WindowStep(w, realpos, offset);
          r := w.Seek(realpos + offset, 0);
      }
    }
  }

  datatype Bottom = Bottom(file: RawFile, origin: nat, end: Option<nat>) {
    function At(p: nat): nat {
      if end.Some? && origin + p >= end.value then end.value else origin + p
    }

    /** Position p can not be reached by reading. */
    predicate OutOfReach(p: nat) {
      !file.seekable && At(p) > |file.data|
    }

    function Within(first: nat, limit: Option<nat>): Bottom {
      Bottom(file, origin + first,
             if limit.None? then end
             else if end.None? then Some(origin + limit.value)
             else Some(Min(end.value, origin + limit.value)))
    }
  }

  lemma SeekReachesAll(g: Bottom)
    ensures g.file.seekable ==> forall p: nat :: !g.OutOfReach(p)
  {
  }

  /** For a window over a raw file: a target that, clamped at the last byte, lies past the end of a file without seek. */
  lemma ReachOverRaw(w: Window, p: nat)
    requires w.Valid() && w.fo.RawRef?
    ensures
      var wish := w.firstbyte + p;
      var clamped := w.lastbyte.Some? && w.lastbyte.value != 0 && wish >= w.lastbyte.value;
      var target := if clamped then w.lastbyte.value else wish;
      w.ground.OutOfReach(p) <==> !w.fo.raw.seekable && target > |w.fo.raw.data|
  {
  }

  /** A window that keeps within its limit does not change which bytes can be reached. */
  lemma WithinAt(g: Bottom, first: nat, limit: Option<nat>, p: nat)
    requires first <= p && (limit.Some? ==> p <= limit.value)
    ensures g.Within(first, limit).OutOfReach(p - first) == g.OutOfReach(p)
  {
  }

  /** Seeking a window on by an offset from a position in step with it lands in step again, and as far to reach. */
  lemma WindowStep(w: Window, realpos: nat, offset: nat)
    requires w.Valid() && InStep(realpos, w.Abs())
    ensures
      var t := Target(w.Abs(), realpos + offset, 0);
      && t >= w.Abs().pos && InStep(realpos + offset, w.Abs().(pos := t))
      && (w.ground.OutOfReach(t) <==> w.ground.OutOfReach(realpos + offset))
  {
  }

  /** A target within the window is the same target, clamped the same way, counted from the first byte. */
  lemma TargetAt(w: PlainFile, first: nat, offset: int, whence: int)
    ensures
      var wish := if whence == 0 then first + offset else first + w.pos + offset;
      Target(w, offset, whence) + first
        == if w.clamp.Some? && wish >= first + w.clamp.value then first + w.clamp.value else wish
  {
  }

  predicate SameFile(f: PlainFile, g: PlainFile) { f.data == g.data && f.clamp == g.clamp }

  /** How the position of a window follows that of the object below: equal, or both at or past the end. */
  ghost predicate InStep(realpos: nat, below: PlainFile) {
    || realpos == below.pos
    || (below.clamp.Some? && |below.data| <= below.pos == below.clamp.value <= realpos)
  }

  lemma ReadInStep(realpos: nat, below: PlainFile, w: PlainFile, first: nat, limit: Option<nat>, size: int)
    requires InStep(realpos, below) && first <= realpos && (limit.Some? ==> realpos <= limit.value)
    requires w.data == Slice(below.data, first, limit) && w.pos == realpos - first
    ensures
      var clipped := ClipSize(realpos, limit, size);
      && ReadOut(below, clipped) == ReadOut(w, size) && LineOut(below, clipped) == LineOut(w, size)
      && (limit.Some? ==> realpos + |ReadOut(w, size)| <= limit.value && realpos + |LineOut(w, size)| <= limit.value)
      && InStep(realpos + |ReadOut(w, size)|, Advance(below, |ReadOut(w, size)|))
      && InStep(realpos + |LineOut(w, size)|, Advance(below, |LineOut(w, size)|))
  {
    hide ReadOut, LineOut, Slice;
    ClippedRead(below.(pos := realpos), first, limit, size);
    SameBelow(realpos, below, ClipSize(realpos, limit, size));
    OutFits(w, size);
    WindowLength(below.data, first, limit);
    SameAsPlain(w, size);
  }

  /** A position past the end reads as the end. */
  lemma SameBelow(realpos: nat, below: PlainFile, size: int)
    requires InStep(realpos, below)
    ensures ReadOut(below, size) == ReadOut(below.(pos := realpos), size)
    ensures LineOut(below, size) == LineOut(below.(pos := realpos), size)
    ensures realpos != below.pos ==> ReadOut(below, size) == "" && LineOut(below, size) == ""
  {
    if realpos != below.pos { assert Rest(below) == "" == Rest(below.(pos := realpos)); }
  }

  lemma OutFits(w: PlainFile, size: int)
    ensures |ReadOut(w, size)| <= (if w.pos <= |w.data| then |w.data| - w.pos else 0)
    ensures |LineOut(w, size)| <= (if w.pos <= |w.data| then |w.data| - w.pos else 0)
  {
  }

  lemma WindowLength(data: string, first: nat, limit: Option<nat>)
    ensures limit.Some? ==> |Slice(data, first, limit)| <= (if first <= limit.value then limit.value - first else 0)
  {
  }

  /** The clamp plays no part in reading. */
  lemma SameAsPlain(w: PlainFile, size: int)
    ensures ReadOut(w, size) == ReadOut(w.(clamp := None), size) && LineOut(w, size) == LineOut(w.(clamp := None), size)
  {
  }

  class Window {
    ghost const Repr: set<object>
    ghost const depth: nat
    ghost const data: string
    ghost const ground: Bottom
    const fo: FileRef
    const firstbyte: nat
    const lastbyte: Option<nat>
    var realpos: nat

    ghost predicate Valid()
      reads Repr
      decreases depth, 0
    {
      && this in Repr
      && fo.Repr() <= Repr && this !in fo.Repr() && fo.Depth() < depth
      && fo.Valid()
      && (lastbyte.Some? ==> firstbyte <= lastbyte.value)
      && firstbyte <= realpos
      && (Limit(lastbyte).Some? ==> realpos <= lastbyte.value)
      && data == View(fo.Abs().data, firstbyte, lastbyte)
      && ground == fo.Ground().Within(firstbyte, Limit(lastbyte))
      && InStep(realpos, fo.Abs())
    }

    /** The file that this window behaves as. */
    ghost function Abs(): PlainFile
      reads this
    {
      PlainFile(data,
                if realpos < firstbyte then 0 else realpos - firstbyte,
                if Limit(lastbyte).None? || lastbyte.value < firstbyte then None else Some(lastbyte.value - firstbyte))
    }

    constructor (fo: FileRef, firstbyte: nat, lastbyte: Option<nat>)
      requires fo.Valid() && InStep(firstbyte, fo.Abs())
      requires lastbyte.Some? ==> firstbyte <= lastbyte.value
      ensures Valid() && Repr == fo.Repr() + {this} && this.fo == fo
      ensures this.firstbyte == firstbyte && this.lastbyte == lastbyte && realpos == firstbyte
    {
      this.fo, this.firstbyte, this.lastbyte := fo, firstbyte, lastbyte;
      this.realpos := firstbyte;
      this.Repr := fo.Repr() + {this};
      this.depth := fo.Depth() + 1;
      this.data := View(fo.Abs().data, firstbyte, lastbyte);
      this.ground := fo.Ground().Within(firstbyte, Limit(lastbyte));
    }

    method Tell() returns (p: nat)
      requires Valid()
      ensures p == Abs().pos
    {
      p := realpos - firstbyte;
    }

    method Read(size: int) returns (s: string)
      requires Valid()
      modifies Repr
      ensures Valid() && s == ReadOut(old(Abs()), size) && Abs() == Advance(old(Abs()), |s|)
      decreases depth, 0
    {
      hide ReadOut, LineOut, Slice, ClipSize;
      ReadInStep(realpos, fo.Abs(), Abs(), firstbyte, Limit(lastbyte), size);
      s := fo.Read(ClipSize(realpos, Limit(lastbyte), size));
      realpos := realpos + |s|;
    }

    method ReadLine(size: int) returns (s: string)
      requires Valid()
      modifies Repr
      ensures Valid() && s == LineOut(old(Abs()), size) && Abs() == Advance(old(Abs()), |s|)
      decreases depth, 0
    {
      hide ReadOut, LineOut, Slice, ClipSize;
      ReadInStep(realpos, fo.Abs(), Abs(), firstbyte, Limit(lastbyte), size);
      s := fo.ReadLine(ClipSize(realpos, Limit(lastbyte), size));
      realpos := realpos + |s|;
    }

    /**
     * Forward seeks land where they should, clamped at the last byte; going backwards fails an assertion.
     * Without native seek at the bottom, a target past the end of the file there is a range error.
     */
    method Seek(offset: int, whence: int) returns (r: Result<(), Error>)
      requires Valid()
      modifies Repr
      ensures
        var was := old(Abs());
        var target := Target(was, offset, whence);
        && (r == Err(SeekFromEnd) <==> whence == 2)
        && (r == Err(AssertionFailed) <==> whence !in {0, 1, 2} || (whence != 2 && target < was.pos))
        && (r == Err(RangeNotSatisfiable) <==> whence in {0, 1} && target >= was.pos && ground.OutOfReach(target))
        && (r.Ok? ==> Valid() && Abs() == was.(pos := target))
        && (r == Err(SeekFromEnd) || r == Err(AssertionFailed) ==> Valid() && Abs() == was)
      ensures r.Err? ==> r.error.AssertionFailed? || r.error.RangeNotSatisfiable? || r.error.SeekFromEnd?
      ensures ground.file.seekable ==> r != Err(RangeNotSatisfiable)
      decreases depth, 1
    {
      hide Slice, View, Target, Clamped, Bottom.Within, Bottom.OutOfReach, Bottom.At;
      if whence !in {0, 1, 2} {
        return Err(AssertionFailed);
      }
      if whence == 2 {
        return Err(SeekFromEnd);
      }
      var realoffset := if whence == 0 then firstbyte + offset else realpos + offset;
      if lastbyte.Some? && lastbyte.value != 0 && realoffset >= lastbyte.value {
        realoffset := lastbyte.value;
      }
      TargetAt(Abs(), firstbyte, offset, whence);
      SeekReachesAll(ground);
      r := DoSeek(realoffset - realpos);
    }

    /** _do_seek: moves on by the offset, which stays within the limit. */
    method DoSeek(offset: int) returns (r: Result<(), Error>)
      requires Valid() && (Limit(lastbyte).Some? ==> realpos + offset <= lastbyte.value)
      modifies Repr
      ensures r == Err(AssertionFailed) <==> offset < 0
      ensures r == Err(RangeNotSatisfiable) <==> offset >= 0 && ground.OutOfReach(old(Abs()).pos + offset)
      ensures r.Ok? ==> Valid() && Abs() == old(Abs()).(pos := old(Abs()).pos + offset)
      ensures r == Err(AssertionFailed) ==> Valid() && Abs() == old(Abs())
      ensures r.Err? ==> r.error.AssertionFailed? || r.error.RangeNotSatisfiable?
      decreases depth, 0
    {
      hide Slice, View, Bottom.Within, Bottom.OutOfReach, Bottom.At;
      if offset >= 0 {
        WithinAt(fo.Ground(), firstbyte, Limit(lastbyte), realpos + offset);
      }
      r := fo.SeekOn(realpos, offset);
      if r.Ok? {
        realpos := realpos + offset;
      }
    }
  }

  /**
   * RangeableFileObject(fo, tuple) over an object at offset 0. It fails on an invalid range, on (0,'')
   * because that normalises to None, on a negative first byte, and when the first byte cannot be reached.
   */
  method OpenWindow(fo: FileRef, tuple: Option<(Bound, Bound)>) returns (r: Result<Window, Error>)
    requires fo.Valid() && fo.Abs().pos == 0
    modifies fo.Repr()
    ensures r.Ok? <==>
      && Normalize(tuple).Ok? && Normalize(tuple).value.Some?
      && var b := Normalize(tuple).value.value;
      && b.first >= 0
      && !fo.Ground().OutOfReach(b.first)
    ensures r == Err(TypeFailed) <==> Normalize(tuple) == Ok(None)
    ensures r == Err(AssertionFailed) <==>
      Normalize(tuple).Ok? && Normalize(tuple).value.Some? && Normalize(tuple).value.value.first < 0
    ensures r.Err? ==> r.error.TypeFailed? || r.error.AssertionFailed? || r.error.RangeNotSatisfiable?
    ensures r.Ok? ==>
      var b := Normalize(tuple).value.value;
      var last: Option<nat> := if b.last.None? then None else Some(b.last.value);
      && r.value.Valid() && fresh(r.value) && r.value.Repr == fo.Repr() + {r.value} && r.value.fo == fo
      && r.value.Abs() == PlainFile(View(old(fo.Abs()).data, b.first, last), 0,
                                    if Limit(last).None? then None else Some(last.value - b.first))
      && r.value.ground == fo.Ground().Within(b.first, Limit(last))
  {
    var b := Normalize(tuple);
    if b.Err? {
      return Err(RangeNotSatisfiable);
    }
    if b.value.None? {
      return Err(TypeFailed);
    }
    var first, last := b.value.value.first, b.value.value.last;
    var sought := fo.SeekOn(0, first);
    if sought.Err? {
      return Err(sought.error);
    }
    var w := new Window(fo, first, last);
    return Ok(w);
  }
}
