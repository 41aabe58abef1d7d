/** The window of a mapped file: page arithmetic, and turning from one view to the next. */
module MappedFiles {
  import opened Arithmetic

  const DEFAULT_LENGTH: int := -1

  datatype ErrCode = OK | INVALID_OPERATION | INVALID_VALUE | FAILED

  /** What the path names: no file, which CREATE_IF_ABSENT may ask to create, or one of that many bytes. */
  datatype File = Absent(create: bool) | Present(bytes: nat)

  /** What mmap answers: an address, or MAP_FAILED. */
  datatype Mapping = Mapped(address: int) | MapFailed

  // ---- pages -------------------------------------------------------------------------------------------

  /** RoundSize: the least multiple of the page size that is not below x. */
  function RoundSize(x: nat, page: nat): (r: nat)
    requires page > 0
  {
    if x % page == 0 then x else (x / page + 1) * page
  }

  predicate Aligned(x: int, page: nat)
    requires page > 0
  {
    x % page == 0
  }

  lemma MultipleIsAligned(k: int, page: nat)
    requires page > 0
    ensures Aligned(k * page, page)
  {
    ModIs(k * page, page, k, 0);
  }

  lemma AlignedSum(x: int, y: int, page: nat)
    requires page > 0 && Aligned(x, page) && Aligned(y, page)
    ensures Aligned(x + y, page) && Aligned(x - y, page)
  {
    var a, b := x / page, y / page;
    assert x == a * page && y == b * page;
    assert x + y == (a + b) * page && x - y == (a - b) * page;
    MultipleIsAligned(a + b, page);
    MultipleIsAligned(a - b, page);
  }

  lemma RoundUp(x: nat, page: nat)
    requires page > 0
    ensures Aligned(RoundSize(x, page), page) && x <= RoundSize(x, page) < x + page
  {
    MultipleIsAligned(x / page + 1, page);
    assert (x / page + 1) * page == x / page * page + page;
    assert x == x / page * page + x % page;
  }

  lemma RoundIsLeast(x: nat, m: nat, page: nat)
    requires page > 0 && Aligned(m, page) && x <= m
    ensures RoundSize(x, page) <= m
  {
    RoundUp(x, page);
    var r := RoundSize(x, page);
    if r > m {
      AlignedSum(r, m, page);
      SmallAligned(r - m, page);
    }
  }

  lemma SmallAligned(d: int, page: nat)
    requires page > 0 && Aligned(d, page) && 0 <= d < page
    ensures d == 0
  {
  }

  // ---- the mapped file ------------------------------------------------------------------------------------

  class MappedFile {
    const page: nat
    var offset: int
    var size: int
    /** Addresses: the view, and the first and last byte of the mapped region. */
    var data: int
    var rStart: int
    var rEnd: int
    var isMapped: bool
    var isNormed: bool
    /** The file is to be created, and as long as the window needs it. */
    var isNewFile: bool

    constructor (page: nat, offset: int, size: int)
      requires page > 0
      ensures this.page == page && this.offset == offset && this.size == size && !isMapped && !isNormed && !isNewFile
    {
      this.page, this.offset, this.size := page, offset, size;
      data, rStart, rEnd, isMapped, isNormed, isNewFile := 0, 0, 0, false, false, false;
    }

    function EndOffset(): int
      reads this
    {
      if size == DEFAULT_LENGTH then -1 else offset + size - 1
    }

    function End(): int
      reads this
    {
      data + size - 1
    }

    /** Where in the file the region starts. */
    ghost function RegionOffset(): int
      reads this
    {
      offset - (data - rStart)
    }

    /** A mapped view of a file of fileSize bytes: not empty, in a region of whole pages that the file reaches into. */
    ghost predicate Viewing(fileSize: nat)
      requires page > 0
      reads this
    {
      && isMapped && isNormed
      && size >= 1 && rStart <= data && End() <= rEnd
      && RegionOffset() >= 0 && Aligned(RegionOffset(), page) && Aligned(rEnd + 1 - rStart, page)
      && RegionOffset() + (rEnd + 1 - rStart) <= RoundSize(fileSize, page)
    }

    /** The window that a normalization of these parameters gives, if it succeeds. */
    predicate Sensible(file: File)
      requires page > 0
      reads this
    {
      && offset >= 0 && Aligned(offset, page) && size != 0 && size >= DEFAULT_LENGTH
      && if file.Present? then offset < RoundSize(file.bytes, page) else file.create
    }

    function NormalSize(file: File): int
      requires page > 0
      reads this
    {
      match file
      case Absent(_) => if size == DEFAULT_LENGTH then page else size
      case Present(n) => Least(if size == DEFAULT_LENGTH then n else size, RoundSize(n, page) - offset)
    }

    method Normalize(file: File) returns (res: ErrCode)
      requires page > 0
      modifies `size, `isNormed, `isNewFile
      ensures res == if old(isNormed) then INVALID_OPERATION else if old(Sensible(file)) then OK else INVALID_VALUE
      ensures res == OK ==>
        isNormed && size == old(NormalSize(file)) >= 1 && isNewFile == (old(isNewFile) || file.Absent?)
      ensures res == OK && file.Present? ==> size <= RoundSize(file.bytes, page) - offset
      ensures res != OK ==> isNormed == old(isNormed) && isNewFile == old(isNewFile)
      ensures res == INVALID_OPERATION ==> size == old(size)
    {
      hide RoundSize;
      if isNormed {
        return INVALID_OPERATION;
      }
      if offset < 0 || offset % page != 0 {
        return INVALID_VALUE;
      }
      if size == 0 || size < DEFAULT_LENGTH {
        return INVALID_VALUE;
      }
      match file {
        case Absent(create) =>
          if !create {
            return INVALID_VALUE;
          }
          if size == DEFAULT_LENGTH {
            size := page;
          }
          isNewFile := true;
        case Present(n) =>
          RoundUp(n, page);
          if size == DEFAULT_LENGTH {
            size := n;
          }
          var max := RoundSize(n, page) - offset;
          if max <= 0 {
            return INVALID_VALUE;
          }
          if size > max {
            size := max;
          }
      }
      isNormed := true;
      return OK;
    }

    /** How long the file is once it is open: a new one reaches as far as the window. */
    function Opened(file: File): nat
      requires offset >= 0 && size >= 1
      reads this
    {
      if isNewFile || file.Absent? then offset + size else file.bytes
    }

    /**
      * The view is what was asked for: by default all of a file that is there, from the offset on, or a page of one
      * that is created; otherwise the size named, cut only where the last page of the file ends.
      */
    ghost predicate Asked(asked: int, file: File, fileSize: nat)
      requires page > 0
      reads this
    {
      && (asked == DEFAULT_LENGTH && file.Present? ==> offset + size >= fileSize == file.bytes)
      && (asked == DEFAULT_LENGTH && file.Present? && offset == 0 ==> size == fileSize)
      && (asked == DEFAULT_LENGTH && file.Absent? ==> size == page && fileSize == offset + page)
      && (asked != DEFAULT_LENGTH && file.Absent? ==> size == asked && fileSize == offset + asked)
      && (asked != DEFAULT_LENGTH && file.Present? ==> size <= asked)
      && (asked != DEFAULT_LENGTH && size != asked ==> offset + size == RoundSize(fileSize, page))
    }

    method Map(file: File, mapping: Mapping) returns (res: ErrCode, fileSize: nat)
      requires page > 0 && (isNewFile ==> file.Absent?)
      requires isNormed && !isMapped ==> size >= 1 && offset >= 0 && Aligned(offset, page)
      requires isNormed && !isMapped ==>
        if file.Present? then size <= RoundSize(file.bytes, page) - offset else isNewFile
      modifies `size, `isNormed, `isNewFile, `data, `rStart, `rEnd, `isMapped
      ensures res == if old(isMapped) then INVALID_OPERATION
                     else if !old(isNormed) && !old(Sensible(file)) then INVALID_VALUE
                     else if mapping.Mapped? then OK else FAILED
      ensures old(isMapped) ==> isMapped && size == old(size)
      ensures res == OK ==> Viewing(fileSize) && data == rStart == mapping.address && RegionOffset() == offset
      ensures res in {OK, FAILED} ==> size == if old(isNormed) then old(size) else old(NormalSize(file))
      ensures res in {OK, FAILED} ==> fileSize == if file.Absent? then offset + size else file.bytes
      ensures res in {OK, FAILED} ==> isNormed && !isNewFile
      ensures res == OK && !old(isNormed) ==> Asked(old(size), file, fileSize)
      ensures !old(isMapped) && res != OK ==>
        !isMapped && data == old(data) && rStart == old(rStart) && rEnd == old(rEnd)
    {
      fileSize := 0;
      if isMapped {
        return INVALID_OPERATION, 0;
      }
      if file.Present? {
        RoundUp(file.bytes, page);
      }
      res := Normalize(file);
      if res == INVALID_VALUE {
        return;
      }
      fileSize := Opened(file);
      isNewFile := false;
      RoundUp(size, page);
      RoundUp(fileSize, page);
      AlignedSum(RoundSize(fileSize, page), offset, page);
      RoundIsLeast(size, RoundSize(fileSize, page) - offset, page);
      hide RoundSize, Aligned;
      if mapping.MapFailed? {
        return FAILED, fileSize;
      }
      rStart := mapping.address;
      rEnd := rStart + (RoundSize(size, page) - 1);
      data := rStart;
      isMapped := true;
      return OK, fileSize;
    }

    /**
      * The next view: the next part of the region, or, at its end, of the file in a new region.  If that cannot be
      * mapped the window is what it was, but no longer mapped, and its addresses are null.  A file that is not mapped
      * moves on by a page.
      */
    method TurnNext(fileSize: nat, mapping: Mapping) returns (res: ErrCode)
      requires page > 0 && (isNormed && isMapped ==> Viewing(fileSize) && !isNewFile)
      modifies `offset, `size, `isNormed, `isNewFile, `data, `rStart, `rEnd, `isMapped
      ensures isNewFile == old(isNewFile)
      ensures res == if !old(isNormed) || old(EndOffset()) + 1 >= fileSize then INVALID_OPERATION
                     else if old(isMapped) && old(End()) == old(rEnd) && mapping.MapFailed? then FAILED
                     else OK
      ensures res != OK ==> offset == old(offset) && size == old(size) && isNormed == old(isNormed)
      ensures res == INVALID_OPERATION ==>
        isMapped == old(isMapped) && data == old(data) && rStart == old(rStart) && rEnd == old(rEnd)
      ensures res == FAILED ==> !isMapped && data == rStart == rEnd == 0
      ensures res == OK && !old(isMapped) ==>
        offset == old(offset) + page && size == old(size) && !isNormed && !isMapped
      ensures res != FAILED && old(isNormed && isMapped) ==> Viewing(fileSize)
      ensures res == OK && old(isMapped) ==> offset == old(EndOffset()) + 1
      ensures res == OK && old(isMapped) && old(End()) == old(rEnd) ==>
        Aligned(offset, page) && data == rStart == mapping.address
        && size == if offset + old(size) > fileSize then fileSize - offset else old(size)
      ensures res == OK && old(isMapped) && old(End()) != old(rEnd) ==>
        rStart == old(rStart) && rEnd == old(rEnd) && data == old(End()) + 1
        && size == if data + old(size) - 1 > rEnd then rEnd - data + 1 else old(size)
    {
      hide RoundSize, Aligned;
      if !isNormed {
        return INVALID_OPERATION;
      }
      if EndOffset() + 1 >= fileSize {
        return INVALID_OPERATION;
      }
      var oldSize, oldOff := size, offset;
      if isMapped {
        var curEnd := End();
        if curEnd == rEnd {
          AlignedSum(RegionOffset(), rEnd + 1 - rStart, page);
          RoundUp(fileSize, page);
          if EndOffset() + 1 + size > fileSize {
            size := fileSize - EndOffset() - 1;
          }
          isNormed := false;
          offset := offset + oldSize;
          Unmap();
          var n;
          res, n := Map(Present(fileSize), mapping);
          if res != OK {
            offset, size, isNormed := oldOff, oldSize, true;
          }
          return;
        }
        if curEnd + oldSize > rEnd {
          size := rEnd - curEnd;
        }
        data := data + oldSize;
        offset := offset + oldSize;
        return OK;
      }
      offset := offset + page;
      isNormed := false;
      return OK;
    }

    /** What is left of a mapping that the system has given up. */
    method Unmap()
      modifies `data, `rStart, `rEnd, `isMapped
      ensures !isMapped && data == rStart == rEnd == 0
    {
      rStart, rEnd, data := 0, 0, 0;
      isMapped := false;
    }
  }

  /** By default, and from the beginning, one view holds the file, and there is no next one. */
  method MapWhole(f: MappedFile, bytes: nat, mapping: Mapping) returns (res: ErrCode, next: ErrCode)
    requires f.page > 0 && f.offset == 0 && f.size == DEFAULT_LENGTH && !f.isNormed && !f.isMapped && !f.isNewFile
    modifies f`offset, f`size, f`isNormed, f`isNewFile, f`data, f`rStart, f`rEnd, f`isMapped
    ensures res == if bytes == 0 then INVALID_VALUE else if mapping.Mapped? then OK else FAILED
    ensures res == OK ==> f.Viewing(bytes) && f.offset == 0 && f.size == bytes && next == INVALID_OPERATION
  {
    RoundUp(bytes, f.page);
    hide RoundSize, Aligned;
    MultipleIsAligned(0, f.page);
    next := OK;
    var n;
    res, n := f.Map(Present(bytes), mapping);
    if res == OK {
      next := f.TurnNext(n, mapping);
    }
  }

  function Least(x: int, y: int): int { if x <= y then x else y }

  // ---- all the turns ---------------------------------------------------------------------------------------

  datatype Window = Window(start: int, end: int)

  /** The views follow each other without a gap or an overlap, from start to the end of the file. */
  ghost predicate Tiles(ws: seq<Window>, start: int, fileSize: nat) {
    && ws != [] && ws[0].start == start
    && (forall k :: 0 <= k < |ws| ==> ws[k].start <= ws[k].end)
    && (forall j, k :: 0 <= j && k == j + 1 && k < |ws| ==> ws[k].start == ws[j].end + 1)
    && ws[|ws| - 1].end + 1 >= fileSize
  }

  /** Turning to the next view until there is none visits the rest of the file in finitely many turns. */
  method Walk(f: MappedFile, fileSize: nat, addresses: nat -> int) returns (ws: seq<Window>)
    requires f.page > 0 && f.Viewing(fileSize) && !f.isNewFile
    modifies f`offset, f`size, f`isNormed, f`isNewFile, f`data, f`rStart, f`rEnd, f`isMapped
    ensures Tiles(ws, old(f.offset), fileSize)
    ensures ws[0].end == old(f.EndOffset())
    ensures forall k :: 0 <= k < |ws| ==> 0 <= ws[k].start && ws[k].end < RoundSize(fileSize, f.page)
  {
    hide RoundSize, Aligned;
    ws := [Window(f.offset, f.EndOffset())];
    var more := true;
    while more
      invariant f.Viewing(fileSize) && !f.isNewFile
      invariant ws != [] && ws[0] == Window(old(f.offset), old(f.EndOffset()))
      invariant ws[|ws| - 1] == Window(f.offset, f.EndOffset())
      invariant forall k :: 0 <= k < |ws| ==> 0 <= ws[k].start <= ws[k].end < RoundSize(fileSize, f.page)
      invariant forall j, k :: 0 <= j && k == j + 1 && k < |ws| ==> ws[k].start == ws[j].end + 1
      invariant !more ==> f.EndOffset() + 1 >= fileSize
      decreases fileSize - f.offset, more
    {
      var res := f.TurnNext(fileSize, Mapped(addresses(|ws|)));
      if res == OK {
        ws := ws + [Window(f.offset, f.EndOffset())];
      } else {
        more := false;
      }
    }
  }

  lemma {:induction false} StartsAscend(ws: seq<Window>, j: nat, k: nat)
    requires j < k < |ws|
    requires forall k :: 0 <= k < |ws| ==> ws[k].start <= ws[k].end
    requires forall j, k :: 0 <= j && k == j + 1 && k < |ws| ==> ws[k].start == ws[j].end + 1
    ensures ws[j].end < ws[k].start
    decreases k - j
  {
    if j + 1 < k {
      StartsAscend(ws, j + 1, k);
    }
    assert ws[j + 1].start == ws[j].end + 1;
  }

  /** Every byte of the rest of the file is in exactly one of the views. */
  lemma EachByteOnce(ws: seq<Window>, start: int, fileSize: nat, at: int)
    requires Tiles(ws, start, fileSize) && start <= at < fileSize
    ensures exists k :: 0 <= k < |ws| && ws[k].start <= at <= ws[k].end
    ensures forall j, k :: 0 <= j < k < |ws| ==> !(ws[j].start <= at <= ws[j].end && ws[k].start <= at <= ws[k].end)
  {
    var k := FindView(ws, at, 0);
    forall j, k | 0 <= j < k < |ws|
      ensures ws[j].end < ws[k].start
    {
      StartsAscend(ws, j, k);
    }
  }

  lemma {:induction false} FindView(ws: seq<Window>, at: int, from: nat) returns (k: nat)
    requires from < |ws| && ws[from].start <= at <= ws[|ws| - 1].end
    requires forall j, k :: 0 <= j && k == j + 1 && k < |ws| ==> ws[k].start == ws[j].end + 1
    ensures k < |ws| && ws[k].start <= at <= ws[k].end
    decreases |ws| - from
  {
    if at <= ws[from].end {
      k := from;
    } else {
      assert from + 1 < |ws| && ws[from + 1].start == ws[from].end + 1;
      k := FindView(ws, at, from + 1);
    }
  }
}
