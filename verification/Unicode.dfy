/** Whole strings: the two passes of unicode_ex.cpp in each direction, and what the round trips give. */
module Unicode {
  import opened Utf8Codec

  const INT_MAX: int := 0x7FFF_FFFF

  // ---- UTF-16, section 2 of RFC 2781 -----------------------------------------------------------

  predicate IsHigh(u: Unit) { u & 0xFC00 == 0xD800 }

  predicate IsLow(u: Unit) { u & 0xFC00 == 0xDC00 }

  predicate StartsWithPair(s: seq<Unit>) { |s| >= 2 && IsHigh(s[0]) && IsLow(s[1]) }

  function FromPair(h: Unit, l: Unit): CodePoint {
    ((((h - 0xD800) as bv32) << 10) | ((l - 0xDC00) as bv32)) + 0x10000
  }

  /** The units that the first code point of s takes. */
  function PointWidth(s: seq<Unit>): (n: nat)
    requires s != []
    ensures 1 <= n <= |s|
  {
    if StartsWithPair(s) then 2 else 1
  }

  /** The first code point of s; a surrogate without its partner stands for itself. */
  function Point(s: seq<Unit>): CodePoint
    requires s != []
  {
    if StartsWithPair(s) then FromPair(s[0], s[1]) else s[0] as bv32
  }

  function Utf8Of(s: seq<Unit>): seq<Byte> {
    if s == [] then [] else Utf8(Point(s)) + Utf8Of(s[PointWidth(s)..])
  }

  function HighOf(c: CodePoint): Unit { ((((c - 0x10000) >> 10) + 0xD800) & 0xFFFF) as Unit }

  function LowOf(c: CodePoint): Unit { (((c - 0x10000) & 0x3FF) + 0xDC00) as Unit }

  /** What Utf8ToUtf16 writes for c. */
  function Utf16(c: CodePoint): (u: seq<Unit>)
    ensures 1 <= |u| <= 2
  {
    if c <= 0xFFFF then [c as Unit] else [HighOf(c), LowOf(c)]
  }

  /** Cutting b by the lengths its first bytes announce uses it up exactly. */
  predicate Complete(b: seq<Byte>) {
    b == [] || (SequenceLength(b[0]) <= |b| && Complete(b[SequenceLength(b[0])..]))
  }

  function Utf16Of(b: seq<Byte>, signed: bool): seq<Unit>
    requires Complete(b)
  {
    if b == [] then []
    else var n := SequenceLength(b[0]); Utf16(Decoded(b, n, signed)) + Utf16Of(b[n..], signed)
  }

  /** UTF8-octets of section 4 of RFC 3629. */
  predicate WellFormed(b: seq<Byte>) {
    b == [] || (Utf8Char(b) > 0 && WellFormed(b[Utf8Char(b)..]))
  }

  /** s without the surrogates that have no partner. */
  function Scrub(s: seq<Unit>): seq<Unit> {
    if s == [] then []
    else if StartsWithPair(s) then s[..2] + Scrub(s[2..])
    else if IsHigh(s[0]) || IsLow(s[0]) then Scrub(s[1..])
    else [s[0]] + Scrub(s[1..])
  }

  /** A string assigned from a C pointer ends at the first zero. */
  function Cut<T(==)>(s: seq<T>, zero: T): (r: seq<T>)
    ensures r <= s && zero !in r
    ensures |r| < |s| ==> s[|r|] == zero
  {
    if s == [] || s[0] == zero then [] else [s[0]] + Cut(s[1..], zero)
  }

  // ---- the two passes, UTF-16 to UTF-8 -----------------------------------------------------------

  lemma Utf8OfStep(s: seq<Unit>, i: nat)
    requires i < |s|
    ensures i + PointWidth(s[i..]) <= |s|
    ensures Utf8Of(s[i..]) == Utf8(Point(s[i..])) + Utf8Of(s[i + PointWidth(s[i..])..])
  {
    assert s[i..][PointWidth(s[i..])..] == s[i + PointWidth(s[i..])..];
  }

  lemma PairLength(h: Unit, l: Unit)
    requires IsHigh(h) && IsLow(l)
    ensures 0x10000 <= FromPair(h, l) <= 0x10FFFF && IsScalar(FromPair(h, l))
    ensures HighOf(FromPair(h, l)) == h && LowOf(FromPair(h, l)) == l
  {
  }

  /** Conversion to integers, one operation at a time. */
  lemma TenBitsUp(x: bv32)
    requires x < 0x400
    ensures (x * 0x400) as int == 0x400 * (x as int)
  {
  }

  lemma TenBitsMore(x: bv32, y: bv32)
    requires x < 0x400 && y < 0x400
    ensures (x * 0x400 + y) as int == (x * 0x400) as int + y as int
  {
  }

  lemma PlaneUp(x: bv32)
    requires x < 0x100000
    ensures (x + 0x10000) as int == x as int + 0x10000
  {
  }

  lemma HighBits(h: Unit)
    requires IsHigh(h)
    ensures ((h - 0xD800) as bv32) as int == h as int - 0xD800 && 0xD800 <= h as int <= 0xDBFF
  {
  }

  lemma LowBits(l: Unit)
    requires IsLow(l)
    ensures ((l - 0xDC00) as bv32) as int == l as int - 0xDC00 && 0xDC00 <= l as int <= 0xDFFF
  {
  }

  lemma PairAdds(h: Unit, l: Unit)
    requires IsHigh(h) && IsLow(l)
    ensures var x, y := (h - 0xD800) as bv32, (l - 0xDC00) as bv32;
      x < 0x400 && y < 0x400 && x * 0x400 + y < 0x100000 && FromPair(h, l) == x * 0x400 + y + 0x10000
  {
  }

  /** A pair of surrogates is 0x10000 plus twenty bits, the upper ten from the first, the lower ten from the second. */
  lemma PairMeans(h: Unit, l: Unit)
    requires IsHigh(h) && IsLow(l)
    ensures 0xD800 <= h as int <= 0xDBFF && 0xDC00 <= l as int <= 0xDFFF
    ensures FromPair(h, l) as int == 0x10000 + 0x400 * (h as int - 0xD800) + (l as int - 0xDC00)
  {
    hide IsHigh, IsLow, FromPair;
    var x, y := (h - 0xD800) as bv32, (l - 0xDC00) as bv32;
    PairAdds(h, l);
    HighBits(h);
    LowBits(l);
    TenBitsUp(x);
    TenBitsMore(x, y);
    PlaneUp(x * 0x400 + y);
  }

  /** And so are the two halves that a code point above the first plane is written as. */
  lemma HalvesMean(c: CodePoint)
    requires 0x10000 <= c <= 0x10FFFF
    ensures IsHigh(HighOf(c)) && IsLow(LowOf(c)) && FromPair(HighOf(c), LowOf(c)) == c
    ensures c as int == 0x10000 + 0x400 * (HighOf(c) as int - 0xD800) + (LowOf(c) as int - 0xDC00)
  {
    PairMeans(HighOf(c), LowOf(c));
  }

  method Utf16ToUtf8Length(s: seq<Unit>) returns (n: int)
    ensures n == if s == [] || |Utf8Of(s)| > INT_MAX then -1 else |Utf8Of(s)|
  {
    if s == [] {
      return -1;
    }
    var i := 0;
    n := 0;
    while i < |s|
      invariant 0 <= i <= |s| && 0 <= n <= INT_MAX
      invariant n + |Utf8Of(s[i..])| == |Utf8Of(s)|
    {
      Utf8OfStep(s, i);
      var charLen;
      if s[i] & 0xFC00 == 0xD800 && i + 1 < |s| && s[i + 1] & 0xFC00 == 0xDC00 {
        charLen, i := 4, i + 2;
        PairLength(s[i - 2], s[i - 1]);
      } else {
        charLen, i := CodePointLength(s[i] as bv32), i + 1;
      }
      if n > INT_MAX - charLen {
        return -1;
      }
      n := n + charLen;
    }
  }

  /** As many whole code points of s as fit in room bytes. */
  function Fitted(s: seq<Unit>, room: nat): (e: seq<Byte>)
    ensures |e| <= room
  {
    if s == [] || |Utf8(Point(s))| > room then []
    else Utf8(Point(s)) + Fitted(s[PointWidth(s)..], room - |Utf8(Point(s))|)
  }

  /** ahead is what still fits: the code points from i on, in room bytes less the closing zero. */
  ghost predicate Ahead(s: seq<Unit>, i: nat, room: nat, ahead: seq<Byte>) {
    i <= |s| && room > 0 && ahead == Fitted(s[i..], room - 1)
  }

  /** dst holds e as far as cur, and from there on what it held before. */
  ghost predicate Filling<T>(dst: array<T>, cur: nat, ahead: seq<T>, e: seq<T>, was: seq<T>)
    reads dst
  {
    cur <= dst.Length == |was| && e == dst[..cur] + ahead && dst[cur..] == was[cur..]
  }

  /** dst is filled with e up to cur, and behind one more element it is as it was. */
  ghost predicate Ended<T>(dst: array<T>, cur: nat, e: seq<T>, was: seq<T>)
    reads dst
  {
    cur <= dst.Length == |was| && dst[..cur] == e && (cur < |was| ==> dst[cur + 1..] == was[cur + 1..])
  }

  lemma FillingEnds<T>(dst: array<T>, cur: nat, e: seq<T>, was: seq<T>)
    requires Filling(dst, cur, [], e, was)
    ensures Ended(dst, cur, e, was)
  {
    if cur < dst.Length {
      SliceLater(dst[..], was, cur, 1);
    }
  }

  lemma FillingBegins<T>(dst: array<T>, e: seq<T>)
    ensures Filling(dst, 0, e, e, dst[..])
  {
  }

  /** The next code point from i on, and where it ends. */
  method TakePoint(s: seq<Unit>, i: nat, ghost room: nat, ghost ahead: seq<Byte>)
    returns (c: CodePoint, j: nat, ghost next: seq<Byte>)
    requires i < |s| && Ahead(s, i, room, ahead)
    ensures c == Point(s[i..]) && j == i + PointWidth(s[i..]) <= |s|
    ensures CodePointLength(c) >= room ==> ahead == next == []
    ensures CodePointLength(c) < room ==> ahead == Utf8(c) + next && Ahead(s, j, room - CodePointLength(c), next)
  {
    if s[i] & 0xFC00 == 0xD800 && i + 1 < |s| && s[i + 1] & 0xFC00 == 0xDC00 {
      c, j := FromPair(s[i], s[i + 1]), i + 2;
    } else {
      c, j := s[i] as bv32, i + 1;
    }
    assert s[i..][PointWidth(s[i..])..] == s[j..];
    next := if CodePointLength(c) < room then Fitted(s[j..], room - 1 - CodePointLength(c)) else [];
  }

  method StrncpyStr16ToStr8(s: seq<Unit>, dst: array<Byte>, str8Len: nat)
    requires 0 < str8Len <= dst.Length
    modifies dst
    ensures var e := Fitted(s, str8Len - 1); dst[..] == e + [0] + old(dst[|e| + 1..])
  {
    hide Utf8, Point, PointWidth, Fitted, Ahead, Filling;
    var i: nat, cur: nat, room := 0, 0, str8Len;
    ghost var e, was := Fitted(s, str8Len - 1), dst[..];
    ghost var ahead := e;
    AheadBegins(s, room);
    FillingBegins(dst, e);
    while i < |s|
      invariant cur + room == str8Len && room > 0 && i <= |s|
      invariant Ahead(s, i, room, ahead) && Filling(dst, cur, ahead, e, was)
      decreases |s| - i
    {
      var len, stop;
      i, len, stop, ahead := CopyPoint(s, i, dst, cur, room, ahead, e, was);
      if stop {
        break;
      }
      cur, room := cur + len, room - len;
    }
    if ahead != [] {
      AheadEnds(s, i, room, ahead);
    }
    Terminate(dst, cur, 0, ahead, e, was);
  }

  lemma AheadBegins(s: seq<Unit>, room: nat)
    requires room > 0
    ensures Ahead(s, 0, room, Fitted(s, room - 1))
  {
    assert s[0..] == s;
  }

  lemma AheadEnds(s: seq<Unit>, i: nat, room: nat, ahead: seq<Byte>)
    requires Ahead(s, i, room, ahead) && i == |s|
    ensures ahead == [] && room > 0
  {
  }

  /** One round of that loop: the next code point goes to cur unless it and the closing zero need more than room. */
  method CopyPoint(s: seq<Unit>, i: nat, dst: array<Byte>, cur: nat, room: nat,
                   ghost ahead: seq<Byte>, ghost e: seq<Byte>, ghost was: seq<Byte>)
    returns (j: nat, len: nat, stop: bool, ghost next: seq<Byte>)
    requires i < |s| && cur + room <= dst.Length
    requires Ahead(s, i, room, ahead) && Filling(dst, cur, ahead, e, was)
    modifies dst
    ensures i < j <= |s|
    ensures stop ==> ahead == next == [] && Filling(dst, cur, next, e, was)
    ensures !stop ==> len < room && Ahead(s, j, room - len, next) && Filling(dst, cur + len, next, e, was)
  {
    var c;
    c, j, next := TakePoint(s, i, room, ahead);
    len := CodePointLength(c);
    stop := room <= len;
    if !stop {
      AppendPoint(dst, cur, c, len, ahead, next, e, was);
    }
  }

  method AppendPoint(dst: array<Byte>, cur: nat, c: CodePoint, len: nat,
                     ghost ahead: seq<Byte>, ghost next: seq<Byte>, ghost e: seq<Byte>, ghost was: seq<Byte>)
    requires len == CodePointLength(c) && cur + len <= dst.Length
    requires ahead == Utf8(c) + next && Filling(dst, cur, ahead, e, was)
    modifies dst
    ensures Filling(dst, cur + len, next, e, was)
  {
    ghost var done := dst[..cur];
    Regroup(e, done, Utf8(c), next);
    SliceLater(dst[..], was, cur, len);
    WriteCodePoint(dst, cur, c, len);
    assert dst[..cur + len] == done + Utf8(c);
  }

  method Terminate<T>(dst: array<T>, cur: nat, zero: T, ghost ahead: seq<T>, ghost e: seq<T>, ghost was: seq<T>)
    requires cur < dst.Length && ahead == [] && Filling(dst, cur, ahead, e, was)
    modifies dst
    ensures dst[..] == e + [zero] + was[cur + 1..] && cur == |e|
  {
    SliceLater(dst[..], was, cur, 1);
    dst[cur] := zero;
    assert dst[..cur] == e;
    assert dst[..] == dst[..cur] + [zero] + dst[cur + 1..];
  }

  lemma Regroup<T>(whole: seq<T>, done: seq<T>, next: seq<T>, tail: seq<T>)
    requires whole == done + (next + tail)
    ensures whole == (done + next) + tail
  {
  }

  lemma SliceLater<T>(a: seq<T>, b: seq<T>, i: nat, n: nat)
    requires |a| == |b| && i + n <= |a| && a[i..] == b[i..]
    ensures a[i + n..] == b[i + n..]
  {
    assert a[i + n..] == a[i..][n..] && b[i + n..] == b[i..][n..];
  }

  /** The two passes agree: with one byte more than the length pass counted, nothing is left out. */
  lemma {:induction false} EverythingFits(s: seq<Unit>, room: nat)
    requires |Utf8Of(s)| <= room
    ensures Fitted(s, room) == Utf8Of(s)
  {
    if s != [] {
      EverythingFits(s[PointWidth(s)..], room - |Utf8(Point(s))|);
    }
  }

  /** The UTF-8 form of the first n code points of s. */
  function Utf8First(s: seq<Unit>, n: nat): seq<Byte> {
    if n == 0 || s == [] then [] else Utf8(Point(s)) + Utf8First(s[PointWidth(s)..], n - 1)
  }

  /** A short buffer gets the longest form of a whole number of code points that it has room for. */
  lemma {:induction false} FittedIsLongest(s: seq<Unit>, room: nat, n: nat)
    ensures exists k: nat :: Fitted(s, room) == Utf8First(s, k)
    ensures |Utf8First(s, n)| <= room ==> Utf8First(s, n) <= Fitted(s, room)
  {
    if s == [] || |Utf8(Point(s))| > room {
      assert Fitted(s, room) == Utf8First(s, 0);
    } else {
      var t, left := s[PointWidth(s)..], room - |Utf8(Point(s))|;
      FittedIsLongest(t, left, if n == 0 then 0 else n - 1);
      var k: nat :| Fitted(t, left) == Utf8First(t, k);
      assert Fitted(s, room) == Utf8First(s, k + 1);
      if n != 0 && |Utf8First(s, n)| <= room {
        PrefixUnder(Utf8(Point(s)), Utf8First(t, n - 1), Fitted(t, left));
      }
    }
  }

  lemma PrefixUnder<T>(a: seq<T>, b: seq<T>, c: seq<T>)
    requires b <= c
    ensures a + b <= a + c
  {
    assert a + c == (a + b) + c[|b|..];
  }

  /** Char16ToChar8 of unicode_ex.cpp and String16ToString8; None when it answers false. */
  method String16ToString8(s: seq<Unit>) returns (ok: bool, r: seq<Byte>)
    ensures ok == (s != [] && |Utf8Of(s)| < INT_MAX)
    ensures ok ==> r == Cut(Utf8Of(s), 0)
    ensures !ok ==> r == []
  {
    if s == [] {
      return false, [];
    }
    var n := Utf16ToUtf8Length(s);
    if n < 0 || n >= INT_MAX {
      return false, [];
    }
    var buffer := new Byte[n + 1](_ => 0);
    StrncpyStr16ToStr8(s, buffer, n + 1);
    EverythingFits(s, n);
    assert buffer[..] == Utf8Of(s) + [0];
    CutAtTheEnd(Utf8Of(s), 0);
    r := CString(buffer, 0);
    return true, r;
  }

  lemma {:induction false} CutAtTheEnd<T>(s: seq<T>, zero: T)
    ensures Cut(s + [zero], zero) == Cut(s, zero)
  {
    if s != [] && s[0] != zero {
      assert (s + [zero])[1..] == s[1..] + [zero];
      CutAtTheEnd(s[1..], zero);
    }
  }

  /** Assignment of a string from a pointer to characters that a zero ends. */
  method CString<T(==)>(a: array<T>, zero: T) returns (r: seq<T>)
    requires zero in a[..]
    ensures r == Cut(a[..], zero)
  {
    var i := 0;
    while a[i] != zero
      invariant 0 <= i < a.Length && zero !in a[..i]
      invariant zero in a[i..]
      decreases a.Length - i
    {
      assert a[i..] == [a[i]] + a[i + 1..];
      i := i + 1;
    }
    r := a[..i];
    CutIs(a[..], i, zero);
  }

  lemma {:induction false} CutIs<T>(s: seq<T>, n: nat, zero: T)
    requires n < |s| && zero !in s[..n] && s[n] == zero
    ensures Cut(s, zero) == s[..n]
  {
    if n > 0 {
      assert s[1..][..n - 1] == s[1..n] && s[..n] == [s[0]] + s[1..n];
      CutIs(s[1..], n - 1, zero);
    }
  }

  /** Char16ToChar8 of string_ex.cpp: into the caller's buffer, saying how many bytes were used or why none were. */
  method Char16ToChar8(s: seq<Unit>, buffer: array?<Byte>, bufferLen: int) returns (r: int)
    requires buffer != null ==> bufferLen <= buffer.Length
    modifies if buffer == null then {} else {buffer}
    ensures r == if buffer == null || bufferLen <= 0 then -1 else if s == [] then -2
                 else if |Utf8Of(s)| >= INT_MAX || |Utf8Of(s)| + 1 > bufferLen then -3
                 else |Utf8Of(s)| + 1
    ensures r > 0 ==> r <= buffer.Length && buffer[..] == Utf8Of(s) + [0] + old(buffer[r..])
    ensures r < 0 && buffer != null ==> buffer[..] == old(buffer[..])
  {
    if buffer == null || bufferLen <= 0 {
      return -1;
    }
    if s == [] {
      return -2;
    }
    var n := Utf16ToUtf8Length(s);
    if n < 0 || n >= INT_MAX || n + 1 > bufferLen {
      return -3;
    }
    EverythingFits(s, n);
    StrncpyStr16ToStr8(s, buffer, n + 1);
    return n + 1;
  }

  // ---- the two passes, UTF-8 to UTF-16 -----------------------------------------------------------

  /** The next sequence of b, from i on, if b does not end inside it. */
  lemma SequenceStep(b: seq<Byte>, i: nat, signed: bool)
    requires i < |b|
    ensures var n := SequenceLength(b[i]);
      && (Complete(b[i..]) <==> i + n <= |b| && Complete(b[i + n..]))
      && (Complete(b[i..]) ==>
            |Utf16Of(b[i..], signed)| ==
            (if Decoded(b[i..], n, signed) > 0xFFFF then 2 else 1) + |Utf16Of(b[i + n..], signed)|)
  {
    hide SequenceLength, Decoded;
    var n := SequenceLength(b[i]);
    if i + n <= |b| {
      assert b[i..][n..] == b[i + n..];
    }
  }

  lemma NoSequence(b: seq<Byte>, signed: bool)
    requires b == []
    ensures Complete(b) && Utf16Of(b, signed) == []
  {
  }

  /** The length pass: -1 for bytes that end inside a sequence. */
  method Utf8ToUtf16Length(b: seq<Byte>, signed: bool) returns (n: int)
    ensures n == if Complete(b) then |Utf16Of(b, signed)| else -1
  {
    hide Complete, Utf16Of, SequenceLength, Decoded;
    var i := 0;
    n := 0;
    assert b[0..] == b;
    while i < |b|
      invariant 0 <= i <= |b| && n >= 0
      invariant Complete(b) <==> Complete(b[i..])
      invariant Complete(b) ==> n + |Utf16Of(b[i..], signed)| == |Utf16Of(b, signed)|
    {
      SequenceStep(b, i, signed);
      n := n + 1;
      var len := SequenceLength(b[i]);
      if i + len - 1 >= |b| {
        return -1;
      }
      var c := Decoded(b[i..], len, signed);
      if c > 0xFFFF {
        n := n + 1;
      }
      i := i + len;
    }
    NoSequence(b[i..], signed);
  }

  /** What fits in room units; a pair that would need one more is left out. */
  function Fitted16(b: seq<Byte>, room: nat, signed: bool): (u: seq<Unit>)
    requires Complete(b)
    ensures |u| <= room
  {
    if b == [] || room == 0 then []
    else
      var n := SequenceLength(b[0]);
      var u := Utf16(Decoded(b, n, signed));
      if |u| > room then [] else u + Fitted16(b[n..], room - |u|, signed)
  }

  // ---- the write pass reads what the length says it may, and the rest of the last sequence ----------------

  /** What is left of len bytes behind i of them. */
  function Left(len: nat, i: nat): nat { if i < len then len - i else 0 }

  /** The sequences that begin in the first len bytes of mem are all in mem, even if the last goes on behind them. */
  predicate InMemory(mem: seq<Byte>, len: nat) {
    len <= |mem|
    && (len == 0 ||
        var n := SequenceLength(mem[0]); n <= |mem| && InMemory(mem[n..], Left(len, n)))
  }

  /** Those sequences. */
  function Touched(mem: seq<Byte>, len: nat): (b: seq<Byte>)
    requires InMemory(mem, len)
    ensures b <= mem && |b| >= len && Complete(b) && (len == 0 ==> b == [])
  {
    if len == 0 then []
    else
      var n := SequenceLength(mem[0]);
      var rest := Touched(mem[n..], Left(len, n));
      assert mem[..n] + rest <= mem && (mem[..n] + rest)[n..] == rest;
      mem[..n] + rest
  }

  /** Bytes that the length pass accepts are read as they are, whatever is behind them. */
  lemma {:induction false} CompleteIsTouched(b: seq<Byte>, behind: seq<Byte>)
    requires Complete(b)
    ensures InMemory(b + behind, |b|) && Touched(b + behind, |b|) == b
  {
    hide SequenceLength, InMemory, Touched;
    if b == [] {
      NothingTouched(b + behind);
    } else {
      var n, mem := SequenceLength(b[0]), b + behind;
      CompleteIsTouched(b[n..], behind);
      assert mem[0] == b[0] && mem[n..] == b[n..] + behind;
      hide Complete;
      TouchedFirst(mem, |b|);
      assert mem[..n] == b[..n];
      assert b[..n] + b[n..] == b;
    }
  }

  lemma NothingTouched(mem: seq<Byte>)
    ensures InMemory(mem, 0) && Touched(mem, 0) == []
  {
  }

  lemma TouchedFirst(mem: seq<Byte>, len: nat)
    requires 0 < len <= |mem| && SequenceLength(mem[0]) <= |mem|
    requires InMemory(mem[SequenceLength(mem[0])..], Left(len, SequenceLength(mem[0])))
    ensures InMemory(mem, len)
    ensures var n := SequenceLength(mem[0]); Touched(mem, len) == mem[..n] + Touched(mem[n..], Left(len, n))
  {
    hide SequenceLength;
  }

  /** b is what is read of mem, and i the beginning of one of its sequences, or its end. */
  ghost predicate Reading(mem: seq<Byte>, len: nat, b: seq<Byte>, i: nat) {
    && b <= mem && i <= |b| && i <= |mem|
    && InMemory(mem[i..], Left(len, i)) && b[i..] == Touched(mem[i..], Left(len, i))
  }

  lemma ReadingStep(mem: seq<Byte>, len: nat, b: seq<Byte>, i: nat, signed: bool)
    requires Reading(mem, len, b, i) && i < len
    ensures i < |b| && mem[i] == b[i]
    ensures var n := SequenceLength(b[i]);
      i + n <= |b| && Reading(mem, len, b, i + n) && Decoded(mem[i..], n, signed) == Decoded(b[i..], n, signed)
  {
    hide SequenceLength, Decoded, InMemory, Touched;
    TouchedNext(mem[i..], Left(len, i));
    var n := SequenceLength(mem[i]);
    assert mem[i..][n..] == mem[i + n..] && b[i..][n..] == b[i + n..];
    assert b[i..][..n] == mem[i..][..n];
    assert b[i] == mem[i];
    SameDecoded(b[i..], mem[i..], n, signed);
  }

  lemma TouchedNext(mem: seq<Byte>, len: nat)
    requires InMemory(mem, len) && len > 0
    ensures var n := SequenceLength(mem[0]);
      && n <= |mem| && InMemory(mem[n..], Left(len, n))
      && Touched(mem, len) == mem[..n] + Touched(mem[n..], Left(len, n))
  {
    hide SequenceLength;
  }

  lemma SameDecoded(a: seq<Byte>, b: seq<Byte>, n: nat, signed: bool)
    requires 1 <= n <= 4 && n <= |a| && a <= b
    ensures Decoded(a, n, signed) == Decoded(b, n, signed)
  {
    hide Decoded, Utf8Char;
    Utf8CharPrefix(a[..n], a, signed);
    Utf8CharPrefix(a[..n], b, signed);
  }

  /** The units of b from i on are within dst, either because the room is or because there are no more of them. */
  ghost predicate Holds(length: nat, cur: nat, end: nat, b: seq<Byte>, i: nat, signed: bool) {
    i <= |b| && Complete(b[i..]) && (end <= length || cur + |Utf16Of(b[i..], signed)| <= length)
  }

  lemma HoldsStep(length: nat, cur: nat, end: nat, b: seq<Byte>, i: nat, signed: bool)
    requires Holds(length, cur, end, b, i, signed) && i < |b| && cur < end
    ensures var n := SequenceLength(b[i]);
      && i + n <= |b| && b[i..][n..] == b[i + n..]
      && var c := Decoded(b[i..], n, signed);
         && (end <= length || cur + |Utf16(c)| <= length)
         && Holds(length, cur + |Utf16(c)|, end, b, i + n, signed)
  {
    assert b[i..][SequenceLength(b[i])..] == b[i + SequenceLength(b[i])..];
  }

  /** c at cur: where it ends, or that its second half is beyond end and only the first half was stored. */
  method PutUnits(dst: array<Unit>, cur: nat, end: nat, c: CodePoint) returns (next: nat, full: bool)
    requires cur < end && (end <= dst.Length || cur + |Utf16(c)| <= dst.Length)
    modifies dst
    ensures full == (cur + |Utf16(c)| > end) && next == cur + if full then 1 else |Utf16(c)|
    ensures !full ==> dst[cur..next] == Utf16(c)
    ensures dst[..cur] == old(dst[..cur]) && dst[next..] == old(dst[next..])
  {
    if c <= 0xFFFF {
      dst[cur] := c as Unit;
      return cur + 1, false;
    }
    dst[cur] := HighOf(c);
    if cur + 1 >= end {
      return cur + 1, true;
    }
    dst[cur + 1] := LowOf(c);
    return cur + 2, false;
  }

  method AppendUnits(dst: array<Unit>, cur: nat, end: nat, c: CodePoint,
                     ghost ahead: seq<Unit>, ghost next: seq<Unit>, ghost u: seq<Unit>, ghost was: seq<Unit>)
    returns (after: nat, full: bool)
    requires cur < end && Filling(dst, cur, ahead, u, was)
    requires end <= dst.Length || cur + |Utf16(c)| <= dst.Length
    requires cur + |Utf16(c)| <= end ==> ahead == Utf16(c) + next
    modifies dst
    ensures full == (cur + |Utf16(c)| > end) && after == cur + if full then 1 else |Utf16(c)|
    ensures !full ==> Filling(dst, after, next, u, was)
    ensures full ==> dst[..cur] == old(dst[..cur]) && dst[after..] == was[after..]
  {
    ghost var done, width := dst[..cur], |Utf16(c)|;
    SliceLater(dst[..], was, cur, if cur + width > end then 1 else width);
    after, full := PutUnits(dst, cur, end, c);
    if !full {
      Regroup(u, done, Utf16(c), next);
      assert dst[..after] == done + Utf16(c);
    }
  }

  /** ahead is what still fits: the bytes from i on, in room units. */
  ghost predicate Ahead16(b: seq<Byte>, i: nat, room: nat, signed: bool, ahead: seq<Unit>) {
    i <= |b| && Complete(b[i..]) && ahead == Fitted16(b[i..], room, signed)
  }

  /** The next code point from i on, and the bytes it takes. */
  method TakeSequence(mem: seq<Byte>, i: nat, signed: bool, ghost b: seq<Byte>, ghost len: nat,
                      ghost room: nat, ghost ahead: seq<Unit>)
    returns (c: CodePoint, n: nat, ghost next: seq<Unit>)
    requires Reading(mem, len, b, i) && i < len && room > 0 && Ahead16(b, i, room, signed, ahead)
    ensures n == SequenceLength(b[i]) && i + n <= |b| && c == Decoded(b[i..], n, signed)
    ensures Reading(mem, len, b, i + n)
    ensures |Utf16(c)| > room ==> ahead == []
    ensures |Utf16(c)| <= room ==> ahead == Utf16(c) + next && Ahead16(b, i + n, room - |Utf16(c)|, signed, next)
  {
    ReadingStep(mem, len, b, i, signed);
    n := SequenceLength(mem[i]);
    c := Decoded(mem[i..], n, signed);
    hide Reading, Decoded, SequenceLength, InMemory, Touched;
    assert b[i..][n..] == b[i + n..];
    next := if |Utf16(c)| <= room then Fitted16(b[i + n..], room - |Utf16(c)|, signed) else [];
  }

  /**
    * The write pass over the first len bytes of mem: how many units were kept; the one after them may be half a pair.
    * If the last sequence is cut off by len, it is read on from what is behind.
    */
  method Utf8ToUtf16(mem: seq<Byte>, len: nat, dst: array<Unit>, room: nat, signed: bool) returns (kept: nat)
    requires InMemory(mem, len) && Holds(dst.Length, 0, room, Touched(mem, len), 0, signed)
    modifies dst
    ensures kept <= room && kept <= dst.Length && dst[..kept] == Fitted16(Touched(mem, len), room, signed)
    ensures kept < dst.Length ==> dst[kept + 1..] == old(dst[kept + 1..])
  {
    if room == 0 {
      return 0;
    }
    hide InMemory, Touched, Holds, Fitted16;
    kept := CopySequences(mem, len, dst, room, signed, Fitted16(Touched(mem, len), room, signed));
  }

  /** The loop of the write pass. */
  method CopySequences(mem: seq<Byte>, len: nat, dst: array<Unit>, room: nat, signed: bool, ghost u: seq<Unit>)
    returns (kept: nat)
    requires InMemory(mem, len) && Holds(dst.Length, 0, room, Touched(mem, len), 0, signed)
    requires u == Fitted16(Touched(mem, len), room, signed)
    modifies dst
    ensures kept <= room && Ended(dst, kept, u, old(dst[..]))
  {
    hide InMemory, Touched, Holds, Reading, Ahead16, Fitted16, Filling, Ended;
    var i: nat, cur: nat := 0, 0;
    ghost var b := Touched(mem, len);
    ghost var ahead, was := u, dst[..];
    ReadingBegins(mem, len, room, signed);
    FillingBegins(dst, u);
    while i < len && cur < room
      invariant cur <= room && Reading(mem, len, b, i) && Holds(dst.Length, cur, room, b, i, signed)
      invariant Ahead16(b, i, room - cur, signed, ahead) && Filling(dst, cur, ahead, u, was)
      decreases Left(len, i)
    {
      var n, after, full;
      n, after, full, ahead := CopySequence(mem, i, dst, cur, room, signed, b, len, ahead, u, was);
      if full {
        return cur;
      }
      i, cur := i + n, after;
    }
    ReadingEnds(mem, len, b, i, room - cur, signed, ahead);
    FillingEnds(dst, cur, u, was);
    return cur;
  }

  lemma ReadingBegins(mem: seq<Byte>, len: nat, room: nat, signed: bool)
    requires InMemory(mem, len)
    ensures var b := Touched(mem, len);
      Reading(mem, len, b, 0) && Ahead16(b, 0, room, signed, Fitted16(b, room, signed))
  {
    assert mem[0..] == mem && Touched(mem, len)[0..] == Touched(mem, len);
  }

  lemma ReadingEnds(mem: seq<Byte>, len: nat, b: seq<Byte>, i: nat, room: nat, signed: bool, ahead: seq<Unit>)
    requires Reading(mem, len, b, i) && Ahead16(b, i, room, signed, ahead) && (i >= len || room == 0)
    ensures ahead == []
  {
  }

  /** One round of that loop. */
  method CopySequence(mem: seq<Byte>, i: nat, dst: array<Unit>, cur: nat, end: nat, signed: bool,
                      ghost b: seq<Byte>, ghost len: nat, ghost ahead: seq<Unit>, ghost u: seq<Unit>,
                      ghost was: seq<Unit>)
    returns (n: nat, after: nat, full: bool, ghost next: seq<Unit>)
    requires Reading(mem, len, b, i) && i < len && cur < end && Holds(dst.Length, cur, end, b, i, signed)
    requires Ahead16(b, i, end - cur, signed, ahead) && Filling(dst, cur, ahead, u, was)
    modifies dst
    ensures 0 < n
    ensures full ==> Ended(dst, cur, u, was)
    ensures !full ==> after <= end && Reading(mem, len, b, i + n) && Holds(dst.Length, after, end, b, i + n, signed)
    ensures !full ==> Ahead16(b, i + n, end - after, signed, next) && Filling(dst, after, next, u, was)
  {
    hide Reading, Decoded, SequenceLength, Holds;
    var c;
    ReadingIn(mem, len, b, i);
    HoldsStep(dst.Length, cur, end, b, i, signed);
    c, n, next := TakeSequence(mem, i, signed, b, len, end - cur, ahead);
    after, full := AppendUnits(dst, cur, end, c, ahead, next, u, was);
  }

  lemma ReadingIn(mem: seq<Byte>, len: nat, b: seq<Byte>, i: nat)
    requires Reading(mem, len, b, i) && i < len
    ensures i < |b|
  {
  }

  const SIZE_MAX: nat := 0xFFFF_FFFF_FFFF_FFFF

  /** One unit less than the buffer has; for no units at all that wraps, and nothing is left out. */
  function RoomFor(u16Len: nat): nat { if u16Len == 0 then SIZE_MAX else u16Len - 1 }

  method StrncpyStr8ToStr16(mem: seq<Byte>, len: nat, dst: array<Unit>, u16Len: nat, signed: bool)
    requires InMemory(mem, len)
    requires if 0 < u16Len <= dst.Length then true else |Utf16Of(Touched(mem, len), signed)| < dst.Length
    modifies dst
    ensures var u := Fitted16(Touched(mem, len), RoomFor(u16Len), signed);
      |u| < dst.Length && dst[..] == u + [0] + old(dst[|u| + 1..])
  {
    hide InMemory, Touched, Complete, Utf16Of, Fitted16;
    ghost var b := Touched(mem, len);
    assert b[0..] == b;
    FittedLength(b, RoomFor(u16Len), signed);
    var kept := Utf8ToUtf16(mem, len, dst, RoomFor(u16Len), signed);
    dst[kept] := 0;
  }

  lemma {:induction false} FittedLength(b: seq<Byte>, room: nat, signed: bool)
    requires Complete(b)
    ensures |Fitted16(b, room, signed)| <= |Utf16Of(b, signed)|
  {
    if b != [] && room > 0 {
      var n := SequenceLength(b[0]);
      var u := Utf16(Decoded(b, n, signed));
      if |u| <= room {
        FittedLength(b[n..], room - |u|, signed);
      }
    }
  }

  /** The two passes agree on any bytes that the length pass accepts, well formed or not. */
  lemma {:induction false} EverythingFits16(b: seq<Byte>, room: nat, signed: bool)
    requires Complete(b) && |Utf16Of(b, signed)| <= room
    ensures Fitted16(b, room, signed) == Utf16Of(b, signed)
  {
    if b != [] {
      var n := SequenceLength(b[0]);
      EverythingFits16(b[n..], room - |Utf16(Decoded(b, n, signed))|, signed);
    }
  }

  method String8ToString16(b: seq<Byte>, signed: bool) returns (ok: bool, r: seq<Unit>)
    ensures ok == (b != [] && Complete(b) && |Utf16Of(b, signed)| < INT_MAX)
    ensures ok ==> r == Cut(Utf16Of(b, signed), 0)
    ensures !ok ==> r == []
  {
    if b == [] {
      return false, [];
    }
    var n := Utf8ToUtf16Length(b, signed);
    if n < 0 || n >= INT_MAX {
      return false, [];
    }
    var buffer := new Unit[n + 1](_ => 0);
    CompleteIsTouched(b, []);
    assert b + [] == b;
    StrncpyStr8ToStr16(b, |b|, buffer, n + 1, signed);
    EverythingFits16(b, n, signed);
    assert buffer[..] == Utf16Of(b, signed) + [0];
    CutAtTheEnd(Utf16Of(b, signed), 0);
    r := CString(buffer, 0);
    return true, r;
  }

  // ---- the round trips ------------------------------------------------------------------------------

  /** Str16ToStr8 and Str8ToStr16: the empty string for an input that cannot be converted. */
  function Str16ToStr8(s: seq<Unit>): seq<Byte> {
    if |Utf8Of(s)| < INT_MAX then Cut(Utf8Of(s), 0) else []
  }

  function Str8ToStr16(b: seq<Byte>, signed: bool): seq<Unit> {
    if Complete(b) && |Utf16Of(b, signed)| < INT_MAX then Cut(Utf16Of(b, signed), 0) else []
  }

  method Str16ToStr8Call(s: seq<Unit>) returns (r: seq<Byte>)
    ensures r == Str16ToStr8(s)
  {
    var ok, value := String16ToString8(s);
    return if ok then value else [];
  }

  method Str8ToStr16Call(b: seq<Byte>, signed: bool) returns (r: seq<Unit>)
    ensures r == Str8ToStr16(b, signed)
  {
    var ok, value := String8ToString16(b, signed);
    return if ok then value else [];
  }

  /** The first code point of s is a scalar value unless it is a surrogate without its partner. */
  lemma PointIsScalar(s: seq<Unit>)
    requires s != []
    ensures StartsWithPair(s) ==> IsScalar(Point(s)) && Utf16(Point(s)) == s[..2]
    ensures !StartsWithPair(s) ==>
      if IsHigh(s[0]) || IsLow(s[0]) then Utf8(Point(s)) == [] else IsScalar(Point(s)) && Utf16(Point(s)) == [s[0]]
  {
    if StartsWithPair(s) {
      PairLength(s[0], s[1]);
    } else {
      LoneUnit(s[0]);
    }
  }

  lemma LoneUnit(u: Unit)
    ensures var c := u as bv32;
      && c <= 0xFFFF && c as Unit == u
      && if IsHigh(u) || IsLow(u) then CodePointLength(c) == 0 else IsScalar(c)
  {
  }

  /** Reading back what was written gives everything but the unpaired surrogates, from well-formed UTF-8. */
  lemma {:induction false} ReadsBack(s: seq<Unit>, signed: bool)
    ensures WellFormed(Utf8Of(s)) && Complete(Utf8Of(s)) && Utf16Of(Utf8Of(s), signed) == Scrub(s)
  {
    if s != [] {
      hide WellFormed, Complete, Utf16Of, Utf8Char, SequenceLength, Decoded;
      var c, t, b := Point(s), s[PointWidth(s)..], Utf8Of(s);
      ReadsBack(t, signed);
      PointIsScalar(s);
      if !StartsWithPair(s) && (IsHigh(s[0]) || IsLow(s[0])) {
        assert b == Utf8Of(t);
      } else {
        assert b == Utf8(c) + Utf8Of(t);
        EncodingIsUtf8Char(c, b, signed);
        ReadStep(c, |Utf8(c)|, b, t, signed);
      }
    }
  }

  lemma ReadStep(c: CodePoint, n: nat, b: seq<Byte>, t: seq<Unit>, signed: bool)
    requires 0 < n <= |b| && b[n..] == Utf8Of(t)
    requires Utf8Char(b) == SequenceLength(b[0]) == n && Decoded(b, n, signed) == c
    requires WellFormed(Utf8Of(t)) && Complete(Utf8Of(t))
    ensures WellFormed(b) && Complete(b) && Utf16Of(b, signed) == Utf16(c) + Utf16Of(Utf8Of(t), signed)
  {
    hide Utf8Char, SequenceLength, Decoded, Utf16, Utf8Of;
  }

  /** The code point written first is the code point read first, whatever follows. */
  lemma Utf16Point(c: CodePoint, rest: seq<Unit>)
    requires IsScalar(c)
    ensures var u := Utf16(c) + rest; Point(u) == c && PointWidth(u) == |Utf16(c)| && u[|Utf16(c)|..] == rest
  {
    if c <= 0xFFFF {
      NotHigh(c);
    } else {
      IsPair(c);
    }
  }

  lemma NotHigh(c: CodePoint)
    requires c <= 0xFFFF && IsScalar(c)
    ensures !IsHigh(c as Unit) && (c as Unit) as bv32 == c
  {
  }

  lemma IsPair(c: CodePoint)
    requires 0xFFFF < c <= 0x10FFFF
    ensures IsHigh(HighOf(c)) && IsLow(LowOf(c)) && FromPair(HighOf(c), LowOf(c)) == c
  {
  }

  /** Writing what was read from one UTF8-char gives that UTF8-char. */
  lemma WritesOneAgain(b: seq<Byte>, rest: seq<Unit>, signed: bool)
    requires Utf8Char(b) > 0
    ensures var n := Utf8Char(b);
      && SequenceLength(b[0]) == n
      && var u := Utf16(Decoded(b, n, signed));
         Utf8Of(u + rest) == b[..n] + Utf8Of(rest) && |u| <= n
  {
    var c := Decoded(b, Utf8Char(b), signed);
    Utf8CharIsEncoding(b, signed);
    Utf16Point(c, rest);
  }

  /** Well-formed UTF-8 is accepted, comes back byte for byte, and takes no more units than bytes. */
  lemma {:induction false} WritesAgain(b: seq<Byte>, signed: bool)
    requires WellFormed(b)
    ensures Complete(b) && Utf8Of(Utf16Of(b, signed)) == b && |Utf16Of(b, signed)| <= |b|
  {
    if b != [] {
      var n := Utf8Char(b);
      WritesAgain(b[n..], signed);
      WritesOneAgain(b, Utf16Of(b[n..], signed), signed);
      Joined(b, n, Utf8Of(Utf16Of(b, signed)), Utf8Of(Utf16Of(b[n..], signed)));
    }
  }

  lemma Joined<T>(b: seq<T>, n: nat, whole: seq<T>, rest: seq<T>)
    requires n <= |b| && whole == b[..n] + rest && rest == b[n..]
    ensures whole == b
  {
  }

  lemma {:induction false} CutAfter<T>(a: seq<T>, b: seq<T>, zero: T)
    requires zero !in a
    ensures Cut(a + b, zero) == a + Cut(b, zero)
  {
    if a == [] {
      assert a + b == b;
    } else {
      assert (a + b)[1..] == a[1..] + b;
      CutAfter(a[1..], b, zero);
    }
  }

  lemma CutNothing<T>(s: seq<T>, zero: T)
    requires zero !in s
    ensures Cut(s, zero) == s
  {
    CutAfter(s, [], zero);
    assert s + [] == s;
  }

  /** Only U+0000 has a zero byte in its form. */
  lemma NoZeroByte(c: CodePoint)
    ensures c != 0 ==> 0 !in Utf8(c)
    ensures c == 0 ==> Utf8(c) == [0]
  {
    NoZeroTrail(c);
    NoZeroTrail(c >> 6);
    NoZeroTrail(c >> 12);
    NoZeroLead(c);
  }

  lemma NoZeroTrail(c: CodePoint)
    ensures TrailByte(c) != 0
  {
  }

  lemma NoZeroLead(c: CodePoint)
    ensures c < 0x80 ==> (LeadByte(c, 1) == 0 <==> c == 0)
    ensures c < 0x800 ==> LeadByte(c >> 6, 2) != 0
    ensures c < 0x10000 ==> LeadByte(c >> 12, 3) != 0
    ensures c <= 0x10FFFF ==> LeadByte(c >> 18, 4) != 0
  {
  }

  lemma NotZero(s: seq<Unit>)
    requires s != []
    ensures Point(s) == 0 <==> s[0] == 0
    ensures s[0] == 0 ==> PointWidth(s) == 1
    ensures StartsWithPair(s) ==> s[0] != 0 && s[1] != 0
  {
    if StartsWithPair(s) {
      PairLength(s[0], s[1]);
    }
  }

  /** Cutting at the first zero commutes with writing. */
  lemma {:induction false} CutCommutes(s: seq<Unit>)
    ensures Cut(Utf8Of(s), 0) == Utf8Of(Cut(s, 0))
  {
    if s != [] {
      var t, e := s[PointWidth(s)..], Utf8(Point(s));
      NotZero(s);
      NoZeroByte(Point(s));
      if s[0] == 0 {
        assert Utf8Of(s)[0] == 0;
      } else {
        CutCommutes(t);
        CutAfter(e, Utf8Of(t), 0);
        CutAfter(s[..PointWidth(s)], t, 0);
        assert s == s[..PointWidth(s)] + t;
        PointOfCut(s, Cut(t, 0));
      }
    }
  }

  /** A cut further on does not change the first code point. */
  lemma PointOfCut(s: seq<Unit>, rest: seq<Unit>)
    requires s != [] && rest <= s[PointWidth(s)..]
    ensures var r := s[..PointWidth(s)] + rest;
      r != [] && PointWidth(r) == PointWidth(s) && Point(r) == Point(s) && r[PointWidth(r)..] == rest
  {
    var r := s[..PointWidth(s)] + rest;
    assert |r| >= 2 ==> |s| >= 2 && r[1] == s[1];
    assert r[PointWidth(s)..] == rest;
  }

  lemma {:induction false} ScrubKeepsOut(s: seq<Unit>, u: Unit)
    requires u !in s
    ensures u !in Scrub(s)
  {
    if s != [] {
      ScrubKeepsOut(s[PointWidth(s)..], u);
    }
  }

  /** No surrogate without its partner: section 2.2 of RFC 2781. */
  predicate WellFormed16(s: seq<Unit>) {
    s == [] ||
    (if StartsWithPair(s) then WellFormed16(s[2..])
     else !IsHigh(s[0]) && !IsLow(s[0]) && WellFormed16(s[1..]))
  }

  lemma {:induction false} ScrubIsIdentity(s: seq<Unit>)
    ensures WellFormed16(s) <==> Scrub(s) == s
    ensures |Scrub(s)| <= |s|
  {
    if s != [] {
      var t := s[PointWidth(s)..];
      ScrubIsIdentity(t);
      assert s == s[..PointWidth(s)] + t;
      if StartsWithPair(s) || !(IsHigh(s[0]) || IsLow(s[0])) {
        assert Scrub(s)[PointWidth(s)..] == Scrub(t);
      }
    }
  }

  /** Str16ToStr8 always produces well-formed UTF-8: the form of the input up to its first U+0000. */
  lemma OutputIsWellFormed(s: seq<Unit>)
    ensures WellFormed(Str16ToStr8(s))
    ensures |Utf8Of(s)| < INT_MAX ==> Str16ToStr8(s) == Utf8Of(Cut(s, 0))
  {
    CutCommutes(s);
    ReadsBack(Cut(s, 0), false);
  }

  /** There and back from UTF-16: the input up to its first U+0000, less its unpaired surrogates. */
  lemma RoundTrip16(s: seq<Unit>, signed: bool)
    requires |Utf8Of(s)| < INT_MAX
    ensures Str8ToStr16(Str16ToStr8(s), signed) == Scrub(Cut(s, 0))
  {
    var cut := Cut(s, 0);
    OutputIsWellFormed(s);
    ReadsBack(cut, signed);
    WritesAgain(Utf8Of(cut), signed);
    ScrubKeepsOut(cut, 0);
    CutNothing(Scrub(cut), 0);
  }

  /** Hence the identity exactly on well-formed strings without U+0000. */
  lemma RoundTrip16IsIdentity(s: seq<Unit>, signed: bool)
    requires |Utf8Of(s)| < INT_MAX
    ensures Str8ToStr16(Str16ToStr8(s), signed) == s <==> WellFormed16(s) && 0 !in s
  {
    RoundTrip16(s, signed);
    ScrubIsIdentity(s);
    ScrubIsIdentity(Cut(s, 0));
    if 0 !in s {
      CutNothing(s, 0);
    }
  }

  /** There and back from well-formed UTF-8 without U+0000: every byte. */
  lemma RoundTrip8(b: seq<Byte>, signed: bool)
    requires WellFormed(b) && 0 !in b && |b| < INT_MAX
    ensures Str16ToStr8(Str8ToStr16(b, signed)) == b
  {
    WritesAgain(b, signed);
    CutCommutes(Utf16Of(b, signed));
    CutNothing(b, 0);
  }

  /** And from no other bytes. */
  lemma RoundTrip8IsIdentity(b: seq<Byte>, signed: bool)
    requires |b| < INT_MAX
    ensures Str16ToStr8(Str8ToStr16(b, signed)) == b <==> WellFormed(b) && 0 !in b
  {
    if WellFormed(b) && 0 !in b {
      RoundTrip8(b, signed);
    } else {
      OutputIsWellFormed(Str8ToStr16(b, signed));
    }
  }

  /** Well-formed UTF-8 reads as well-formed UTF-16. */
  lemma ReadsWellFormed(b: seq<Byte>, signed: bool)
    requires WellFormed(b)
    ensures Complete(b) && WellFormed16(Utf16Of(b, signed))
  {
    WritesAgain(b, signed);
    ReadsBack(Utf16Of(b, signed), signed);
    ScrubIsIdentity(Utf16Of(b, signed));
  }
}
