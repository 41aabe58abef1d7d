/** One code point at a time: the bit-level halves of unicode_ex.cpp against RFC 3629 and RFC 2781. */
module Utf8Codec {
  type Byte = bv8
  type Unit = bv16
  type CodePoint = bv32

  // ---- writing a code point --------------------------------------------------------------

  /** Utf32CodePointUtf8Length. */
  function CodePointLength(c: CodePoint): (n: nat)
    ensures n <= 4
  {
    if c < 0x80 then 1
    else if c < 0x800 then 2
    else if c < 0x10000 then if c < 0xD800 || c > 0xDFFF then 3 else 0
    else if c <= 0x10FFFF then 4
    else 0
  }

  /** A Unicode scalar value: what UTF-8 can carry. */
  predicate IsScalar(c: CodePoint) { c <= 0x10FFFF && !(0xD800 <= c <= 0xDFFF) }

  function LowByte(x: bv32): Byte { (x & 0xFF) as Byte }

  function TrailByte(x: bv32): Byte { LowByte((x | 0x80) & 0xBF) }

  /** x with the mark of a first byte in a sequence of n. */
  function LeadByte(x: bv32, n: nat): Byte {
    LowByte(x | FirstByteMark(n))
  }

  /** UTF8_FIRST_BYTE_MARK. */
  function FirstByteMark(n: nat): bv32 {
    if n == 2 then 0xC0 else if n == 3 then 0xE0 else if n == 4 then 0xF0 else 0
  }

  /** The n bytes of c. */
  function Encoding(c: CodePoint, n: nat): (e: seq<Byte>)
    requires n <= 4
    ensures |e| == n
  {
    if n == 0 then []
    else if n == 1 then [LeadByte(c, 1)]
    else if n == 2 then [LeadByte(c >> 6, 2), TrailByte(c)]
    else if n == 3 then [LeadByte(c >> 12, 3), TrailByte(c >> 6), TrailByte(c)]
    else [LeadByte(c >> 18, 4), TrailByte(c >> 12), TrailByte(c >> 6), TrailByte(c)]
  }

  /** c in UTF-8; nothing for a surrogate. */
  function Utf8(c: CodePoint): seq<Byte> { Encoding(c, CodePointLength(c)) }

  /** Utf32CodePointToUtf8: from the last byte back to the first. */
  method WriteCodePoint(dst: array<Byte>, at: nat, c: CodePoint, bytes: nat)
    requires bytes <= 4 && at + bytes <= dst.Length
    modifies dst
    ensures dst[..at] == old(dst[..at]) && dst[at + bytes..] == old(dst[at + bytes..])
    ensures dst[at..at + bytes] == Encoding(c, bytes)
  {
    EncodingFromTheEnd(c, bytes);
    var src, p := c, at + bytes;
    if bytes >= 4 {
      p, src := PutTrail(dst, p, src, at, bytes, c);
    }
    if bytes >= 3 {
      p, src := PutTrail(dst, p, src, at, bytes, c);
    }
    if bytes >= 2 {
      p, src := PutTrail(dst, p, src, at, bytes, c);
    }
    if bytes >= 1 {
      PutLead(dst, p, src, at, bytes, c);
    }
  }

  /** The first k of the n bytes, taken from the last back to the first. */
  ghost function Leading(src: CodePoint, k: nat, n: nat): (e: seq<Byte>)
    ensures |e| == k
  {
    if k == 0 then []
    else if k == 1 then [LeadByte(src, n)]
    else Leading(src >> 6, k - 1, n) + [TrailByte(src)]
  }

  /** What is in place from p on, after what src still holds, is the form of c. */
  ghost predicate Writing(dst: array<Byte>, p: nat, src: CodePoint, at: nat, n: nat, c: CodePoint)
    requires at <= p <= at + n <= dst.Length
    reads dst
  {
    Leading(src, p - at, n) + dst[p..at + n] == Leading(c, n, n)
  }

  method PutTrail(dst: array<Byte>, p: nat, src: CodePoint, ghost at: nat, ghost n: nat, ghost c: CodePoint)
    returns (q: nat, rest: CodePoint)
    requires at + 1 < p <= at + n <= dst.Length && Writing(dst, p, src, at, n, c)
    modifies dst
    ensures q == p - 1 && Writing(dst, q, rest, at, n, c)
    ensures dst[..at] == old(dst[..at]) && dst[at + n..] == old(dst[at + n..])
  {
    q, rest := p - 1, src >> 6;
    ghost var after := dst[p..at + n];
    dst[q] := TrailByte(src);
    assert dst[q..at + n] == [TrailByte(src)] + after;
  }

  method PutLead(dst: array<Byte>, p: nat, src: CodePoint, ghost at: nat, n: nat, ghost c: CodePoint)
    requires at + 1 == p <= at + n <= dst.Length && Writing(dst, p, src, at, n, c)
    modifies dst
    ensures dst[at..at + n] == Leading(c, n, n)
    ensures dst[..at] == old(dst[..at]) && dst[at + n..] == old(dst[at + n..])
  {
    ghost var after := dst[p..at + n];
    dst[p - 1] := LeadByte(src, n);
    assert dst[at..at + n] == [LeadByte(src, n)] + after;
  }

  lemma EncodingFromTheEnd(c: CodePoint, n: nat)
    requires n <= 4
    ensures Encoding(c, n) == Leading(c, n, n)
  {
    ShiftTwice(c);
    match n
    case 0 | 1 =>
    case 2 => LeadingOnce(c, n, n);
    case 3 => LeadingOnce(c, n, n); LeadingOnce(c >> 6, 2, n);
    case 4 => LeadingOnce(c, n, n); LeadingOnce(c >> 6, 3, n); LeadingOnce((c >> 6) >> 6, 2, n);
  }

  lemma LeadingOnce(c: CodePoint, k: nat, n: nat)
    requires k >= 2
    ensures Leading(c, k, n) == Leading(c >> 6, k - 1, n) + [TrailByte(c)]
    ensures k == 2 ==> Leading(c, k, n) == [LeadByte(c >> 6, n), TrailByte(c)]
  {
  }

  lemma ShiftTwice(c: bv32)
    ensures (c >> 6) >> 6 == c >> 12 && ((c >> 6) >> 6) >> 6 == c >> 18
  {
  }

  // ---- reading a code point ----------------------------------------------------------------

  /** Utf8CodePointLen: a table of two-bit lengths packed into one word. */
  function SequenceLength(ch: Byte): (n: nat)
    ensures 1 <= n <= 4
  {
    var k: bv32 := ((ch >> 3) & 0x1e) as bv32;
    var t: bv32 := (0xe5000000 >> k) & 3;
    if t == 0 then 1 else if t == 1 then 2 else if t == 2 then 3 else 4
  }

  /** What the packed table says. */
  lemma SequenceLengthTable(ch: Byte)
    ensures SequenceLength(ch) == if ch < 0xC0 then 1 else if ch < 0xE0 then 2 else if ch < 0xF0 then 3 else 4
  {
  }

  function ShiftIn(x: bv32, b: Byte): bv32 { (x << 6) | (0x3F & (b as bv32)) }

  /** Utf8ToUtf32CodePoint on the first n bytes of b; a lone byte is read as a char, which may be signed. */
  function Decoded(b: seq<Byte>, n: nat, charIsSigned: bool): CodePoint
    requires 1 <= n <= 4 && n <= |b|
  {
    if n == 1 then
      if charIsSigned && b[0] >= 0x80 then 0xFFFF_FF00 | (b[0] as bv32) else b[0] as bv32
    else if n == 2 then ShiftIn((b[0] & 0x1f) as bv32, b[1])
    else if n == 3 then ShiftIn(ShiftIn((b[0] & 0x0f) as bv32, b[1]), b[2])
    else ShiftIn(ShiftIn(ShiftIn((b[0] & 0x07) as bv32, b[1]), b[2]), b[3])
  }

  // ---- section 4 of RFC 3629 ------------------------------------------------------------------

  predicate IsTail(b: Byte) { 0x80 <= b <= 0xBF }

  predicate TwoHead(x: Byte) { 0xC2 <= x <= 0xDF }

  predicate ThreeHead(x: Byte, y: Byte) {
    (x == 0xE0 && 0xA0 <= y <= 0xBF) || (0xE1 <= x <= 0xEC && IsTail(y)) ||
    (x == 0xED && 0x80 <= y <= 0x9F) || (0xEE <= x <= 0xEF && IsTail(y))
  }

  predicate FourHead(x: Byte, y: Byte) {
    (x == 0xF0 && 0x90 <= y <= 0xBF) || (0xF1 <= x <= 0xF3 && IsTail(y)) || (x == 0xF4 && 0x80 <= y <= 0x8F)
  }

  /** The length of the UTF8-char that b starts with, 0 if there is none. */
  function Utf8Char(b: seq<Byte>): (n: nat)
    ensures n <= 4 && n <= |b|
  {
    if |b| >= 1 && b[0] <= 0x7F then 1
    else if |b| >= 2 && TwoHead(b[0]) && IsTail(b[1]) then 2
    else if |b| >= 3 && ThreeHead(b[0], b[1]) && IsTail(b[2]) then 3
    else if |b| >= 4 && FourHead(b[0], b[1]) && IsTail(b[2]) && IsTail(b[3]) then 4
    else 0
  }

  /** The code writes what RFC 3629 allows, and reads back what it wrote. */
  lemma EncodingIsUtf8Char(c: CodePoint, b: seq<Byte>, signed: bool)
    requires IsScalar(c) && Utf8(c) <= b
    ensures Utf8Char(b) == SequenceLength(b[0]) == CodePointLength(c) == |Utf8(c)| > 0
    ensures Decoded(b, |Utf8(c)|, signed) == c
  {
    SequenceLengthTable(b[0]);
    Utf8CharPrefix(Utf8(c), b, signed);
    if c < 0x80 {
      OneByte(c, signed);
    } else if c < 0x800 {
      TwoBytes(c, signed);
    } else if c < 0x10000 {
      ThreeBytes(c, signed);
    } else {
      FourBytes(c, signed);
    }
  }

  /** Only the bytes of the first UTF8-char matter. */
  lemma Utf8CharPrefix(e: seq<Byte>, b: seq<Byte>, signed: bool)
    requires e <= b && 0 < |e| <= 4
    ensures Utf8Char(e) > 0 ==> Utf8Char(b) == Utf8Char(e)
    ensures Decoded(b, |e|, signed) == Decoded(e, |e|, signed) && b[0] == e[0]
  {
    assert forall k :: 0 <= k < |e| ==> b[k] == e[k];
  }

  /** The payload of a byte: what it carries above the mark of its place. */
  function Payload(b: Byte, mark: Byte): bv32
    requires b >= mark
  {
    (b - mark) as bv32
  }

  lemma ShiftInAdds(x: bv32, b: Byte)
    requires IsTail(b) && x < 0x8000
    ensures ShiftIn(x, b) == x * 0x40 + Payload(b, 0x80) && Payload(b, 0x80) < 0x40
  {
  }

  lemma HeadPayload(x: Byte, y: Byte)
    ensures TwoHead(x) ==> (x & 0x1f) as bv32 == Payload(x, 0xC0) < 0x20
    ensures ThreeHead(x, y) ==> x >= 0xE0 && (x & 0x0f) as bv32 == Payload(x, 0xE0) < 0x10 && IsTail(y)
    ensures FourHead(x, y) ==> x >= 0xF0 && (x & 0x07) as bv32 == Payload(x, 0xF0) < 0x08 && IsTail(y)
  {
  }

  /** What a UTF8-char stands for: its payloads are the digits, six bits each behind the first. */
  lemma DecodedIsNumber(b: seq<Byte>, signed: bool)
    requires Utf8Char(b) > 0
    ensures var n := Utf8Char(b);
      Decoded(b, n, signed) ==
        if n == 1 then b[0] as bv32
        else if n == 2 then Payload(b[0], 0xC0) * 0x40 + Payload(b[1], 0x80)
        else if n == 3 then (Payload(b[0], 0xE0) * 0x40 + Payload(b[1], 0x80)) * 0x40 + Payload(b[2], 0x80)
        else ((Payload(b[0], 0xF0) * 0x40 + Payload(b[1], 0x80)) * 0x40 + Payload(b[2], 0x80)) * 0x40
             + Payload(b[3], 0x80)
  {
    hide Payload, ShiftIn, TwoHead, ThreeHead, FourHead;
    var n := Utf8Char(b);
    if n > 1 {
      HeadPayload(b[0], b[1]);
      var head := if n == 2 then (b[0] & 0x1f) as bv32 else if n == 3 then (b[0] & 0x0f) as bv32
                  else (b[0] & 0x07) as bv32;
      assert head < 0x20;
      ShiftInAdds(head, b[1]);
      Grows(head, Payload(b[1], 0x80));
      if n > 2 {
        ShiftInAdds(ShiftIn(head, b[1]), b[2]);
        Grows(ShiftIn(head, b[1]), Payload(b[2], 0x80));
        if n > 3 {
          assert head < 0x08;
          ShiftInAdds(ShiftIn(ShiftIn(head, b[1]), b[2]), b[3]);
        }
      }
    }
  }

  lemma Grows(x: bv32, p: bv32)
    requires p < 0x40
    ensures x < 0x20 ==> x * 0x40 + p < 0x800
    ensures x < 0x08 ==> x * 0x40 + p < 0x200
    ensures x < 0x200 ==> x * 0x40 + p < 0x8000
  {
  }

  lemma OneByte(c: CodePoint, signed: bool)
    requires c < 0x80
    ensures var e := Encoding(c, 1); Utf8Char(e) == 1 && e[0] < 0x80 && Decoded(e, 1, signed) == c
  {
  }

  lemma TwoBytes(c: CodePoint, signed: bool)
    requires 0x80 <= c < 0x800
    ensures var e := Encoding(c, 2); Utf8Char(e) == 2 && Decoded(e, 2, signed) == c
  {
  }

  lemma ThreeBytes(c: CodePoint, signed: bool)
    requires 0x800 <= c < 0x10000 && !(0xD800 <= c <= 0xDFFF)
    ensures var e := Encoding(c, 3); Utf8Char(e) == 3 && Decoded(e, 3, signed) == c
  {
    var x, y, z := ThreeBits(c);
    ThreeWritten(c, x, y, z);
    ThreeRead(x, y, z, Encoding(c, 3), signed);
  }

  lemma ThreeBits(c: CodePoint) returns (x: Byte, y: Byte, z: Byte)
    requires 0x800 <= c < 0x10000 && !(0xD800 <= c <= 0xDFFF)
    ensures LeadByte(c >> 12, 3) == x && TrailByte(c >> 6) == y && TrailByte(c) == z
    ensures ThreeHead(x, y) && IsTail(z) && ShiftIn(ShiftIn((x & 0x0f) as bv32, y), z) == c
  {
    x, y, z := LeadByte(c >> 12, 3), TrailByte(c >> 6), TrailByte(c);
    ShiftTwice(c);
    ShiftSmaller(c);
    ShiftBack(c);
    ShiftBack(c >> 6);
    ThreeLead(c, c >> 6);
  }

  /** Shifting in the byte just written gives back what it was taken from. */
  lemma ShiftBack(c: bv32)
    requires c <= 0x10FFFF
    ensures IsTail(TrailByte(c)) && ShiftIn(c >> 6, TrailByte(c)) == c
  {
  }

  lemma ThreeLead(c: bv32, d: bv32)
    requires 0x800 <= c < 0x10000 && !(0xD800 <= c <= 0xDFFF) && d == c >> 6
    ensures var x, y := LeadByte(d >> 6, 3), TrailByte(d);
      && ThreeHead(x, y) && (x & 0x0f) as bv32 == d >> 6
  {
  }

  lemma ThreeRead(x: Byte, y: Byte, z: Byte, b: seq<Byte>, signed: bool)
    requires b == [x, y, z] && ThreeHead(x, y) && IsTail(z)
    ensures Utf8Char(b) == 3
    ensures Decoded(b, 3, signed) == ShiftIn(ShiftIn((x & 0x0f) as bv32, y), z)
  {
    HeadsDiffer(x, y);
  }

  lemma HeadsDiffer(x: Byte, y: Byte)
    ensures ThreeHead(x, y) || FourHead(x, y) ==> !(x <= 0x7F) && !TwoHead(x)
    ensures !(ThreeHead(x, y) && FourHead(x, y))
  {
  }

  lemma FourBytes(c: CodePoint, signed: bool)
    requires 0x10000 <= c <= 0x10FFFF
    ensures var e := Encoding(c, 4); Utf8Char(e) == 4 && Decoded(e, 4, signed) == c
  {
    var x, y, z, w := FourBits(c);
    FourWritten(c, x, y, z, w);
    FourRead(x, y, z, w, Encoding(c, 4), signed);
  }

  lemma FourBits(c: CodePoint) returns (x: Byte, y: Byte, z: Byte, w: Byte)
    requires 0x10000 <= c <= 0x10FFFF
    ensures LeadByte(c >> 18, 4) == x && TrailByte(c >> 12) == y && TrailByte(c >> 6) == z && TrailByte(c) == w
    ensures FourHead(x, y) && IsTail(z) && IsTail(w)
    ensures ShiftIn(ShiftIn(ShiftIn((x & 0x07) as bv32, y), z), w) == c
  {
    x, y, z, w := LeadByte(c >> 18, 4), TrailByte(c >> 12), TrailByte(c >> 6), TrailByte(c);
    ShiftTwice(c);
    ShiftSmaller(c);
    ShiftBack(c);
    ShiftBack(c >> 6);
    ShiftBack(c >> 12);
    FourLead(c, c >> 12);
  }

  lemma ShiftSmaller(c: bv32)
    requires c <= 0x10FFFF
    ensures c >> 6 <= 0x10FFFF && c >> 12 <= 0x10FFFF
  {
  }

  lemma FourLead(c: bv32, d: bv32)
    requires 0x10000 <= c <= 0x10FFFF && d == c >> 12
    ensures var x, y := LeadByte(d >> 6, 4), TrailByte(d);
      && FourHead(x, y) && (x & 0x07) as bv32 == d >> 6
  {
  }

  lemma FourRead(x: Byte, y: Byte, z: Byte, w: Byte, b: seq<Byte>, signed: bool)
    requires b == [x, y, z, w] && FourHead(x, y) && IsTail(z) && IsTail(w)
    ensures Utf8Char(b) == 4
    ensures Decoded(b, 4, signed) == ShiftIn(ShiftIn(ShiftIn((x & 0x07) as bv32, y), z), w)
  {
    HeadsDiffer(x, y);
  }

  /** The code reads a scalar value from every UTF8-char, and writes the same bytes back. */
  lemma Utf8CharIsEncoding(b: seq<Byte>, signed: bool)
    requires Utf8Char(b) > 0
    ensures SequenceLength(b[0]) == Utf8Char(b)
    ensures WritesBack(b, Utf8Char(b), Decoded(b, Utf8Char(b), signed))
  {
    SequenceLengthTable(b[0]);
    match Utf8Char(b)
    case 1 => ReadsOne(b, signed);
    case 2 => ReadsTwo(b, signed);
    case 3 => ReadsThree(b, signed);
    case _ => ReadsFour(b, signed);
  }

  /** c is a scalar value whose UTF-8 form is the first n bytes of b. */
  ghost predicate WritesBack(b: seq<Byte>, n: nat, c: CodePoint) {
    n <= |b| && IsScalar(c) && CodePointLength(c) == n && Utf8(c) == b[..n]
  }

  lemma ReadsOne(b: seq<Byte>, signed: bool)
    requires Utf8Char(b) == 1
    ensures WritesBack(b, 1, Decoded(b, 1, signed))
  {
    BackOne(b[0]);
  }

  lemma ReadsTwo(b: seq<Byte>, signed: bool)
    requires Utf8Char(b) == 2
    ensures WritesBack(b, 2, Decoded(b, 2, signed))
  {
    BackTwo(b[0], b[1]);
  }

  lemma ReadsThree(b: seq<Byte>, signed: bool)
    requires Utf8Char(b) == 3
    ensures WritesBack(b, 3, Decoded(b, 3, signed))
  {
    BackThree(b[0], b[1], b[2]);
    ThreeWritten(ShiftIn(ShiftIn((b[0] & 0x0f) as bv32, b[1]), b[2]), b[0], b[1], b[2]);
    assert b[..3] == [b[0], b[1], b[2]];
  }

  lemma ThreeWritten(c: CodePoint, x: Byte, y: Byte, z: Byte)
    requires 0x800 <= c < 0x10000 && !(0xD800 <= c <= 0xDFFF)
    requires LeadByte(c >> 12, 3) == x && TrailByte(c >> 6) == y && TrailByte(c) == z
    ensures IsScalar(c) && CodePointLength(c) == 3 && Utf8(c) == [x, y, z]
  {
  }

  lemma ReadsFour(b: seq<Byte>, signed: bool)
    requires Utf8Char(b) == 4
    ensures WritesBack(b, 4, Decoded(b, 4, signed))
  {
    BackFour(b[0], b[1], b[2], b[3]);
    FourWritten(ShiftIn(ShiftIn(ShiftIn((b[0] & 0x07) as bv32, b[1]), b[2]), b[3]), b[0], b[1], b[2], b[3]);
    assert b[..4] == [b[0], b[1], b[2], b[3]];
  }

  lemma FourWritten(c: CodePoint, x: Byte, y: Byte, z: Byte, w: Byte)
    requires 0x10000 <= c <= 0x10FFFF
    requires LeadByte(c >> 18, 4) == x && TrailByte(c >> 12) == y && TrailByte(c >> 6) == z && TrailByte(c) == w
    ensures IsScalar(c) && CodePointLength(c) == 4 && Utf8(c) == [x, y, z, w]
  {
  }

  lemma BackOne(x: Byte)
    requires x <= 0x7F
    ensures var c := x as bv32; c < 0x80 && LeadByte(c, 1) == x
  {
  }

  lemma BackTwo(x: Byte, y: Byte)
    requires 0xC2 <= x <= 0xDF && IsTail(y)
    ensures var c := ShiftIn((x & 0x1f) as bv32, y);
            0x80 <= c < 0x800 && LeadByte(c >> 6, 2) == x && TrailByte(c) == y
  {
  }

  /** The last byte read is the last byte written, and the rest is what was there before. */
  lemma UnshiftIn(v: bv32, y: Byte)
    requires v < 0x40_0000 && IsTail(y)
    ensures ShiftIn(v, y) >> 6 == v && TrailByte(ShiftIn(v, y)) == y && ShiftIn(v, y) < (v + 1) << 6
    ensures v << 6 <= ShiftIn(v, y)
  {
  }

  lemma BackThree(x: Byte, y: Byte, z: Byte)
    requires ThreeHead(x, y) && IsTail(z)
    ensures var c := ShiftIn(ShiftIn((x & 0x0f) as bv32, y), z);
      && 0x800 <= c < 0x10000 && !(0xD800 <= c <= 0xDFFF)
      && LeadByte(c >> 12, 3) == x && TrailByte(c >> 6) == y && TrailByte(c) == z
  {
    var v := (x & 0x0f) as bv32;
    var u := ShiftIn(v, y);
    UnshiftIn(v, y);
    UnshiftIn(u, z);
    ThreeRange(v, x, y);
    ShiftTwice(ShiftIn(u, z));
    ThreeTop(u, z);
  }

  lemma ThreeRange(v: bv32, x: Byte, y: Byte)
    requires ThreeHead(x, y) && v == (x & 0x0f) as bv32
    ensures 0x20 <= ShiftIn(v, y) < 0x400 && !(0x360 <= ShiftIn(v, y) < 0x380) && LeadByte(v, 3) == x
  {
  }

  lemma ThreeTop(u: bv32, z: Byte)
    requires 0x20 <= u < 0x400 && !(0x360 <= u < 0x380) && IsTail(z)
    ensures 0x800 <= ShiftIn(u, z) < 0x10000 && !(0xD800 <= ShiftIn(u, z) <= 0xDFFF)
  {
  }

  lemma BackFour(x: Byte, y: Byte, z: Byte, w: Byte)
    requires FourHead(x, y) && IsTail(z) && IsTail(w)
    ensures var c := ShiftIn(ShiftIn(ShiftIn((x & 0x07) as bv32, y), z), w);
      && 0x10000 <= c <= 0x10FFFF
      && LeadByte(c >> 18, 4) == x && TrailByte(c >> 12) == y && TrailByte(c >> 6) == z && TrailByte(c) == w
  {
    var v := (x & 0x07) as bv32;
    var u := ShiftIn(v, y);
    var t := ShiftIn(u, z);
    FourRange(v, x, y);
    FourTop(u, z, w);
    UnshiftIn(v, y);
    UnshiftIn(u, z);
    UnshiftIn(t, w);
    ShiftTwice(ShiftIn(t, w));
  }

  lemma FourRange(v: bv32, x: Byte, y: Byte)
    requires FourHead(x, y) && v == (x & 0x07) as bv32
    ensures 0x10 <= ShiftIn(v, y) < 0x110 && LeadByte(v, 4) == x && v < 8
  {
  }

  lemma FourTop(u: bv32, z: Byte, w: Byte)
    requires 0x10 <= u < 0x110 && IsTail(z) && IsTail(w)
    ensures 0x400 <= ShiftIn(u, z) < 0x4400 && 0x10000 <= ShiftIn(ShiftIn(u, z), w) <= 0x10FFFF
  {
  }
}
