/** The bytes of a parcel as values: what each kind of item is encoded as, and what each kind of read gives. */
module ParcelCodec {
  import opened Arithmetic

  type Byte = x: int | 0 <= x < 256
  type Char16 = x: int | 0 <= x < 0x1_0000

  const INT32_MAX: int := 0x7FFF_FFFF
  /** The size of a flattened object. */
  const OBJECT_SIZE: nat := 24

  // ---- scalars, little end first -----------------------------------------------------------------

  datatype Kind = Bool | Int8 | Uint8 | Int16 | Uint16 | Int32 | Uint32 | Int64 | Uint64

  function Width(k: Kind): (w: nat) {
    match k
    case Bool | Int8 | Uint8 => 1
    case Int16 | Uint16 => 2
    case Int32 | Uint32 => 4
    case Int64 | Uint64 => 8
  }

  function Pow256(n: nat): (p: int)
    ensures p > 0
  {
    if n == 0 then 1 else 256 * Pow256(n - 1)
  }

  predicate IsSigned(k: Kind) { k in {Int8, Int16, Int32, Int64} }

  /** The values of the C++ type. */
  predicate InRange(k: Kind, v: int) {
    if k == Bool then 0 <= v <= 1
    else if IsSigned(k) then -Pow256(Width(k)) <= 2 * v < Pow256(Width(k))
    else 0 <= v < Pow256(Width(k))
  }

  /** Conversion of an integer to the C++ type. */
  function Cast(k: Kind, v: int): int {
    if k == Bool then if v == 0 then 0 else 1
    else
      var n := v % Pow256(Width(k));
      if IsSigned(k) && 2 * n >= Pow256(Width(k)) then n - Pow256(Width(k)) else n
  }

  /** Byte i of v in two's complement, from the low end. */
  function ByteAt(v: int, i: nat): Byte { v / Pow256(i) % 256 }

  function ToBytes(v: int, w: nat): (b: seq<Byte>)
    ensures |b| == w
  {
    seq(w, i requires 0 <= i => ByteAt(v, i))
  }

  function FromBytes(b: seq<Byte>): (n: nat) {
    if b == [] then 0 else b[0] + 256 * FromBytes(b[1..])
  }

  /** One digit more. */
  lemma ModStep(v: int, p: int)
    requires p > 0
    ensures v % (256 * p) == v % 256 + 256 * ((v / 256) % p)
  {
    var q, r := (v / 256) / p, (v / 256) % p;
    assert v / 256 == p * q + r;
    assert (256 * p) * q == 256 * (p * q);
    ModIs(v, 256 * p, q, 256 * r + v % 256);
  }

  lemma DivStep(v: int, p: int)
    requires p > 0
    ensures v / (256 * p) == v / 256 / p
  {
    var q, r := v / 256 / p, v / 256 % p;
    assert v / 256 == p * q + r;
    assert (256 * p) * q == 256 * (p * q);
    Quotient(256 * p, v / (256 * p), v % (256 * p), q, 256 * r + v % 256);
  }

  /** The first byte, and the bytes of the rest. */
  lemma BytesStep(v: int, w: nat)
    requires w > 0
    ensures ToBytes(v, w) == [v % 256] + ToBytes(v / 256, w - 1)
  {
    assert ByteAt(v, 0) == v % 256;
    forall i | 0 < i < w
      ensures ByteAt(v, i) == ByteAt(v / 256, i - 1)
    {
      DivStep(v, Pow256(i - 1));
    }
  }

  lemma {:induction false} BytesBack(v: int, w: nat)
    ensures FromBytes(ToBytes(v, w)) == v % Pow256(w)
    decreases w
  {
    if w > 0 {
      BytesBack(v / 256, w - 1);
      BytesStep(v, w);
      assert ToBytes(v, w)[1..] == ToBytes(v / 256, w - 1);
      ModStep(v, Pow256(w - 1));
    }
  }

  lemma Powers()
    ensures Pow256(1) == 0x100 && Pow256(2) == 0x1_0000 && Pow256(4) == 0x1_0000_0000
    ensures Pow256(8) == 0x1_0000_0000_0000_0000
  {
    assert Pow256(3) == 256 * Pow256(2) && Pow256(4) == 256 * Pow256(3) && Pow256(5) == 256 * Pow256(4);
    assert Pow256(6) == 256 * Pow256(5) && Pow256(7) == 256 * Pow256(6) && Pow256(8) == 256 * Pow256(7);
  }

  /** The ranges of the C++ types. */
  lemma RangesAre(v: int)
    ensures InRange(Bool, v) <==> v == 0 || v == 1
    ensures InRange(Int8, v) <==> -0x80 <= v <= 0x7F
    ensures InRange(Uint8, v) <==> 0 <= v <= 0xFF
    ensures InRange(Int16, v) <==> -0x8000 <= v <= 0x7FFF
    ensures InRange(Uint16, v) <==> 0 <= v <= 0xFFFF
    ensures InRange(Int32, v) <==> -0x8000_0000 <= v <= 0x7FFF_FFFF
    ensures InRange(Uint32, v) <==> 0 <= v <= 0xFFFF_FFFF
    ensures InRange(Int64, v) <==> -0x8000_0000_0000_0000 <= v <= 0x7FFF_FFFF_FFFF_FFFF
    ensures InRange(Uint64, v) <==> 0 <= v <= 0xFFFF_FFFF_FFFF_FFFF
  {
    Powers();
  }

  /** A value of its own type survives being cut to bytes and read back. */
  lemma ScalarBack(k: Kind, v: int)
    requires InRange(k, v)
    ensures Cast(k, FromBytes(ToBytes(v, Width(k)))) == v
  {
    var p := Pow256(Width(k));
    BytesBack(v, Width(k));
    Powers();
    ModIs(v, p, if v < 0 then -1 else 0, if v < 0 then v + p else v);
    ModIs(v % p, p, 0, v % p);
  }

  /** So does one that is widened to 32 bits on the way out and narrowed on the way in. */
  lemma WidenedBack(k: Kind, v: int)
    requires InRange(k, v) && Width(k) <= 2
    ensures InRange(Int32, v) && Cast(k, Cast(Int32, FromBytes(ToBytes(v, 4)))) == v
  {
    Powers();
    ScalarBack(Int32, v);
    var p := Pow256(Width(k));
    if k != Bool {
      ModIs(v, p, if v < 0 then -1 else 0, if v < 0 then v + p else v);
    }
  }

  // ---- what each item is encoded as -----------------------------------------------------------------

  /** GetPadSize: up to the next multiple of four. */
  function PadSize(n: nat): (p: nat)
    ensures p < 4 && (n + p) % 4 == 0
  {
    (n + 3) / 4 * 4 - n
  }

  function Zeros(n: nat): (z: seq<Byte>)
    ensures |z| == n && forall k :: 0 <= k < n ==> z[k] == 0
  {
    seq(n, _ => 0)
  }

  function Padded(b: seq<Byte>): seq<Byte> { b + Zeros(PadSize(|b|)) }

  function Units(s: seq<Char16>): (b: seq<Byte>)
    ensures |b| == 2 * |s|
  {
    if s == [] then [] else ToBytes(s[0], 2) + Units(s[1..])
  }

  /** n units from the front of b. */
  function FromUnits(b: seq<Byte>, n: nat): (s: seq<Char16>)
    requires 2 * n <= |b|
    ensures |s| == n
  {
    if n == 0 then [] else [b[0] as int + 256 * b[1] as int] + FromUnits(b[2..], n - 1)
  }

  lemma UnitBytes(u: Char16)
    ensures ToBytes(u, 2) == [u % 256, u / 256]
  {
    BytesStep(u, 2);
    BytesStep(u / 256, 1);
    assert ToBytes(u / 256, 1) == [u / 256];
  }

  lemma FromUnitsOf(lo: Byte, hi: Byte, b: seq<Byte>, n: nat)
    requires |b| >= 2 * n
    ensures FromUnits([lo, hi] + b, n + 1) == [lo as int + 256 * hi as int] + FromUnits(b, n)
  {
    assert ([lo, hi] + b)[2..] == b;
  }

  lemma {:induction false} UnitsBack(s: seq<Char16>, rest: seq<Byte>)
    ensures FromUnits(Units(s) + rest, |s|) == s
  {
    hide ToBytes, FromUnits;
    if s != [] {
      UnitBytes(s[0]);
      UnitsBack(s[1..], rest);
      var b, lo, hi := Units(s[1..]) + rest, s[0] % 256, s[0] / 256;
      assert Units(s) + rest == [lo, hi] + b;
      FromUnitsOf(lo, hi, b, |s| - 1);
      assert s == [s[0]] + s[1..];
    }
  }

  function EncodeText(s: seq<Byte>): seq<Byte> { ToBytes(|s|, 4) + Padded(s + [0]) }

  function EncodeText16(s: seq<Char16>): seq<Byte> { ToBytes(|s|, 4) + Padded(Units(s) + [0, 0]) }

  /** A value and how it is written: a scalar as it is, a small scalar as 32 bits, or a string. */
  datatype Value = Plain(kind: Kind, n: int) | Widened(kind: Kind, n: int) | Text(s: seq<Byte>) | Text16(u: seq<Char16>)

  datatype Elem = APlain(kind: Kind) | AWidened(kind: Kind) | AText | AText16

  function ElemOf(v: Value): Elem {
    match v
    case Plain(k, _) => APlain(k)
    case Widened(k, _) => AWidened(k)
    case Text(_) => AText
    case Text16(_) => AText16
  }

  /** The value is of its C++ type, and a string is one whose length a 32-bit int can carry. */
  predicate Fitting(v: Value) {
    match v
    case Plain(k, n) => InRange(k, n)
    case Widened(k, n) => Width(k) <= 2 && InRange(k, n)
    case Text(s) => |s| < INT32_MAX
    case Text16(u) => |u| <= INT32_MAX / 2 - 1
  }

  function EncodeOne(v: Value): seq<Byte> {
    match v
    case Plain(k, n) => ToBytes(n, Width(k))
    case Widened(_, n) => ToBytes(n, 4)
    case Text(s) => EncodeText(s)
    case Text16(u) => EncodeText16(u)
  }

  /** The C++ size of an element in a vector; for the string classes, any multiple of four. */
  function SizeOf(e: Elem): (n: nat)
    ensures n > 0
  {
    match e
    case APlain(k) => Width(k)
    case AWidened(_) => 4
    case AText | AText16 => 32
  }

  predicate IsString(e: Elem) { e.AText? || e.AText16? }

  function Flat(vs: seq<Value>): seq<Byte> {
    if vs == [] then [] else EncodeOne(vs[0]) + Flat(vs[1..])
  }

  function EncodeVector(e: Elem, vs: seq<Value>): seq<Byte> {
    ToBytes(|vs|, 4) + (Flat(vs) + Zeros(PadSize(|vs| * SizeOf(e))))
  }

  datatype Item =
    | One(value: Value)
    | CString(chars: seq<Byte>)
    | Buffer(bytes: seq<Byte>)
    | Vector(elem: Elem, values: seq<Value>)
    | Object(block: seq<Byte>)

  predicate AllFitting(e: Elem, vs: seq<Value>) {
    forall k :: 0 <= k < |vs| ==> ElemOf(vs[k]) == e && Fitting(vs[k])
  }

  predicate Writable(i: Item) {
    match i
    case One(v) => Fitting(v)
    case CString(s) => 0 !in s && |s| < INT32_MAX
    case Buffer(b) => b != []
    case Vector(e, vs) => AllFitting(e, vs) && |vs| <= INT32_MAX
    case Object(b) => |b| == OBJECT_SIZE
  }

  function Encode(i: Item): seq<Byte> {
    match i
    case One(v) => EncodeOne(v)
    case CString(s) => Padded(s + [0])
    case Buffer(b) => Padded(b)
    case Vector(e, vs) => EncodeVector(e, vs)
    case Object(b) => b
  }

  predicate AllWritable(items: seq<Item>) { forall k :: 0 <= k < |items| ==> Writable(items[k]) }

  function EncodeAll(items: seq<Item>): seq<Byte> {
    if items == [] then [] else Encode(items[0]) + EncodeAll(items[1..])
  }

  /** Where the objects among the items end up when the first item goes to at. */
  function Offsets(items: seq<Item>, at: nat): seq<nat> {
    if items == [] then []
    else (if items[0].Object? then [at] else []) + Offsets(items[1..], at + |Encode(items[0])|)
  }

  // ---- what each read gives -----------------------------------------------------------------------------

  /** What a read looks at: the bytes written, where the objects are, and the size of the buffer. */
  datatype View = View(bytes: seq<Byte>, objects: seq<nat>, capacity: nat)

  datatype Read<T> = Read(ok: bool, value: T, cursor: nat)

  function Readable(v: View, c: nat): nat { if |v.bytes| > c then |v.bytes| - c else 0 }

  /** Reading from there up to here would touch an object. */
  predicate Overlaps(objects: seq<nat>, from: nat, to: nat) {
    exists k :: 0 <= k < |objects| && objects[k] < to && from < objects[k] + OBJECT_SIZE
  }

  /** SkipBytes. */
  function Skip(v: View, c: nat, n: nat): nat {
    if Readable(v, c) >= n then c + n else if c < v.capacity then v.capacity else c
  }

  /** Read<T>(value): after a forbidden read the cursor has moved all the same. */
  function ReadPlain(v: View, c: nat, k: Kind): Read<int> {
    var w := Width(k);
    if Readable(v, c) < w then Read(false, 0, c)
    else if Overlaps(v.objects, c, c + w) then Read(false, 0, c + w)
    else Read(true, Cast(k, FromBytes(v.bytes[c..c + w])), c + w)
  }

  function ReadWidened(v: View, c: nat, k: Kind): Read<int> {
    var r := ReadPlain(v, c, Int32);
    if r.ok then r.(value := Cast(k, r.value)) else r
  }

  /** The n bytes at c are there, and may be read. */
  predicate MayRead(v: View, c: nat, n: nat) {
    n <= Readable(v, c) && !Overlaps(v.objects, c, c + n)
  }

  /** The body of a string of n characters and its terminator at c; back is where a failure leaves the cursor. */
  function ReadTextBody(v: View, c: nat, n: nat, back: nat): Read<seq<Byte>> {
    if MayRead(v, c, n + 1) && v.bytes[c + n] == 0 then
      Read(true, v.bytes[c..c + n], Skip(v, c + (n + 1), PadSize(n + 1)))
    else
      Read(false, [], back)
  }

  function ReadText16Body(v: View, c: nat, n: nat, back: nat): Read<seq<Char16>> {
    var size := 2 * n + 2;
    if MayRead(v, c, size) && v.bytes[c + 2 * n] == 0 && v.bytes[c + 2 * n + 1] == 0 then
      Read(true, FromUnits(v.bytes[c..c + size], n), Skip(v, c + size, PadSize(size)))
    else
      Read(false, [], back)
  }

  function ReadText(v: View, c: nat): Read<seq<Byte>> {
    var r := ReadPlain(v, c, Int32);
    if !r.ok || r.value < 0 || r.value >= INT32_MAX then Read(false, [], r.cursor)
    else ReadTextBody(v, r.cursor, r.value, c)
  }

  function ReadText16(v: View, c: nat): Read<seq<Char16>> {
    var r := ReadPlain(v, c, Int32);
    if !r.ok || r.value < 0 || r.value >= INT32_MAX then Read(false, [], r.cursor)
    else ReadText16Body(v, r.cursor, r.value, c)
  }

  /** The first zero at or after c, or the end. */
  function FindZero(b: seq<Byte>, c: nat): (e: nat)
    requires c <= |b|
    ensures c <= e <= |b| && 0 !in b[c..e]
    ensures e < |b| ==> b[e] == 0
    decreases |b| - c
  {
    if c == |b| || b[c] == 0 then c
    else
      var e := FindZero(b, c + 1);
      assert b[c..e] == [b[c]] + b[c + 1..e];
      e
  }

  function ReadCString(v: View, c: nat): Read<seq<Byte>> {
    if c >= |v.bytes| then Read(false, [], c)
    else
      var e := FindZero(v.bytes, c);
      if e == |v.bytes| || Overlaps(v.objects, c, e + 1) then Read(false, [], c)
      else Read(true, v.bytes[c..e], Skip(v, e + 1, PadSize(e + 1 - c)))
  }

  function ReadUnpadBuffer(v: View, c: nat, n: nat): Read<seq<Byte>> {
    if !MayRead(v, c, n) then Read(false, [], c)
    else Read(true, if n == 0 then [] else v.bytes[c..c + n], Skip(v, c + n, PadSize(n)))
  }

  /** CheckOffsets, then the block itself, which no check guards. */
  function ReadObject(v: View, c: nat): Read<seq<Byte>> {
    if c + OBJECT_SIZE > |v.bytes| || c !in v.objects then Read(false, [], c)
    else Read(true, v.bytes[c..c + OBJECT_SIZE], c + OBJECT_SIZE)
  }

  function ReadOne(v: View, c: nat, e: Elem): Read<Value> {
    match e
    case APlain(k) => var r := ReadPlain(v, c, k); Read(r.ok, Plain(k, r.value), r.cursor)
    case AWidened(k) => var r := ReadWidened(v, c, k); Read(r.ok, Widened(k, r.value), r.cursor)
    case AText => var r := ReadText(v, c); Read(r.ok, Text(r.value), r.cursor)
    case AText16 => var r := ReadText16(v, c); Read(r.ok, Text16(r.value), r.cursor)
  }

  /** n elements one after the other; a string that cannot be read is taken as an empty one. */
  function ReadElems(v: View, c: nat, e: Elem, n: nat): Read<seq<Value>>
    decreases n
  {
    if n == 0 then Read(true, [], c)
    else
      var r := ReadOne(v, c, e);
      if !r.ok && !IsString(e) then Read(false, [], r.cursor)
      else
        var rest := ReadElems(v, r.cursor, e, n - 1);
        if rest.ok then rest.(value := [r.value] + rest.value) else rest
  }

  function ReadVectorBody(v: View, c: nat, e: Elem, n: nat): Read<seq<Value>> {
    if n > Readable(v, c) / (if IsString(e) then 1 else SizeOf(e)) then Read(false, [], c)
    else
      var body := ReadElems(v, c, e, n);
      if !body.ok || IsString(e) then body
      else body.(cursor := Skip(v, body.cursor, PadSize(n * SizeOf(e))))
  }

  /** The count goes through ReadInt32(), whose failure reads as 0. */
  function ReadVector(v: View, c: nat, e: Elem): Read<seq<Value>> {
    var r := ReadPlain(v, c, Int32);
    var n := if r.ok then r.value else 0;
    if n < 0 then Read(false, [], r.cursor) else ReadVectorBody(v, r.cursor, e, n)
  }

  /** What a reader asks for. */
  datatype Shape = AValue(elem: Elem) | ACString | ABuffer(len: nat) | AVector(elem: Elem) | AnObject

  function ShapeOf(i: Item): Shape {
    match i
    case One(v) => AValue(ElemOf(v))
    case CString(_) => ACString
    case Buffer(b) => ABuffer(|b|)
    case Vector(e, _) => AVector(e)
    case Object(_) => AnObject
  }

  function ReadItem(v: View, c: nat, s: Shape): Read<Item> {
    match s
    case AValue(e) => var r := ReadOne(v, c, e); Read(r.ok, One(r.value), r.cursor)
    case ACString => var r := ReadCString(v, c); Read(r.ok, CString(r.value), r.cursor)
    case ABuffer(n) => var r := ReadUnpadBuffer(v, c, n); Read(r.ok, Buffer(r.value), r.cursor)
    case AVector(e) => var r := ReadVector(v, c, e); Read(r.ok, Vector(e, r.value), r.cursor)
    case AnObject => var r := ReadObject(v, c); Read(r.ok, Object(r.value), r.cursor)
  }

  /** Item after item, while they can be read. */
  function ReadItems(v: View, c: nat, shapes: seq<Shape>): Read<seq<Item>>
    decreases |shapes|
  {
    if shapes == [] then Read(true, [], c)
    else
      var r := ReadItem(v, c, shapes[0]);
      if !r.ok then Read(false, [], r.cursor)
      else
        var rest := ReadItems(v, r.cursor, shapes[1..]);
        if rest.ok then rest.(value := [r.value] + rest.value) else rest
  }

  // ---- reading in a loop ------------------------------------------------------------------------------

  /** What the loop has read, and r behind it. */
  ghost function Behind<T>(done: seq<T>, r: Read<seq<T>>): Read<seq<T>> {
    if r.ok then r.(value := done + r.value) else r
  }

  lemma BehindNothing<T>(r: Read<seq<T>>)
    ensures Behind([], r) == r
  {
    assert [] + r.value == r.value;
  }

  lemma BehindStep<T>(done: seq<T>, x: T, r: Read<seq<T>>)
    ensures r.ok ==> Behind(done + [x], r) == Behind(done, r.(value := [x] + r.value))
    ensures !r.ok ==> Behind(done + [x], r) == Behind(done, r) == r
  {
    assert r.ok ==> (done + [x]) + r.value == done + ([x] + r.value);
  }
}
