/** What was encoded is what is read, item by item, whatever stands before and after it. */
module ParcelRoundTrip {
  import opened Arithmetic
  import opened ParcelCodec

  /** The bytes e stand at c. */
  ghost predicate Holds(v: View, c: nat, e: seq<Byte>) {
    c + |e| <= |v.bytes| && v.bytes[c..c + |e|] == e
  }

  /** No object reaches into the n bytes at c. */
  ghost predicate Clear(objects: seq<nat>, c: nat, n: nat) {
    forall k :: 0 <= k < |objects| ==> objects[k] + OBJECT_SIZE <= c || c + n <= objects[k]
  }

  lemma Parts(v: View, c: nat, a: seq<Byte>, b: seq<Byte>)
    requires Holds(v, c, a + b)
    ensures Holds(v, c, a) && Holds(v, c + |a|, b)
  {
    Subslice(v.bytes, c, |a + b|, 0, |a|);
    Subslice(v.bytes, c, |a + b|, |a|, |a + b|);
    assert (a + b)[0..|a|] == a && (a + b)[|a|..|a + b|] == b;
  }

  lemma Subslice<T>(s: seq<T>, c: nat, n: nat, i: nat, j: nat)
    requires c + n <= |s| && i <= j <= n
    ensures s[c..c + n][i..j] == s[c + i..c + j]
  {
    var x, y := s[c..c + n][i..j], s[c + i..c + j];
    forall k | 0 <= k < j - i
      ensures x[k] == y[k]
    {
      assert x[k] == s[c..c + n][i + k];
    }
  }

  lemma PlainReads(v: View, c: nat, k: Kind, x: int)
    requires InRange(k, x) && Holds(v, c, ToBytes(x, Width(k))) && Clear(v.objects, c, Width(k))
    ensures ReadPlain(v, c, k) == Read(true, x, c + Width(k))
  {
    ScalarBack(k, x);
  }

  lemma WidenedReads(v: View, c: nat, k: Kind, x: int)
    requires InRange(k, x) && Width(k) <= 2 && Holds(v, c, ToBytes(x, 4)) && Clear(v.objects, c, 4)
    ensures ReadWidened(v, c, k) == Read(true, x, c + 4)
  {
    WidenedBack(k, x);
    PlainReads(v, c, Int32, x);
    ScalarBack(Int32, x);
  }

  /** The body of a padded item, and where skipping its padding leads. */
  lemma SkipsPadding(v: View, c: nat, b: seq<Byte>)
    requires Holds(v, c, Padded(b))
    ensures Holds(v, c, b) && Skip(v, c + |b|, PadSize(|b|)) == c + |Padded(b)|
    ensures Readable(v, c) >= |b|
  {
    Parts(v, c, b, Zeros(PadSize(|b|)));
  }

  /** The length that precedes a string or a vector. */
  lemma LengthReads(v: View, c: nat, n: nat, body: seq<Byte>)
    requires n <= INT32_MAX && Holds(v, c, ToBytes(n, 4) + body) && Clear(v.objects, c, 4 + |body|)
    ensures ReadPlain(v, c, Int32) == Read(true, n, c + 4)
    ensures Holds(v, c + 4, body) && Clear(v.objects, c + 4, |body|)
  {
    Powers();
    Parts(v, c, ToBytes(n, 4), body);
    PlainReads(v, c, Int32, n);
  }

  lemma ByteAt(v: View, c: nat, e: seq<Byte>, k: nat)
    requires Holds(v, c, e) && k < |e|
    ensures v.bytes[c + k] == e[k]
  {
    assert v.bytes[c..c + |e|][k] == v.bytes[c + k];
  }

  lemma TextBodyReads(v: View, c: nat, s: seq<Byte>, back: nat)
    requires Holds(v, c, Padded(s + [0])) && Clear(v.objects, c, |Padded(s + [0])|)
    ensures ReadTextBody(v, c, |s|, back) == Read(true, s, c + |Padded(s + [0])|)
  {
    SkipsPadding(v, c, s + [0]);
    ByteAt(v, c, s + [0], |s|);
    Parts(v, c, s, [0]);
  }

  lemma TextReads(v: View, c: nat, s: seq<Byte>)
    requires |s| < INT32_MAX && Holds(v, c, EncodeText(s)) && Clear(v.objects, c, |EncodeText(s)|)
    ensures ReadText(v, c) == Read(true, s, c + |EncodeText(s)|)
  {
    LengthReads(v, c, |s|, Padded(s + [0]));
    TextBodyReads(v, c + 4, s, c);
  }

  lemma Text16BodyReads(v: View, c: nat, s: seq<Char16>, back: nat)
    requires var b := Padded(Units(s) + [0, 0]); Holds(v, c, b) && Clear(v.objects, c, |b|)
    ensures ReadText16Body(v, c, |s|, back) == Read(true, s, c + |Padded(Units(s) + [0, 0])|)
  {
    var b := Units(s) + [0, 0];
    SkipsPadding(v, c, b);
    UnitsBack(s, [0, 0]);
    Text16BodyIs(v, c, s, b, back);
  }

  lemma Text16BodyIs(v: View, c: nat, s: seq<Char16>, b: seq<Byte>, back: nat)
    requires |b| == 2 * |s| + 2 && b[2 * |s|] == b[2 * |s| + 1] == 0 && FromUnits(b, |s|) == s
    requires Holds(v, c, b) && Clear(v.objects, c, |b|)
    ensures ReadText16Body(v, c, |s|, back) == Read(true, s, Skip(v, c + |b|, PadSize(|b|)))
  {
    hide FromUnits, PadSize, Skip;
    ByteAt(v, c, b, 2 * |s|);
    ByteAt(v, c, b, 2 * |s| + 1);
    assert v.bytes[c..c + (2 * |s| + 2)] == b;
  }

  lemma Text16Reads(v: View, c: nat, s: seq<Char16>)
    requires |s| <= INT32_MAX / 2 - 1 && Holds(v, c, EncodeText16(s)) && Clear(v.objects, c, |EncodeText16(s)|)
    ensures ReadText16(v, c) == Read(true, s, c + |EncodeText16(s)|)
  {
    LengthReads(v, c, |s|, Padded(Units(s) + [0, 0]));
    Text16BodyReads(v, c + 4, s, c);
  }

  lemma OneReads(v: View, c: nat, x: Value)
    requires Fitting(x) && Holds(v, c, EncodeOne(x)) && Clear(v.objects, c, |EncodeOne(x)|)
    ensures ReadOne(v, c, ElemOf(x)) == Read(true, x, c + |EncodeOne(x)|)
  {
    match x
    case Plain(k, n) => PlainReads(v, c, k, n);
    case Widened(k, n) => WidenedReads(v, c, k, n);
    case Text(s) => TextReads(v, c, s);
    case Text16(u) => Text16Reads(v, c, u);
  }

  lemma OneMore(n: nat, w: nat)
    requires n > 0
    ensures n * w == w + (n - 1) * w
  {
  }

  lemma FlatOf(x: Value, xs: seq<Value>)
    ensures Flat([x] + xs) == EncodeOne(x) + Flat(xs)
  {
    var all := [x] + xs;
    assert all[0] == x && all[1..] == xs;
  }

  lemma OneSize(x: Value)
    ensures if IsString(ElemOf(x)) then |EncodeOne(x)| >= 1 else |EncodeOne(x)| == SizeOf(ElemOf(x))
  {
  }

  lemma {:induction false} FlatSize(e: Elem, vs: seq<Value>)
    requires AllFitting(e, vs)
    ensures if IsString(e) then |Flat(vs)| >= |vs| else |Flat(vs)| == |vs| * SizeOf(e)
  {
    if vs != [] {
      hide EncodeOne;
      OneSize(vs[0]);
      FlatSize(e, vs[1..]);
      OneMore(|vs|, SizeOf(e));
    }
  }

  lemma {:induction false} ElemsRead(v: View, c: nat, e: Elem, vs: seq<Value>)
    requires AllFitting(e, vs) && Holds(v, c, Flat(vs)) && Clear(v.objects, c, |Flat(vs)|)
    ensures ReadElems(v, c, e, |vs|) == Read(true, vs, c + |Flat(vs)|)
    decreases |vs|
  {
    if vs != [] {
      hide ReadOne, EncodeOne, ReadElems;
      var x, xs := vs[0], vs[1..];
      assert vs == [x] + xs;
      FlatOf(x, xs);
      var next := FirstReads(v, c, x, Flat(xs));
      ElemsRead(v, next, e, xs);
      ElemsStep(v, c, e, x, xs, next, next + |Flat(xs)|);
    }
  }

  lemma FirstReads(v: View, c: nat, x: Value, rest: seq<Byte>) returns (next: nat)
    requires Fitting(x) && Holds(v, c, EncodeOne(x) + rest) && Clear(v.objects, c, |EncodeOne(x) + rest|)
    ensures next == c + |EncodeOne(x)| && ReadOne(v, c, ElemOf(x)) == Read(true, x, next)
    ensures Holds(v, next, rest) && Clear(v.objects, next, |rest|)
  {
    hide ReadOne, EncodeOne;
    next := c + |EncodeOne(x)|;
    Parts(v, c, EncodeOne(x), rest);
    OneReads(v, c, x);
  }

  lemma ElemsStep(v: View, c: nat, e: Elem, x: Value, xs: seq<Value>, next: nat, last: nat)
    requires ReadOne(v, c, e) == Read(true, x, next)
    requires ReadElems(v, next, e, |xs|) == Read(true, xs, last)
    ensures ReadElems(v, c, e, |xs| + 1) == Read(true, [x] + xs, last)
  {
    hide ReadOne;
  }

  lemma Fits(n: nat, w: nat, room: nat)
    requires w > 0 && n * w <= room
    ensures n <= room / w
  {
    if n > room / w {
      MulStep(w, room / w, n);
    }
  }

  lemma NoPadding(n: nat)
    ensures PadSize(4 * n) == 0
  {
  }

  lemma StringsNeedNoPadding(e: Elem, n: nat)
    requires IsString(e)
    ensures PadSize(n * SizeOf(e)) == 0
  {
    NoPadding(n * 8);
    assert n * SizeOf(e) == 4 * (n * 8);
  }

  lemma VectorBodyReads(v: View, c: nat, e: Elem, vs: seq<Value>)
    requires AllFitting(e, vs)
    requires var b := Flat(vs) + Zeros(PadSize(|vs| * SizeOf(e))); Holds(v, c, b) && Clear(v.objects, c, |b|)
    ensures ReadVectorBody(v, c, e, |vs|) == Read(true, vs, c + |Flat(vs)| + PadSize(|vs| * SizeOf(e)))
  {
    hide ReadVectorBody, ReadElems, Flat, PadSize, SizeOf, AllFitting, IsString;
    var size := |vs| * SizeOf(e);
    Parts(v, c, Flat(vs), Zeros(PadSize(size)));
    FlatSize(e, vs);
    ElemsRead(v, c, e, vs);
    if IsString(e) {
      StringsNeedNoPadding(e, |vs|);
      StringsRead(v, c, e, vs, c + |Flat(vs)|);
    } else {
      Fits(|vs|, SizeOf(e), Readable(v, c));
      ScalarsRead(v, c, e, vs, size, c + |Flat(vs)|);
    }
  }

  lemma StringsRead(v: View, c: nat, e: Elem, vs: seq<Value>, mid: nat)
    requires IsString(e) && |vs| <= Readable(v, c) && ReadElems(v, c, e, |vs|) == Read(true, vs, mid)
    ensures ReadVectorBody(v, c, e, |vs|) == Read(true, vs, mid)
  {
  }

  lemma ScalarsRead(v: View, c: nat, e: Elem, vs: seq<Value>, size: nat, mid: nat)
    requires !IsString(e) && size == |vs| * SizeOf(e) && |vs| <= Readable(v, c) / SizeOf(e)
    requires ReadElems(v, c, e, |vs|) == Read(true, vs, mid)
    ensures ReadVectorBody(v, c, e, |vs|) == Read(true, vs, Skip(v, mid, PadSize(size)))
  {
  }

  lemma VectorReads(v: View, c: nat, e: Elem, vs: seq<Value>)
    requires AllFitting(e, vs) && |vs| <= INT32_MAX
    requires Holds(v, c, EncodeVector(e, vs)) && Clear(v.objects, c, |EncodeVector(e, vs)|)
    ensures ReadVector(v, c, e) == Read(true, vs, c + |EncodeVector(e, vs)|)
  {
    hide Flat, PadSize, ReadVectorBody, ReadPlain;
    LengthReads(v, c, |vs|, Flat(vs) + Zeros(PadSize(|vs| * SizeOf(e))));
    VectorBodyReads(v, c + 4, e, vs);
  }

  lemma CStringReads(v: View, c: nat, s: seq<Byte>)
    requires 0 !in s && Holds(v, c, Padded(s + [0])) && Clear(v.objects, c, |s| + 1)
    ensures ReadCString(v, c) == Read(true, s, c + |Padded(s + [0])|)
  {
    hide PadSize, Skip, FindZero;
    SkipsPadding(v, c, s + [0]);
    Parts(v, c, s, [0]);
    var e, f := c + |s|, FindZero(v.bytes, c);
    assert v.bytes[e..e + 1][0] == v.bytes[e] == 0;
    if f < e {
      ZeroInside(v.bytes, c, e, f);
    } else if f > e {
      ZeroInside(v.bytes, c, f, e);
    }
  }

  lemma ZeroInside(b: seq<Byte>, from: nat, to: nat, k: nat)
    requires from <= k < to <= |b| && b[k] == 0
    ensures 0 in b[from..to]
  {
    assert b[from..to][k - from] == 0;
  }

  lemma BufferReads(v: View, c: nat, b: seq<Byte>)
    requires b != [] && Holds(v, c, Padded(b)) && Clear(v.objects, c, |b|)
    ensures ReadUnpadBuffer(v, c, |b|) == Read(true, b, c + |Padded(b)|)
  {
    SkipsPadding(v, c, b);
  }

  /** Reading what one write left: the same item, and the cursor right behind it, padding included. */
  lemma ItemReads(v: View, c: nat, i: Item)
    requires Writable(i) && Holds(v, c, Encode(i))
    requires if i.Object? then c in v.objects else Clear(v.objects, c, |Encode(i)|)
    ensures ReadItem(v, c, ShapeOf(i)) == Read(true, i, c + |Encode(i)|)
  {
    match i
    case One(x) => OneReads(v, c, x);
    case CString(s) => CStringReads(v, c, s);
    case Buffer(b) => BufferReads(v, c, b);
    case Vector(e, vs) => VectorReads(v, c, e, vs);
    case Object(_) =>
  }

  function Shapes(items: seq<Item>): seq<Shape> {
    if items == [] then [] else [ShapeOf(items[0])] + Shapes(items[1..])
  }

  lemma {:induction false} OffsetsFrom(items: seq<Item>, at: nat)
    ensures forall k :: 0 <= k < |Offsets(items, at)| ==> Offsets(items, at)[k] >= at
    decreases |items|
  {
    if items != [] {
      OffsetsFrom(items[1..], at + |Encode(items[0])|);
    }
  }

  /** The objects are those before c and those among the items from c on. */
  ghost predicate Placed(objects: seq<nat>, before: seq<nat>, c: nat, items: seq<Item>) {
    objects == before + Offsets(items, c) && forall k :: 0 <= k < |before| ==> before[k] + OBJECT_SIZE <= c
  }

  lemma OffsetsOf(i: Item, rest: seq<Item>, c: nat)
    ensures Offsets([i] + rest, c) == (if i.Object? then [c] else []) + Offsets(rest, c + |Encode(i)|)
  {
    assert ([i] + rest)[0] == i && ([i] + rest)[1..] == rest;
  }

  /** Where the objects are when the first item has been read, and what that means for reading it. */
  lemma PlacedStep(objects: seq<nat>, before: seq<nat>, c: nat, i: Item, rest: seq<Item>) returns (passed: seq<nat>)
    requires Writable(i) && Placed(objects, before, c, [i] + rest)
    ensures Placed(objects, passed, c + |Encode(i)|, rest)
    ensures if i.Object? then c in objects else Clear(objects, c, |Encode(i)|)
  {
    var next := c + |Encode(i)|;
    assert i.Object? ==> next == c + OBJECT_SIZE;
    hide Encode;
    OffsetsOf(i, rest, c);
    OffsetsFrom(rest, next);
    passed := before + if i.Object? then [c] else [];
    PlacedSplit(objects, before, if i.Object? then [c] else [], Offsets(rest, next), c, next);
  }

  lemma PlacedSplit(objects: seq<nat>, before: seq<nat>, here: seq<nat>, after: seq<nat>, c: nat, next: nat)
    requires objects == before + (here + after) && c <= next
    requires forall k :: 0 <= k < |before| ==> before[k] + OBJECT_SIZE <= c
    requires forall k :: 0 <= k < |after| ==> after[k] >= next
    requires here == [] || (here == [c] && next == c + OBJECT_SIZE)
    ensures objects == (before + here) + after
    ensures forall k :: 0 <= k < |before + here| ==> (before + here)[k] + OBJECT_SIZE <= next
    ensures here == [c] ==> c in objects
    ensures here == [] ==> Clear(objects, c, next - c)
  {
    if here == [c] {
      assert objects[|before|] == c;
    }
  }

  lemma EncodeAllOf(i: Item, rest: seq<Item>)
    ensures EncodeAll([i] + rest) == Encode(i) + EncodeAll(rest)
  {
    assert ([i] + rest)[0] == i && ([i] + rest)[1..] == rest;
  }

  lemma FirstItemReads(v: View, c: nat, i: Item, rest: seq<Item>, before: seq<nat>)
    returns (next: nat, passed: seq<nat>)
    requires Writable(i) && Holds(v, c, Encode(i) + EncodeAll(rest)) && Placed(v.objects, before, c, [i] + rest)
    ensures next == c + |Encode(i)| && ReadItem(v, c, ShapeOf(i)) == Read(true, i, next)
    ensures Holds(v, next, EncodeAll(rest)) && Placed(v.objects, passed, next, rest)
  {
    hide ReadItem, Encode, EncodeAll, Offsets;
    next := c + |Encode(i)|;
    passed := PlacedStep(v.objects, before, c, i, rest);
    Parts(v, c, Encode(i), EncodeAll(rest));
    ItemReads(v, c, i);
  }

  lemma {:induction false} ItemsRead(v: View, c: nat, items: seq<Item>, before: seq<nat>)
    requires AllWritable(items) && Holds(v, c, EncodeAll(items)) && Placed(v.objects, before, c, items)
    ensures ReadItems(v, c, Shapes(items)) == Read(true, items, c + |EncodeAll(items)|)
    decreases |items|
  {
    if items != [] {
      hide ReadItem, Encode, ReadItems, Offsets;
      var i, rest := items[0], items[1..];
      assert items == [i] + rest;
      EncodeAllOf(i, rest);
      var next, passed := FirstItemReads(v, c, i, rest, before);
      ItemsRead(v, next, rest, passed);
      ItemsStep(v, c, i, rest, next, next + |EncodeAll(rest)|);
    }
  }

  lemma ItemsStep(v: View, c: nat, i: Item, rest: seq<Item>, next: nat, last: nat)
    requires ReadItem(v, c, ShapeOf(i)) == Read(true, i, next)
    requires ReadItems(v, next, Shapes(rest)) == Read(true, rest, last)
    ensures ReadItems(v, c, Shapes([i] + rest)) == Read(true, [i] + rest, last)
  {
    hide ReadItem;
    assert ([i] + rest)[1..] == rest;
    var shapes := [ShapeOf(i)] + Shapes(rest);
    assert shapes[1..] == Shapes(rest);
  }

  /** Everything written to an empty parcel is read back, objects included, and the cursor ends at the data size. */
  lemma RoundTrip(items: seq<Item>, capacity: nat)
    requires AllWritable(items)
    ensures ReadItems(View(EncodeAll(items), Offsets(items, 0), capacity), 0, Shapes(items))
         == Read(true, items, |EncodeAll(items)|)
  {
    hide ReadItems, EncodeAll, Offsets, Shapes;
    ItemsRead(View(EncodeAll(items), Offsets(items, 0), capacity), 0, items, []);
  }
}
