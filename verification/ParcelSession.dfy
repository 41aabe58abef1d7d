/** A whole exchange: items written to a parcel in some order, and read back by asking for the same shapes. */
module ParcelSession {
  import opened ParcelCodec
  import opened ParcelRoundTrip
  import opened ParcelBuffer

  lemma ItemIsNotEmpty(i: Item)
    requires Writable(i)
    ensures |Encode(i)| > 0
  {
    hide ToBytes, Flat;
    if i.One? {
      NotEmpty(i.value);
    }
  }

  /** An item written whole: what the code may cut or refuse in a long string does not apply. */
  lemma WrittenWhole(i: Item)
    requires Writable(i)
    ensures i.One? ==> Accepted(i.value) && Sent(i.value) == i.value
    ensures i.CString? ==> Accepted(Text(i.chars)) && CStringSent(i.chars) == i.chars + [0]
    ensures i.Vector? ==> AllAccepted(i.values) && AllSent(i.values) == i.values
  {
    match i
    case One(v) => SentIsWhole(v);
    case CString(s) =>
      SentIsWhole(Text(s));
      Powers();
      assert (s + [0])[..|s| + 1] == s + [0];
    case Vector(e, vs) => VectorIsWhole(e, vs);
    case _ =>
  }

  lemma {:induction false} VectorIsWhole(e: Elem, vs: seq<Value>)
    requires AllFitting(e, vs)
    ensures AllAccepted(vs) && AllSent(vs) == vs
  {
    if vs != [] {
      hide Accepted, Sent;
      SentIsWhole(vs[0]);
      VectorIsWhole(e, vs[1..]);
    }
  }

  /** The objects that a write of i adds when it goes to at. */
  function NewOffsets(i: Item, at: nat): seq<nat> { if i.Object? then [at] else [] }

  method WriteItem(p: Parcel, i: Item) returns (ok: bool)
    requires p.Valid() && Writable(i)
    modifies p`data, p`dataCapacity, p`writeCursor, p`dataSize, p`objects, p.data
    ensures p.data == old(p.data) || fresh(p.data)
    ensures p.Valid() && p.Limit() == old(p.Limit()) && ok == old(p.CanHold(|Encode(i)|))
    ensures ok ==> p.Contents() == old(p.Contents()) + Encode(i)
    ensures ok ==> p.objects == old(p.objects) + NewOffsets(i, old(p.dataSize))
    ensures old(p.Contents()) <= p.Contents()
  {
    hide Padded, EncodeOne, EncodeVector, Apart, Passed, Accepted, Sent, CStringSent, AllAccepted, AllSent;
    WrittenWhole(i);
    match i {
      case One(v) => ok := p.WriteOne(v);
      case CString(s) => ok := p.WriteCString(s);
      case Buffer(b) => ok := p.WriteBuffer(b);
      case Vector(e, vs) => ok := p.WriteVector(e, vs);
      case Object(b) => ok := p.WriteRemoteObject(Remote(b));
    }
  }

  /** n of the items have been written from size0 on: as the bytes done, with objects at offsets. */
  ghost predicate Progress(items: seq<Item>, n: nat, size0: nat, done: seq<Byte>, offsets: seq<nat>) {
    && n <= |items| && EncodeAll(items) == done + EncodeAll(items[n..])
    && Offsets(items, size0) == offsets + Offsets(items[n..], size0 + |done|)
  }

  lemma ProgressStep(items: seq<Item>, n: nat, size0: nat, done: seq<Byte>, offsets: seq<nat>)
    requires n < |items| && Progress(items, n, size0, done, offsets)
    ensures Progress(items, n + 1, size0, done + Encode(items[n]), offsets + NewOffsets(items[n], size0 + |done|))
    ensures |done + Encode(items[n])| <= |EncodeAll(items)|
  {
    hide Encode, EncodeAll, Offsets;
    var i, rest, at := items[n], items[n + 1..], size0 + |done|;
    assert items[n..] == [i] + rest;
    EncodeAllOf(i, rest);
    OffsetsOf(i, rest, at);
    Assoc(done, Encode(i), EncodeAll(rest));
    Assoc(offsets, NewOffsets(i, at), Offsets(rest, at + |Encode(i)|));
    assert size0 + |done + Encode(i)| == at + |Encode(i)|;
  }

  lemma ProgressEnds(items: seq<Item>, n: nat, size0: nat, done: seq<Byte>, offsets: seq<nat>)
    requires n == |items| && Progress(items, n, size0, done, offsets)
    ensures EncodeAll(items) == done && Offsets(items, size0) == offsets
  {
    NothingLeft(size0 + |done|);
    assert items[n..] == [] && done + [] == done && offsets + [] == offsets;
  }

  /** Every write succeeds exactly when all of them together fit; then the parcel holds their encoding. */
  method WriteAll(p: Parcel, items: seq<Item>) returns (ok: bool)
    requires p.Valid() && AllWritable(items)
    modifies p`data, p`dataCapacity, p`writeCursor, p`dataSize, p`objects, p.data
    ensures p.Valid() && ok == (items == [] || old(p.CanHold(|EncodeAll(items)|)))
    ensures ok ==> p.Contents() == old(p.Contents()) + EncodeAll(items)
    ensures ok ==> p.objects == old(p.objects) + Offsets(items, old(p.dataSize))
  {
    hide Encode, EncodeAll, Offsets, Progress, Parcel.Valid, Parcel.Limit, Parcel.CanHold, Parcel.Contents;
    ghost var base, objects0, size0 := p.Contents(), p.objects, p.dataSize;
    ghost var done, offsets := [], [];
    var n := 0;
    ProgressBegins(items, size0);
    RoomFor(p, |EncodeAll(items)|);
    while n < |items|
      invariant 0 <= n <= |items| && p.Valid() && (p.data == old(p.data) || fresh(p.data))
      invariant p.Limit() == old(p.Limit()) && p.Contents() == base + done && p.objects == objects0 + offsets
      invariant Progress(items, n, size0, done, offsets)
      invariant n > 0 ==> done != [] && p.writable && size0 + |done| <= old(p.Limit())
      invariant n == 0 ==> done == []
    {
      ghost var e, added := Encode(items[n]), NewOffsets(items[n], size0 + |done|);
      ProgressStep(items, n, size0, done, offsets);
      ItemIsNotEmpty(items[n]);
      RoomFor(p, |e|);
      ok := WriteItem(p, items[n]);
      if !ok {
        return;
      }
      Assoc(base, done, e);
      Assoc(objects0, offsets, added);
      done, offsets := done + e, offsets + added;
      n := n + 1;
    }
    ProgressEnds(items, n, size0, done, offsets);
    return true;
  }

  lemma RoomFor(p: Parcel, n: nat)
    requires p.Valid()
    ensures n > 0 ==> (p.CanHold(n) <==> p.writable && |p.Contents()| + n <= p.Limit())
  {
  }

  lemma ProgressBegins(items: seq<Item>, size0: nat)
    ensures Progress(items, 0, size0, [], [])
  {
    assert items[0..] == items && [] + EncodeAll(items) == EncodeAll(items);
    assert [] + Offsets(items, size0) == Offsets(items, size0);
  }

  lemma NothingLeft(at: nat)
    ensures EncodeAll([]) == [] && Offsets([], at) == []
  {
  }

  method ReadItem(p: Parcel, s: Shape) returns (ok: bool, i: Item)
    requires p.Valid()
    modifies p`readCursor, p`nextObjectIdx
    ensures p.Valid() && Read(ok, i, p.readCursor) == ParcelCodec.ReadItem(p.Seen(), old(p.readCursor), s)
  {
    hide ReadOne, ReadCString, ReadUnpadBuffer, ReadVector, ReadObject, Apart, Passed;
    match s {
      case AValue(e) =>
        var v;
        ok, v := p.ReadOne(e);
        i := One(v);
      case ACString =>
        var t;
        ok, t := p.ReadCString();
        i := CString(t);
      case ABuffer(n) =>
        var b;
        ok, b := p.ReadUnpadBuffer(n);
        i := Buffer(b);
      case AVector(e) =>
        var vs;
        if IsString(e) {
          ok, vs := p.ReadStringVector(e);
        } else {
          ok, vs := p.ReadVector(e);
        }
        i := Vector(e, vs);
      case AnObject =>
        var b;
        ok, b := p.ReadObject();
        i := Object(b);
    }
  }

  lemma ItemsUnfold(v: View, c: nat, s: Shape, rest: seq<Shape>)
    ensures var r := ParcelCodec.ReadItem(v, c, s);
      ReadItems(v, c, [s] + rest) ==
      if !r.ok then Read(false, [], r.cursor)
      else
        var more := ReadItems(v, r.cursor, rest);
        if more.ok then more.(value := [r.value] + more.value) else more
  {
    hide ParcelCodec.ReadItem;
    assert ([s] + rest)[0] == s && ([s] + rest)[1..] == rest;
  }

  /** Reads of any shapes from any parcel: exactly what ReadItems says of its bytes, up to the first that fails. */
  method ReadAll(p: Parcel, shapes: seq<Shape>) returns (ok: bool, items: seq<Item>)
    requires p.Valid()
    modifies p`readCursor, p`nextObjectIdx
    ensures p.Valid() && Read(ok, items, p.readCursor) == ReadItems(p.Seen(), old(p.readCursor), shapes)
  {
    hide ParcelCodec.ReadItem, ReadItems, Apart, Passed;
    items := [];
    var n := 0;
    ghost var v, c0 := p.Seen(), p.readCursor;
    assert shapes[0..] == shapes;
    BehindNothing(ReadItems(v, c0, shapes));
    while n < |shapes|
      invariant 0 <= n <= |shapes| && p.Valid() && p.Seen() == v
      invariant Behind(items, ReadItems(v, p.readCursor, shapes[n..])) == ReadItems(v, c0, shapes)
    {
      ghost var c, s, rest := p.readCursor, shapes[n], shapes[n + 1..];
      assert shapes[n..] == [s] + rest;
      ItemsUnfold(v, c, s, rest);
      var i;
      ok, i := ReadItem(p, shapes[n]);
      if !ok {
        return false, [];
      }
      BehindStep(items, i, ReadItems(v, p.readCursor, rest));
      items, n := items + [i], n + 1;
    }
    NothingAsked(v, p.readCursor);
    assert shapes[n..] == [] && items + [] == items;
    return true, items;
  }

  lemma NothingAsked(v: View, c: nat)
    ensures ReadItems(v, c, []) == Read(true, [], c)
  {
  }

  /**
   * Any items at all: they can be written to a new parcel exactly when their encoding fits its maximum, and then
   * reading gives the same items and stops at the end of the data, whatever objects stand among them.
   */
  method Exchange(items: seq<Item>, maxCapacity: nat) returns (ok: bool, received: seq<Item>, p: Parcel)
    requires AllWritable(items)
    ensures p.Valid()
    ensures ok == (|EncodeAll(items)| <= if maxCapacity > DEFAULT_CAPACITY then maxCapacity else DEFAULT_CAPACITY)
    ensures ok ==> p.Contents() == EncodeAll(items) && received == items && p.readCursor == p.dataSize
  {
    hide EncodeAll, ReadItems, Offsets, Apart, Passed, Shapes;
    p := new Parcel();
    var raised := p.SetMaxCapacity(maxCapacity);
    ok := WriteAll(p, items);
    received := [];
    NothingLeft(0);
    if ok {
      assert [] + EncodeAll(items) == EncodeAll(items) && [] + Offsets(items, 0) == Offsets(items, 0);
      RoundTrip(items, p.dataCapacity);
      ok, received := ReadAll(p, Shapes(items));
    } else {
      NotNothing(items);
    }
  }

  lemma NotNothing(items: seq<Item>)
    requires items != [] && AllWritable(items)
    ensures |EncodeAll(items)| > 0
  {
    ItemIsNotEmpty(items[0]);
  }
}
