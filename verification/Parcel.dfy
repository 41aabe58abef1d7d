/** The parcel itself: a growing buffer with a write end, a read cursor and a table of object offsets. */
module ParcelBuffer {
  import opened Arithmetic
  import opened ParcelCodec

  const DEFAULT_CAPACITY: nat := 204800
  const CAPACITY_THRESHOLD: nat := 4096

  /** The length of a string as the code sees it: a size_t converted to a 32-bit int. */
  function Length32(n: nat): int { Cast(Int32, n) }

  /** The value that a write of v sends: a string is cut at its length modulo 2^32. */
  function Sent(v: Value): Value {
    match v
    case Text(s) => if 0 <= Length32(|s|) <= |s| then Text(s[..Length32(|s|)]) else v
    case Text16(u) => if 0 <= Length32(|u|) <= |u| then Text16(u[..Length32(|u|)]) else v
    case _ => v
  }

  /** Whether a write accepts v at all: a string whose length is negative or too big as a 32-bit int is refused. */
  predicate Accepted(v: Value) {
    match v
    case Text(s) => 0 <= Length32(|s|) < INT32_MAX
    case Text16(u) => 0 <= Length32(|u|) <= INT32_MAX / 2 - 1
    case Plain(k, n) => InRange(k, n)
    case Widened(k, n) => Width(k) <= 2 && InRange(k, n)
  }

  /** A scalar argument has a value of its C++ type. */
  predicate OfItsType(v: Value) { v.Text? || v.Text16? || Fitting(v) }

  /** The bytes that WriteCString copies: the string and its zero, less what the 32-bit length leaves out. */
  function CStringSent(value: seq<Byte>): seq<Byte> {
    if 0 <= Length32(|value|) <= |value| then (value + [0])[..Length32(|value|) + 1] else []
  }

  /** A value is accepted and arrives whole if and only if its length fits the int32_t that carries it. */
  lemma SentIsWhole(v: Value)
    requires OfItsType(v)
    ensures Fitting(v) <==> Accepted(v) && Sent(v) == v
  {
    Powers();
    if v.Text? {
      assert v.s[..|v.s|] == v.s;
    } else if v.Text16? {
      assert v.u[..|v.u|] == v.u;
    }
  }

  /** Every other string that is accepted has 2^32 units or more, and arrives as its first length modulo 2^32 units. */
  lemma LongStringIsCut(v: Value)
    requires OfItsType(v) && Accepted(v) && !Fitting(v)
    ensures v.Text? || v.Text16?
    ensures v.Text? ==> |v.s| >= 0x1_0000_0000 && Sent(v) == Text(v.s[..|v.s| % 0x1_0000_0000]) != v
    ensures v.Text16? ==> |v.u| >= 0x1_0000_0000 && Sent(v) == Text16(v.u[..|v.u| % 0x1_0000_0000]) != v
  {
    Powers();
  }

  /** 2^32 units, for one, are accepted and arrive as the empty string. */
  lemma EmptiedStrings(s: seq<Byte>, u: seq<Char16>)
    requires |s| == |u| == 0x1_0000_0000
    ensures Accepted(Text(s)) && Sent(Text(s)) == Text([]) && Accepted(Text16(u)) && Sent(Text16(u)) == Text16([])
  {
    LongStringIsCut(Text(s));
    LongStringIsCut(Text16(u));
  }

  /**
    * An accepted C string is copied with its terminator if and only if its length fits.  If it does not, the
    * padding may still end it, early; with a copy of a multiple of four bytes there is none, and a read runs on.
    */
  lemma CStringSentExactly(value: seq<Byte>)
    requires 0 !in value && Accepted(Text(value))
    ensures CStringSent(value) == value + [0] <==> |value| < INT32_MAX
    ensures 0 !in CStringSent(value) <==> |value| >= INT32_MAX
    ensures |value| >= INT32_MAX && Length32(|value|) % 4 == 3 ==>
      Length32(|value|) < |value| && Padded(CStringSent(value)) == value[..Length32(|value|) + 1]
    ensures 0 in Padded(CStringSent(value)) <==> |value| < INT32_MAX || Length32(|value|) % 4 != 3
  {
    Powers();
    var n, sent := Length32(|value|), CStringSent(value);
    if |value| < INT32_MAX {
      assert (value + [0])[..n + 1] == value + [0] && (value + [0])[n] == 0;
      assert Padded(sent)[n] == 0;
    } else {
      assert sent == value[..n + 1];
      NoZeroBefore(value, n + 1);
      if n % 4 == 3 {
        assert PadSize(n + 1) == 0 && Padded(sent) == sent;
      } else {
        assert PadSize(n + 1) > 0 && Padded(sent)[n + 1] == 0;
      }
    }
  }

  /** 2^32 + 3 bytes, for one, are written as four bytes without an end: what follows is read as part of the string. */
  lemma CStringRunsOn(value: seq<Byte>, before: seq<Byte>, after: seq<Byte>)
    requires 0 !in value && |value| == 0x1_0000_0003
    ensures Accepted(Text(value)) && Padded(CStringSent(value)) == value[..4]
    ensures FindZero(before + value[..4] + after, |before|) >= |before| + 4
  {
    hide Padded, CStringSent, Length32, FindZero;
    ThreeLeft();
    CStringSentExactly(value);
    NoZeroBefore(value, 4);
    NoEndIn(before, value[..4], after);
  }

  lemma ThreeLeft()
    ensures Length32(0x1_0000_0003) == 3
  {
    Powers();
  }

  lemma NoEndIn(before: seq<Byte>, b: seq<Byte>, after: seq<Byte>)
    requires 0 !in b
    ensures FindZero(before + b + after, |before|) >= |before| + |b|
  {
    hide FindZero;
    var all, e := before + b + after, FindZero(before + b + after, |before|);
    assert forall k :: |before| <= k < |before| + |b| ==> all[k] == b[k - |before|] && b[k - |before|] in b;
  }

  lemma NoZeroBefore(value: seq<Byte>, n: nat)
    requires 0 !in value && n <= |value|
    ensures 0 !in value[..n]
  {
  }

  /** Objects lie one after the other, and all of them inside the first size bytes. */
  ghost predicate Apart(objects: seq<nat>, size: nat) {
    && (forall i, j :: 0 <= i < j < |objects| ==> objects[i] + OBJECT_SIZE <= objects[j])
    && (forall i :: 0 <= i < |objects| ==> objects[i] + OBJECT_SIZE <= size)
  }

  /** The first n objects end at or before c. */
  ghost predicate Passed(objects: seq<nat>, n: nat, c: nat) {
    n <= |objects| && forall k :: 0 <= k < n ==> objects[k] + OBJECT_SIZE <= c
  }

  /**
    * A Parcelable: a remote one that marshals itself as one flattened block or fails to, a local one that writes a
    * buffer and says whether that is all, or none.
    */
  datatype Parcelable =
    | NoObject | Remote(block: seq<Byte>) | Failing(part: seq<Byte>) | Local(part: seq<Byte>, complete: bool)

  class Parcel {
    var data: array?<Byte>
    var readCursor: nat
    var writeCursor: nat
    var dataSize: nat
    var dataCapacity: nat
    var maxDataCapacity: nat
    /** objectOffsets_ up to objectCursor_. */
    var objects: seq<nat>
    var nextObjectIdx: nat
    var writable: bool

    ghost predicate Valid()
      reads this
    {
      && (data == null ==> dataCapacity == 0 && readCursor == 0) && (data != null ==> data.Length == dataCapacity)
      && writeCursor <= dataSize <= dataCapacity && (writable ==> writeCursor == dataSize)
      && maxDataCapacity >= DEFAULT_CAPACITY
      && Apart(objects, dataSize) && Passed(objects, nextObjectIdx, readCursor)
    }

    ghost function Contents(): (b: seq<Byte>)
      requires Valid()
      reads this, data
      ensures |b| == dataSize
    {
      if data == null then [] else data[..dataSize]
    }

    ghost function Seen(): View
      requires Valid()
      reads this, data
    {
      View(Contents(), objects, dataCapacity)
    }

    /** The size up to which the buffer can be made to grow. */
    ghost function Limit(): nat
      reads this
    {
      if dataCapacity > maxDataCapacity then dataCapacity else maxDataCapacity
    }

    /** n more bytes are to be had. */
    ghost predicate CanHold(n: nat)
      reads this
    {
      writable && if n == 0 then data != null else writeCursor + n <= Limit()
    }

    /** e has been added at the write end, and the room that is left has shrunk by as much. */
    twostate predicate Appended(e: seq<Byte>)
      requires old(Valid())
      reads this, data
    {
      && Valid() && Contents() == old(Contents()) + e
      && Limit() == old(Limit()) && (old(data) != null ==> data != null) && (e != [] ==> data != null)
    }

    /** A write that failed may leave a part of e behind, but nothing before it changes. */
    twostate predicate Spilled()
      requires old(Valid())
      reads this, data
    {
      && Valid() && old(Contents()) <= Contents()
      && Limit() == old(Limit()) && (old(data) != null ==> data != null)
    }

    constructor ()
      ensures Valid() && Contents() == [] && objects == [] && readCursor == 0
      ensures writable && Limit() == DEFAULT_CAPACITY && data == null
    {
      data, readCursor, writeCursor, dataSize, dataCapacity := null, 0, 0, 0, 0;
      maxDataCapacity, objects, nextObjectIdx, writable := DEFAULT_CAPACITY, [], 0, true;
    }

    /** Take over bytes from elsewhere, which can be read but not added to. */
    method ParseFrom(bytes: array<Byte>) returns (ok: bool)
      requires Valid()
      modifies this
      ensures Valid() && ok == (old(data) == null)
      ensures ok ==> Contents() == bytes[..] && readCursor == 0 && objects == [] && forall n :: !CanHold(n)
      ensures !ok ==> Contents() == old(Contents()) && Seen() == old(Seen()) && readCursor == old(readCursor)
    {
      if data != null {
        return false;
      }
      data, dataCapacity, dataSize := bytes, bytes.Length, bytes.Length;
      writable := false;
      nextObjectIdx, objects := 0, [];
      return true;
    }

    // ---- room ------------------------------------------------------------------------------------

    method SetMaxCapacity(maxCapacity: nat) returns (ok: bool)
      requires Valid()
      modifies this`maxDataCapacity
      ensures Valid() && ok == (maxCapacity > old(maxDataCapacity))
      ensures maxDataCapacity == if ok then maxCapacity else old(maxDataCapacity)
    {
      ok := maxCapacity > maxDataCapacity;
      if ok {
        maxDataCapacity := maxCapacity;
      }
    }

    /** A capacity of the caller's choice, more than the data and even more than the maximum. */
    method SetDataCapacity(newCapacity: nat) returns (ok: bool)
      requires Valid()
      modifies this`data, this`dataCapacity
      ensures Valid() && ok == (newCapacity > dataSize) && Contents() == old(Contents())
      ensures if ok then data != null && fresh(data) && dataCapacity == newCapacity
              else data == old(data) && dataCapacity == old(dataCapacity)
      ensures ok ==> forall n :: CanHold(n) <==>
        writable && (writeCursor + n <= newCapacity || (n > 0 && writeCursor + n <= maxDataCapacity))
    {
      if dataSize >= newCapacity {
        return false;
      }
      var newData := new Byte[newCapacity];
      if data != null {
        forall i | 0 <= i < dataSize {
          newData[i] := data[i];
        }
        assert newData[..dataSize] == data[..dataSize];
      }
      data, dataCapacity := newData, newCapacity;
      return true;
    }

    /** The next capacity: at least what is needed and at most the maximum, unless the need exceeds it. */
    method CalcNewCapacity(minNewCapacity: nat) returns (c: nat)
      requires maxDataCapacity >= DEFAULT_CAPACITY
      ensures if minNewCapacity <= maxDataCapacity then minNewCapacity <= c <= maxDataCapacity else c == maxDataCapacity
    {
      var threshold := CAPACITY_THRESHOLD;
      if minNewCapacity == threshold {
        return threshold;
      }
      if minNewCapacity > threshold {
        c := minNewCapacity / threshold * threshold;
        if c > maxDataCapacity - threshold {
          c := maxDataCapacity;
        } else {
          c := c + threshold;
        }
        return;
      }
      c := 64;
      while c < minNewCapacity
        invariant c < 2 * CAPACITY_THRESHOLD
        decreases minNewCapacity - c
      {
        c := c * 2;
      }
      if c > maxDataCapacity {
        c := maxDataCapacity;
      }
    }

    /** With an allocator that does not fail, n more bytes are available exactly when CanHold says so. */
    method EnsureWritableCapacity(n: nat) returns (ok: bool)
      requires Valid()
      modifies this`data, this`dataCapacity
      ensures Valid() && Contents() == old(Contents()) && Limit() == old(Limit())
      ensures ok == old(CanHold(n))
      ensures ok ==> data != null && n <= dataCapacity - writeCursor
      ensures data == old(data) || (ok && fresh(data) && old(dataCapacity) < dataCapacity <= maxDataCapacity)
    {
      if !writable {
        return false;
      }
      if n <= dataCapacity - writeCursor {
        return data != null;
      }
      var minNewCapacity := n + writeCursor;
      var newCapacity := CalcNewCapacity(minNewCapacity);
      if newCapacity <= dataCapacity || newCapacity < minNewCapacity {
        return false;
      }
      var newData := new Byte[newCapacity];
      if data != null {
        forall i | 0 <= i < dataCapacity {
          newData[i] := data[i];
        }
        assert newData[..dataSize] == data[..dataSize];
      }
      data, dataCapacity := newData, newCapacity;
      return true;
    }

    // ---- writing bytes -------------------------------------------------------------------------------

    method WriteDataBytes(bytes: seq<Byte>) returns (ok: bool)
      requires Valid() && writable && data != null
      modifies this`writeCursor, this`dataSize, data
      ensures Valid() && ok == (|bytes| <= dataCapacity - old(writeCursor))
      ensures Contents() == if ok then old(Contents()) + bytes else old(Contents())
    {
      if |bytes| > dataCapacity - writeCursor {
        return false;
      }
      ghost var was := Contents();
      forall i | 0 <= i < |bytes| {
        data[writeCursor + i] := bytes[i];
      }
      assert data[..writeCursor + |bytes|] == was + bytes;
      writeCursor, dataSize := writeCursor + |bytes|, dataSize + |bytes|;
      return true;
    }

    /** Padding: the last padSize bytes of the 32-bit word that ends with it are masked out of that word. */
    method WritePadBytes(padSize: nat)
      requires Valid() && writable && data != null && padSize < 4
      requires padSize <= dataCapacity - writeCursor && writeCursor + padSize >= 4
      modifies this`writeCursor, this`dataSize, data
      ensures Valid() && Contents() == old(Contents()) + Zeros(padSize)
    {
      ghost var was := data[..];
      var at := writeCursor + padSize - 4;
      var word := FromBytes(data[at..at + 4]);
      // mask[padSize] keeps the low 4 - padSize bytes of a little-endian word
      var masked := ToBytes(word % Pow256(4 - padSize), 4);
      MaskedBytes(data[at..at + 4], 4 - padSize);
      forall i | 0 <= i < 4 {
        data[at + i] := masked[i];
      }
      assert data[..writeCursor + padSize] == was[..writeCursor] + Zeros(padSize) by {
        assert forall k :: at <= k < at + 4 ==> data[k] == masked[k - at];
        assert forall k :: at <= k < writeCursor ==> was[k] == was[at..at + 4][k - at];
      }
      writeCursor, dataSize := writeCursor + padSize, dataSize + padSize;
    }

    method WriteBuffer(bytes: seq<Byte>) returns (ok: bool)
      requires Valid()
      modifies this`data, this`dataCapacity, this`writeCursor, this`dataSize, data
      ensures data == old(data) || fresh(data)
      ensures ok == (bytes != [] && old(CanHold(|Padded(bytes)|)))
      ensures if ok then Appended(Padded(bytes)) else Appended([])
    {
      hide PadSize, Zeros, Apart, Passed;
      if bytes == [] {
        return false;
      }
      var padSize := PadSize(|bytes|);
      ok := EnsureWritableCapacity(|bytes| + padSize);
      if ok {
        var wrote := WriteDataBytes(bytes);
        WritePadBytes(padSize);
        Assoc(old(Contents()), bytes, Zeros(padSize));
      }
    }

    /** body, a zero of typeSize bytes, and padding for both. */
    method WriteBufferAddTerminator(body: seq<Byte>, typeSize: nat) returns (ok: bool)
      requires Valid() && 1 <= typeSize <= 4
      modifies this`data, this`dataCapacity, this`writeCursor, this`dataSize, data
      ensures data == old(data) || fresh(data)
      ensures var e := Padded(body + Zeros(typeSize));
        ok == old(CanHold(|e|)) && if ok then Appended(e) else Appended([])
    {
      hide PadSize, Zeros, Padded, Apart, Passed;
      var padSize := PadSize(|body| + typeSize);
      PadReaches(|body| + typeSize);
      PaddedParts(old(Contents()), body, Zeros(typeSize));
      ok := EnsureWritableCapacity(|body| + typeSize + padSize);
      if ok {
        AppendTerminated(body, typeSize, padSize);
      }
    }

    method AppendTerminated(body: seq<Byte>, typeSize: nat, padSize: nat)
      requires Valid() && writable && data != null && padSize < 4 && |body| + typeSize + padSize >= 4
      requires |body| + typeSize + padSize <= dataCapacity - writeCursor
      modifies this`writeCursor, this`dataSize, data
      ensures Valid() && Contents() == ((old(Contents()) + body) + Zeros(typeSize)) + Zeros(padSize)
    {
      hide Zeros, Apart, Passed;
      var wrote := WriteDataBytes(body);
      wrote := WriteDataBytes(Zeros(typeSize));
      WritePadBytes(padSize);
    }

    /** Write<T>. */
    method WriteScalar(v: int, width: nat) returns (ok: bool)
      requires Valid() && width > 0
      modifies this`data, this`dataCapacity, this`writeCursor, this`dataSize, data
      ensures data == old(data) || fresh(data)
      ensures ok == old(CanHold(width))
      ensures if ok then Appended(ToBytes(v, width)) else Appended([])
    {
      ok := EnsureWritableCapacity(width);
      if ok {
        var wrote := WriteDataBytes(ToBytes(v, width));
      }
    }

    // ---- typed writes --------------------------------------------------------------------------------

    /** The common part of the string writes: the length, then the body with its terminator. */
    method WriteCounted(n: int, body: seq<Byte>, typeSize: nat) returns (ok: bool)
      requires Valid() && 1 <= typeSize <= 4
      modifies this`data, this`dataCapacity, this`writeCursor, this`dataSize, data
      ensures data == old(data) || fresh(data)
      ensures ok == old(CanHold(|ToBytes(n, 4) + Padded(body + Zeros(typeSize))|))
      ensures if ok then Appended(ToBytes(n, 4) + Padded(body + Zeros(typeSize))) else Spilled()
    {
      hide Zeros, ToBytes, Apart, Passed, Padded;
      ok := WriteScalar(n, 4);
      if ok {
        ok := WriteBufferAddTerminator(body, typeSize);
        Assoc(old(Contents()), ToBytes(n, 4), Padded(body + Zeros(typeSize)));
      }
    }

    method WriteString(value: seq<Byte>) returns (ok: bool)
      requires Valid()
      modifies this`data, this`dataCapacity, this`writeCursor, this`dataSize, data
      ensures data == old(data) || fresh(data)
      ensures ok == (Accepted(Text(value)) && old(CanHold(|EncodeOne(Sent(Text(value)))|)))
      ensures if ok then Appended(EncodeOne(Sent(Text(value)))) else Spilled()
    {
      hide Padded, Zeros, ToBytes, Apart, Passed, CanHold;
      var n := Length32(|value|);
      if n < 0 || n >= INT32_MAX {
        return false;
      }
      CastDown(|value|);
      OneZero();
      hide Length32;
      ok := WriteCounted(n, value[..n], 1);
    }

    method WriteString16(value: seq<Char16>) returns (ok: bool)
      requires Valid()
      modifies this`data, this`dataCapacity, this`writeCursor, this`dataSize, data
      ensures data == old(data) || fresh(data)
      ensures ok == (Accepted(Text16(value)) && old(CanHold(|EncodeOne(Sent(Text16(value)))|)))
      ensures if ok then Appended(EncodeOne(Sent(Text16(value)))) else Spilled()
    {
      hide Padded, Zeros, ToBytes, Apart, Passed, CanHold;
      var n := Length32(|value|);
      if n < 0 || n > INT32_MAX / 2 - 1 {
        return false;
      }
      CastDown(|value|);
      OneZero();
      hide Length32;
      ok := WriteCounted(n, Units(value[..n]), 2);
    }

    /** The write that goes with v's kind; a padded scalar is written as 32 bits. */
    method WriteOne(v: Value) returns (ok: bool)
      requires Valid() && OfItsType(v)
      modifies this`data, this`dataCapacity, this`writeCursor, this`dataSize, data
      ensures data == old(data) || fresh(data)
      ensures ok == (Accepted(v) && old(CanHold(|EncodeOne(Sent(v))|)))
      ensures if ok then Appended(EncodeOne(Sent(v))) else Spilled()
    {
      hide InRange, CanHold, Length32, PadSize, ToBytes;
      match v
      case Plain(k, n) => ok := WriteScalar(n, Width(k));
      case Widened(_, n) => ok := WriteScalar(n, 4);
      case Text(s) => ok := WriteString(s);
      case Text16(u) => ok := WriteString16(u);
    }

    /** value has no zero in it: it ends where the C string ends. */
    method WriteCString(value: seq<Byte>) returns (ok: bool)
      requires Valid() && 0 !in value
      modifies this`data, this`dataCapacity, this`writeCursor, this`dataSize, data
      ensures data == old(data) || fresh(data)
      ensures ok == (Accepted(Text(value)) && old(CanHold(|Padded(CStringSent(value))|)))
      ensures if ok then Appended(Padded(CStringSent(value))) else Appended([])
    {
      hide PadSize, Zeros, Apart, Passed;
      var n := Length32(|value|);
      if n < 0 || n >= INT32_MAX {
        return false;
      }
      CastDown(|value|);
      ok := WriteBuffer((value + [0])[..n + 1]);
    }

    /** The elements of a vector, one write each, up to the first that fails. */
    method WriteElements(vs: seq<Value>) returns (ok: bool)
      requires Valid() && data != null && forall k :: 0 <= k < |vs| ==> OfItsType(vs[k])
      modifies this`data, this`dataCapacity, this`writeCursor, this`dataSize, data
      ensures data == old(data) || fresh(data)
      ensures ok == (AllAccepted(vs) && (vs == [] || old(CanHold(|Flat(AllSent(vs))|))))
      ensures if ok then Appended(Flat(AllSent(vs))) else Spilled()
    {
      hide EncodeOne, Sent, Accepted, Flat, AllSent, AllAccepted, Apart, Passed;
      ghost var all, done := Flat(AllSent(vs)), [];
      ghost var ahead := all;
      var i := 0;
      ok := true;
      assert vs[0..] == vs;
      while i < |vs|
        invariant 0 <= i <= |vs| && data != null && (data == old(data) || fresh(data))
        invariant Appended(done) && all == done + ahead
        invariant (AllAccepted(vs) <==> AllAccepted(vs[i..])) && ahead == Flat(AllSent(vs[i..]))
        invariant i == 0 || old(CanHold(|done|))
        invariant i == 0 ==> done == []
      {
        ghost var e, rest := EncodeOne(Sent(vs[i])), vs[i + 1..];
        assert vs[i..] == [vs[i]] + rest;
        SentStep(vs[i], rest);
        NotEmpty(Sent(vs[i]));
        ok := WriteOne(vs[i]);
        if !ok {
          return;
        }
        Assoc(old(Contents()), done, e);
        Assoc(done, e, Flat(AllSent(rest)));
        done, ahead := done + e, Flat(AllSent(rest));
        i := i + 1;
      }
      SentNothing(vs[i..]);
      if |vs| == 0 {
        SentNothing(vs);
      }
    }

    /** A vector: its length, its elements, and padding by the size of the elements. */
    method WriteVector(e: Elem, vs: seq<Value>) returns (ok: bool)
      requires Valid() && forall k :: 0 <= k < |vs| ==> ElemOf(vs[k]) == e && OfItsType(vs[k])
      modifies this`data, this`dataCapacity, this`writeCursor, this`dataSize, data
      ensures data == old(data) || fresh(data)
      ensures ok == (|vs| <= INT32_MAX && AllAccepted(vs) && old(CanHold(|EncodeVector(e, AllSent(vs))|)))
      ensures if ok then Appended(EncodeVector(e, AllSent(vs))) else Spilled()
    {
      hide PadSize, ToBytes, Flat, EncodeVector, AllSent, AllAccepted, Zeros, Apart, Passed;
      VectorParts(old(Contents()), e, vs);
      if |vs| > INT32_MAX {
        return false;
      }
      ok := WriteScalar(|vs|, 4);
      if ok {
        ok := WriteVectorBody(e, vs);
      }
    }

    method WriteVectorBody(e: Elem, vs: seq<Value>) returns (ok: bool)
      requires Valid() && writable && data != null && writeCursor >= 4
      requires forall k :: 0 <= k < |vs| ==> ElemOf(vs[k]) == e && OfItsType(vs[k])
      modifies this`data, this`dataCapacity, this`writeCursor, this`dataSize, data
      ensures data == old(data) || fresh(data)
      ensures ok == (AllAccepted(vs) && old(CanHold(|VectorBody(e, vs)|)))
      ensures if ok then Appended(VectorBody(e, vs)) else Spilled()
    {
      hide PadSize, Flat, AllSent, AllAccepted, Zeros, Apart, Passed;
      if |vs| == 0 {
        SentNothing(vs);
      }
      ok := WriteElements(vs);
      if ok {
        var padSize := PadSize(|vs| * SizeOf(e));
        ok := Pad(padSize);
        Assoc(old(Contents()), Flat(AllSent(vs)), Zeros(padSize));
      }
    }

    /** Room for the padding, and the padding. */
    method Pad(padSize: nat) returns (ok: bool)
      requires Valid() && padSize < 4 <= writeCursor
      modifies this`data, this`dataCapacity, this`writeCursor, this`dataSize, data
      ensures data == old(data) || fresh(data)
      ensures ok == old(CanHold(padSize))
      ensures if ok then Appended(Zeros(padSize)) else Spilled()
    {
      hide Apart, Passed;
      ok := EnsureWritableCapacity(padSize);
      if ok {
        WritePadBytes(padSize);
      }
    }

    // ---- the object table ----------------------------------------------------------------------------

    /** The check that guards basic reads: it starts at nextObjectIdx, and gives what a scan of all objects would. */
    method ValidateReadData(upperBound: nat) returns (ok: bool)
      requires Valid() && readCursor <= upperBound
      modifies this`nextObjectIdx
      ensures Valid() && ok == !Overlaps(objects, readCursor, upperBound)
    {
      if |objects| == 0 {
        return true;
      }
      if nextObjectIdx < |objects| && upperBound > objects[nextObjectIdx] {
        var nextObj := nextObjectIdx;
        while true
          invariant nextObjectIdx <= nextObj < |objects| && upperBound > objects[nextObj]
          invariant Passed(objects, nextObj, readCursor)
          decreases |objects| - nextObj
        {
          if readCursor < objects[nextObj] + OBJECT_SIZE {
            return false;
          }
          nextObj := nextObj + 1;
          if !(nextObj < |objects| && upperBound > objects[nextObj]) {
            break;
          }
        }
        nextObjectIdx := nextObj;
      }
      return true;
    }

    method WriteObjectOffset(offset: nat) returns (ok: bool)
      modifies this`objects
      ensures ok == (offset <= dataSize && offset !in old(objects))
      ensures objects == if ok then old(objects) + [offset] else old(objects)
    {
      if offset > dataSize {
        return false;
      }
      var index := 0;
      while index < |objects|
        invariant 0 <= index <= |objects| && offset !in objects[..index]
      {
        if objects[index] == offset {
          return false;
        }
        index := index + 1;
      }
      objects := objects + [offset];
      return true;
    }

    /**
      * A remote object marshals itself; its offset is the write position before that.  If it fails to, what it
      * has written stays, and nothing is recorded.
      */
    method WriteRemoteObject(target: Parcelable) returns (ok: bool)
      requires Valid() && (target.Remote? ==> |target.block| == OBJECT_SIZE)
      modifies this`data, this`dataCapacity, this`writeCursor, this`dataSize, this`objects, data
      ensures data == old(data) || fresh(data)
      ensures ok == (target.Remote? && old(CanHold(OBJECT_SIZE)))
      ensures ok ==> Appended(target.block)
      ensures !target.Failing? ==> ok || Appended([])
      ensures target.Failing? ==> Appended(Padded(target.part)) || Appended([])
      ensures objects == if ok then old(objects) + [old(dataSize)] else old(objects)
    {
      hide Padded, Zeros;
      match target {
        case NoObject =>
          return false;
        case Local(_, _) =>
          return false;
        case Failing(part) =>
          ok := WriteBuffer(part);
          return false;
        case Remote(block) =>
          ok := WriteBlock(block);
      }
    }

    /** A flattened object, and where it stands. */
    method WriteBlock(block: seq<Byte>) returns (ok: bool)
      requires Valid() && |block| == OBJECT_SIZE
      modifies this`data, this`dataCapacity, this`writeCursor, this`dataSize, this`objects, data
      ensures data == old(data) || fresh(data)
      ensures ok == old(CanHold(OBJECT_SIZE)) && if ok then Appended(block) else Appended([])
      ensures objects == if ok then old(objects) + [old(dataSize)] else old(objects)
    {
      hide Padded, Zeros;
      var placeholder := writeCursor;
      WholeBlock(block);
      ok := WriteBuffer(block);
      if ok {
        assert forall k :: 0 <= k < |objects| ==> objects[k] + OBJECT_SIZE <= placeholder;
        var added := WriteObjectOffset(placeholder);
      }
    }

    /**
      * A flag, and the object if there is one. If a remote object cannot be written nothing is left of the flag; if a
      * local one fails, the flag stays, and what the object has written.
      */
    method WriteParcelable(target: Parcelable) returns (ok: bool)
      requires Valid() && (target.Remote? ==> |target.block| == OBJECT_SIZE)
      modifies this`data, this`dataCapacity, this`writeCursor, this`dataSize, this`objects, data
      ensures data == old(data) || fresh(data)
      ensures Valid() && Limit() == old(Limit())
      ensures ok == match target
        case NoObject => old(CanHold(4))
        case Failing(_) => false
        case Remote(_) => old(CanHold(4 + OBJECT_SIZE))
        case Local(part, complete) => complete && old(CanHold(4 + if part == [] then 0 else |Padded(part)|))
      ensures ok && target.NoObject? ==> Contents() == old(Contents()) + ToBytes(0, 4) && objects == old(objects)
      ensures ok && target.Remote? ==>
        Contents() == old(Contents()) + ToBytes(1, 4) + target.block && objects == old(objects) + [old(dataSize) + 4]
      ensures !ok && !target.Local? ==> Contents() == old(Contents()) && objects == old(objects)
      ensures target.Local? ==> objects == old(objects) && Contents() == old(Contents()) + LocalSent(target.part,
        old(CanHold(4)), old(CanHold(4 + |Padded(target.part)|)))
    {
      hide Padded, ToBytes, Apart, Passed, Zeros, PadSize, LocalSent;
      match target {
        case NoObject =>
          ok := WriteScalar(0, 4);
          Nothing(old(Contents()));
        case Local(part, complete) =>
          ok := WriteLocal(part, complete);
        case _ =>
          ok := WriteFlagged(target);
      }
    }

    /** The flag and a remote object, or nothing. */
    method WriteFlagged(target: Parcelable) returns (ok: bool)
      requires Valid() && (target.Remote? || target.Failing?) && (target.Remote? ==> |target.block| == OBJECT_SIZE)
      modifies this`data, this`dataCapacity, this`writeCursor, this`dataSize, this`objects, data
      ensures data == old(data) || fresh(data)
      ensures Valid() && Limit() == old(Limit()) && ok == (target.Remote? && old(CanHold(4 + OBJECT_SIZE)))
      ensures ok ==>
        Contents() == old(Contents()) + ToBytes(1, 4) + target.block && objects == old(objects) + [old(dataSize) + 4]
      ensures !ok ==> Contents() == old(Contents()) && objects == old(objects)
    {
      hide Padded, ToBytes, Apart, Passed, Zeros, PadSize;
      var restoreSize := dataSize;
      ok := WriteScalar(1, 4);
      Nothing(old(Contents()));
      if ok {
        ok := WriteOrRollback(target, restoreSize, old(Contents()), ToBytes(1, 4));
      }
    }

    /** The flag, and what a local object writes behind it. */
    method WriteLocal(part: seq<Byte>, complete: bool) returns (ok: bool)
      requires Valid()
      modifies this`data, this`dataCapacity, this`writeCursor, this`dataSize, data
      ensures data == old(data) || fresh(data)
      ensures Valid() && Limit() == old(Limit())
      ensures ok == (complete && old(CanHold(4 + if part == [] then 0 else |Padded(part)|)))
      ensures Contents() == old(Contents()) + LocalSent(part, old(CanHold(4)), old(CanHold(4 + |Padded(part)|)))
    {
      hide Padded, ToBytes, Apart, Passed, Zeros, PadSize;
      Nothing(old(Contents()));
      ok := WriteScalar(1, 4);
      if ok {
        var wrote := WriteBuffer(part);
        ok := complete && (part == [] || wrote);
        Assoc(old(Contents()), ToBytes(1, 4), Padded(part));
        Nothing(old(Contents()) + ToBytes(1, 4));
      }
    }

    /** The object behind its flag; if that fails, the flag is taken back as well. */
    method WriteOrRollback(target: Parcelable, restoreSize: nat, ghost was: seq<Byte>, ghost flag: seq<Byte>)
      returns (ok: bool)
      requires Valid() && (target.Remote? ==> |target.block| == OBJECT_SIZE) && (target.Remote? || target.Failing?)
      requires writable && Contents() == was + flag && |was| == restoreSize && Apart(objects, restoreSize)
      modifies this`data, this`dataCapacity, this`writeCursor, this`dataSize, this`objects, data
      ensures data == old(data) || fresh(data)
      ensures Valid() && Limit() == old(Limit()) && ok == (target.Remote? && old(CanHold(OBJECT_SIZE)))
      ensures ok ==> Contents() == was + flag + target.block && objects == old(objects) + [restoreSize + |flag|]
      ensures !ok ==> Contents() == was && objects == old(objects)
    {
      hide Padded, Apart, Passed;
      ok := WriteRemoteObject(target);
      if !ok {
        assert Contents()[..restoreSize] == was;
        writeCursor := restoreSize;
        dataSize := restoreSize;
      }
    }

    /** CheckOffsets: whether an object starts at the read cursor and lies inside the data. */
    method CheckOffsets() returns (ok: bool)
      requires Valid()
      ensures ok == (readCursor + OBJECT_SIZE <= dataSize && readCursor in objects)
    {
      if readCursor + OBJECT_SIZE > dataSize {
        return false;
      }
      var objCount := 0;
      while objCount < |objects|
        invariant 0 <= objCount <= |objects| && readCursor !in objects[..objCount]
      {
        if objects[objCount] == readCursor {
          return true;
        }
        objCount := objCount + 1;
      }
      return false;
    }

    /** Forget everything from newPosition on, and every object that is not wholly before it. */
    method RewindWrite(newPosition: nat) returns (ok: bool)
      requires Valid()
      modifies this`writeCursor, this`dataSize, this`objects, this`nextObjectIdx
      ensures Valid() && ok == (newPosition <= old(dataSize))
      ensures Contents() == if ok then old(Contents())[..newPosition] else old(Contents())
      ensures objects <= old(objects) && (!ok ==> objects == old(objects))
      ensures forall k :: |objects| <= k < |old(objects)| ==> old(objects)[k] + OBJECT_SIZE > newPosition
      ensures nextObjectIdx == old(nextObjectIdx) || nextObjectIdx == 0
    {
      if newPosition > dataSize {
        return false;
      }
      writeCursor, dataSize := newPosition, newPosition;
      if |objects| == 0 {
        return true;
      }
      var objectSize := |objects|;
      if objects[objectSize - 1] + OBJECT_SIZE > newPosition {
        while objectSize > 0
          invariant 0 <= objectSize <= |objects|
          invariant forall k :: objectSize <= k < |objects| ==> objects[k] + OBJECT_SIZE > newPosition
        {
          if objects[objectSize - 1] + OBJECT_SIZE <= newPosition {
            break;
          }
          objectSize := objectSize - 1;
        }
        // ClearObjects when none is left, otherwise the table shrinks to what is left
        objects, nextObjectIdx := objects[..objectSize], 0;
      }
      return true;
    }

    method RewindRead(newPosition: nat) returns (ok: bool)
      requires Valid()
      modifies this`readCursor, this`nextObjectIdx
      ensures Valid() && ok == (newPosition <= dataSize)
      ensures readCursor == if ok then newPosition else old(readCursor)
    {
      if newPosition > dataSize {
        return false;
      }
      readCursor, nextObjectIdx := newPosition, 0;
      return true;
    }

    // ---- reading -------------------------------------------------------------------------------------------

    function GetReadableBytes(): (n: nat)
      reads this
    {
      if dataSize > readCursor then dataSize - readCursor else 0
    }

    method SkipBytes(n: nat)
      requires Valid()
      modifies this`readCursor
      ensures Valid() && readCursor == Skip(Seen(), old(readCursor), n)
    {
      if GetReadableBytes() >= n {
        readCursor := readCursor + n;
      } else if readCursor < dataCapacity {
        readCursor := dataCapacity;
      }
    }

    lemma ContentsSlice(i: nat, j: nat)
      requires Valid() && data != null && i <= j <= dataSize
      ensures data[i..j] == Contents()[i..j]
    {
      assert data[..dataSize][i..j] == data[i..j];
    }

    /** Read<T>(value), and 0 for a value that could not be read. */
    method ReadScalar(k: Kind) returns (ok: bool, v: int)
      requires Valid()
      modifies this`readCursor, this`nextObjectIdx
      ensures Valid() && Read(ok, v, readCursor) == ReadPlain(Seen(), old(readCursor), k)
      ensures Passed(objects, nextObjectIdx, old(readCursor))
    {
      hide Cast, FromBytes, Apart;
      var w := Width(k);
      if w > GetReadableBytes() {
        return false, 0;
      }
      ok := ValidateReadData(readCursor + w);
      readCursor := readCursor + w;
      if !ok {
        return false, 0;
      }
      ContentsSlice(readCursor - w, readCursor);
      v := Cast(k, FromBytes(data[readCursor - w..readCursor]));
    }

    method ReadPadded(k: Kind) returns (ok: bool, v: int)
      requires Valid()
      modifies this`readCursor, this`nextObjectIdx
      ensures Valid() && Read(ok, v, readCursor) == ReadWidened(Seen(), old(readCursor), k)
    {
      hide Cast, ReadPlain;
      ok, v := ReadScalar(Int32);
      if ok {
        v := Cast(k, v);
      }
    }

    /** The n bytes at the cursor, which moves even over bytes that may not be read. */
    method BasicReadBuffer(n: nat) returns (ok: bool)
      requires Valid() && n <= GetReadableBytes()
      modifies this`readCursor, this`nextObjectIdx
      ensures Valid() && ok == MayRead(Seen(), old(readCursor), n) && readCursor == old(readCursor) + n
      ensures Passed(objects, nextObjectIdx, old(readCursor))
    {
      ok := ValidateReadData(readCursor + n);
      readCursor := readCursor + n;
    }

    /** The body of a string whose length has just been read at oldCursor, to which a failure returns. */
    method ReadStringBody(n: nat, oldCursor: nat) returns (ok: bool, s: seq<Byte>)
      requires Valid() && readCursor == oldCursor + 4
      requires Passed(objects, nextObjectIdx, oldCursor) && !Overlaps(objects, oldCursor, readCursor)
      modifies this`readCursor, this`nextObjectIdx
      ensures Valid() && Read(ok, s, readCursor) == ReadTextBody(Seen(), old(readCursor), n, oldCursor)
    {
      hide PadSize, Apart, Skip, Passed, Overlaps;
      var start := readCursor;
      if n + 1 <= GetReadableBytes() {
        ok := BasicReadBuffer(n + 1);
        PassedBack(objects, nextObjectIdx, oldCursor, start);
        if ok {
          ContentsSlice(start, start + n);
          SkipBytes(PadSize(n + 1));
          if data[start + n] == 0 {
            return true, data[start..start + n];
          }
        }
      }
      readCursor := oldCursor;
      return false, [];
    }

    method ReadString() returns (ok: bool, s: seq<Byte>)
      requires Valid()
      modifies this`readCursor, this`nextObjectIdx
      ensures Valid() && Read(ok, s, readCursor) == ReadText(Seen(), old(readCursor))
    {
      hide Apart, ReadPlain, ReadTextBody, Overlaps, Passed;
      var oldCursor, n := readCursor, 0;
      ok, n := ReadScalar(Int32);
      LengthWasRead(Seen(), oldCursor, ok);
      if !ok || n < 0 || n >= INT32_MAX {
        return false, [];
      }
      ok, s := ReadStringBody(n, oldCursor);
    }

    method ReadString16Body(n: nat, oldCursor: nat) returns (ok: bool, u: seq<Char16>)
      requires Valid() && readCursor == oldCursor + 4
      requires Passed(objects, nextObjectIdx, oldCursor) && !Overlaps(objects, oldCursor, readCursor)
      modifies this`readCursor, this`nextObjectIdx
      ensures Valid() && Read(ok, u, readCursor) == ReadText16Body(Seen(), old(readCursor), n, oldCursor)
    {
      hide PadSize, Apart, FromUnits, Skip, Passed, Overlaps, ReadText16Body;
      Text16Read(Seen(), readCursor, n, oldCursor);
      if 2 * n + 2 <= GetReadableBytes() {
        ok, u := ReadUnits(n, oldCursor);
        if ok {
          return;
        }
      }
      readCursor := oldCursor;
      return false, [];
    }

    /** The units and their terminator, with the padding; the cursor moves on even if there is none. */
    method ReadUnits(n: nat, ghost oldCursor: nat) returns (ok: bool, u: seq<Char16>)
      requires Valid() && 2 * n + 2 <= GetReadableBytes() && readCursor == oldCursor + 4
      requires Passed(objects, nextObjectIdx, oldCursor) && !Overlaps(objects, oldCursor, readCursor)
      modifies this`readCursor, this`nextObjectIdx
      ensures Valid() && Passed(objects, nextObjectIdx, oldCursor) && data != null
      ensures ok == Text16Here(Seen(), old(readCursor), n)
      ensures ok ==> u == FromUnits(Contents()[old(readCursor)..old(readCursor) + 2 * n + 2], n)
      ensures ok ==> readCursor == Skip(Seen(), old(readCursor) + 2 * n + 2, PadSize(2 * n + 2))
    {
      hide PadSize, Apart, FromUnits, Skip, Passed, Overlaps, MayRead;
      var start, size := readCursor, 2 * n + 2;
      ghost var seen := Seen();
      ok := BasicReadBuffer(size);
      PassedBack(objects, nextObjectIdx, oldCursor, start);
      assert Seen() == seen;
      if !ok {
        return false, [];
      }
      ContentsSlice(start, start + size);
      SkipBytes(PadSize(size));
      assert Seen() == seen;
      hide Contents;
      if data[start + 2 * n] != 0 || data[start + 2 * n + 1] != 0 {
        return false, [];
      }
      return true, FromUnits(data[start..start + size], n);
    }

    method ReadString16() returns (ok: bool, u: seq<Char16>)
      requires Valid()
      modifies this`readCursor, this`nextObjectIdx
      ensures Valid() && Read(ok, u, readCursor) == ReadText16(Seen(), old(readCursor))
    {
      hide Apart, ReadPlain, ReadText16Body, Overlaps, Passed;
      var oldCursor, n := readCursor, 0;
      ok, n := ReadScalar(Int32);
      LengthWasRead(Seen(), oldCursor, ok);
      if !ok || n < 0 || n >= INT32_MAX {
        return false, [];
      }
      ok, u := ReadString16Body(n, oldCursor);
    }

    method ReadOne(e: Elem) returns (ok: bool, v: Value)
      requires Valid()
      modifies this`readCursor, this`nextObjectIdx
      ensures Valid() && Read(ok, v, readCursor) == ParcelCodec.ReadOne(Seen(), old(readCursor), e)
    {
      hide ReadPlain, ReadWidened, ReadText, ReadText16;
      match e {
        case APlain(k) =>
          var n;
          ok, n := ReadScalar(k);
          v := Plain(k, n);
        case AWidened(k) =>
          var n;
          ok, n := ReadPadded(k);
          v := Widened(k, n);
        case AText =>
          var s;
          ok, s := ReadString();
          v := Text(s);
        case AText16 =>
          var u;
          ok, u := ReadString16();
          v := Text16(u);
      }
    }

    /** The scan for the terminator. */
    method FindTerminator() returns (end: nat)
      requires Valid() && readCursor < dataSize
      ensures end <= dataSize && end == FindZero(Contents(), readCursor)
    {
      hide Apart, Overlaps;
      end := readCursor;
      while end < dataSize && data[end] != 0
        invariant readCursor <= end <= dataSize && FindZero(Contents(), readCursor) == FindZero(Contents(), end)
      {
        end := end + 1;
      }
    }

    method ReadCString() returns (ok: bool, s: seq<Byte>)
      requires Valid()
      modifies this`readCursor, this`nextObjectIdx
      ensures Valid() && Read(ok, s, readCursor) == ParcelCodec.ReadCString(Seen(), old(readCursor))
    {
      hide PadSize, Skip, Apart, Overlaps, FindZero;
      var c := readCursor;
      if readCursor >= dataSize {
        return false, [];
      }
      var end := FindTerminator();
      if end == dataSize {
        return false, [];
      }
      ok := ValidateReadData(end + 1);
      if !ok {
        return false, [];
      }
      readCursor := end + 1;
      SkipBytes(PadSize(end + 1 - c));
      ContentsSlice(c, end);
      return true, data[c..end];
    }

    method ReadUnpadBuffer(n: nat) returns (ok: bool, b: seq<Byte>)
      requires Valid()
      modifies this`readCursor, this`nextObjectIdx
      ensures Valid() && Read(ok, b, readCursor) == ParcelCodec.ReadUnpadBuffer(Seen(), old(readCursor), n)
    {
      hide PadSize, Apart, Overlaps;
      if n > GetReadableBytes() {
        return false, [];
      }
      var c := readCursor;
      ok := ValidateReadData(c + n);
      if !ok {
        return false, [];
      }
      readCursor := c + n;
      SkipBytes(PadSize(n));
      if n > 0 {
        ContentsSlice(c, c + n);
      }
      return true, if n == 0 then [] else data[c..c + n];
    }

    /** Read<T>(): 0 if there is nothing to read. */
    method ReadInt32() returns (n: int)
      requires Valid()
      modifies this`readCursor, this`nextObjectIdx
      ensures Valid()
      ensures var r := ReadPlain(Seen(), old(readCursor), Int32);
        n == (if r.ok then r.value else 0) && readCursor == r.cursor
    {
      hide ReadPlain;
      var ok;
      ok, n := ReadScalar(Int32);
      if !ok {
        n := 0;
      }
    }

    /** n elements; a scalar that cannot be read ends it, a string that cannot be read counts as empty. */
    method ReadElements(e: Elem, n: nat) returns (ok: bool, vs: seq<Value>)
      requires Valid()
      modifies this`readCursor, this`nextObjectIdx
      ensures Valid() && Read(ok, vs, readCursor) == ReadElems(Seen(), old(readCursor), e, n)
    {
      hide Apart, Overlaps, ParcelCodec.ReadOne;
      var i := 0;
      vs := [];
      ghost var v, c0 := Seen(), readCursor;
      BehindNothing(ReadElems(v, c0, e, n));
      while i < n
        invariant 0 <= i <= n && Valid() && Seen() == v
        invariant ReadElems(v, c0, e, n) == Behind(vs, ReadElems(v, readCursor, e, n - i))
      {
        ghost var c := readCursor;
        var x;
        ok, x := ReadOne(e);
        ElemsUnfold(v, c, e, n - i);
        if !ok && !IsString(e) {
          return false, [];
        }
        hide ReadElems;
        BehindStep(vs, x, ReadElems(v, readCursor, e, n - i - 1));
        vs, i := vs + [x], i + 1;
      }
      assert vs + [] == vs;
      return true, vs;
    }

    method ReadVector(e: Elem) returns (ok: bool, vs: seq<Value>)
      requires Valid() && !IsString(e)
      modifies this`readCursor, this`nextObjectIdx
      ensures Valid() && Read(ok, vs, readCursor) == ParcelCodec.ReadVector(Seen(), old(readCursor), e)
    {
      hide ReadPlain, ReadElems, PadSize, Apart, Passed, SizeOf, Skip;
      ghost var seen := Seen();
      var n := ReadInt32();
      assert Seen() == seen;
      if n < 0 {
        return false, [];
      }
      if n > GetReadableBytes() / SizeOf(e) {
        return false, [];
      }
      ok, vs := ReadElements(e, n);
      assert Seen() == seen;
      if ok {
        SkipBytes(PadSize(n * SizeOf(e)));
      }
    }

    /** ReadStringVector and ReadString16Vector. */
    method ReadStringVector(e: Elem) returns (ok: bool, vs: seq<Value>)
      requires Valid() && IsString(e)
      modifies this`readCursor, this`nextObjectIdx
      ensures Valid() && Read(ok, vs, readCursor) == ParcelCodec.ReadVector(Seen(), old(readCursor), e)
    {
      hide ReadPlain, ReadElems, PadSize, Apart;
      var n := ReadInt32();
      if n < 0 {
        return false, [];
      }
      if n > GetReadableBytes() {
        return false, [];
      }
      ok, vs := ReadElements(e, n);
    }

    /** ReadObject: the block is read without the check that guards other reads. */
    method ReadObject() returns (ok: bool, block: seq<Byte>)
      requires Valid()
      modifies this`readCursor
      ensures Valid() && Read(ok, block, readCursor) == ParcelCodec.ReadObject(Seen(), old(readCursor))
    {
      ok := CheckOffsets();
      if !ok {
        return false, [];
      }
      var c := readCursor;
      readCursor := c + OBJECT_SIZE;
      ContentsSlice(c, c + OBJECT_SIZE);
      block := data[c..c + OBJECT_SIZE];
    }
  }

  /** Masking a little-endian word keeps its first n bytes and clears the others. */
  lemma {:induction false} MaskedBytes(b: seq<Byte>, n: nat)
    requires n <= |b|
    ensures ToBytes(FromBytes(b) % Pow256(n), |b|) == b[..n] + Zeros(|b| - n)
  {
    if n == 0 {
      ZeroBytes(|b|);
    } else {
      var rest := b[1..];
      MaskedBytes(rest, n - 1);
      MaskedOnce(b, n);
      hide ToBytes, FromBytes, Pow256;
      assert b[..n] == [b[0]] + rest[..n - 1];
    }
  }

  lemma MaskedOnce(b: seq<Byte>, n: nat)
    requires 0 < n <= |b|
    ensures ToBytes(FromBytes(b) % Pow256(n), |b|)
         == [b[0]] + ToBytes(FromBytes(b[1..]) % Pow256(n - 1), |b| - 1)
  {
    var f, p := FromBytes(b[1..]), Pow256(n - 1);
    var m := f % p;
    assert FromBytes(b) == b[0] + 256 * f && Pow256(n) == 256 * p;
    hide ToBytes, FromBytes, Pow256;
    Digit(b[0], f);
    ModStep(b[0] + 256 * f, p);
    Digit(b[0], m);
    BytesStep(b[0] + 256 * m, |b|);
  }

  lemma Digit(d: Byte, f: nat)
    ensures (d + 256 * f) % 256 == d && (d + 256 * f) / 256 == f
  {
  }

  lemma ZeroBytes(w: nat)
    ensures ToBytes(0, w) == Zeros(w)
  {
    assert forall i: nat :: ByteAt(0, i) == 0;
  }

  predicate AllAccepted(vs: seq<Value>) { vs == [] || (Accepted(vs[0]) && AllAccepted(vs[1..])) }

  function AllSent(vs: seq<Value>): (r: seq<Value>)
    ensures |r| == |vs|
  {
    if vs == [] then [] else [Sent(vs[0])] + AllSent(vs[1..])
  }

  lemma SentStep(v: Value, rest: seq<Value>)
    ensures AllAccepted([v] + rest) <==> Accepted(v) && AllAccepted(rest)
    ensures Flat(AllSent([v] + rest)) == EncodeOne(Sent(v)) + Flat(AllSent(rest))
  {
    var all := [v] + rest;
    assert all[0] == v && all[1..] == rest;
    assert AllSent(all)[0] == Sent(v) && AllSent(all)[1..] == AllSent(rest);
  }

  /** A non-negative 32-bit length never exceeds the real one. */
  lemma CastDown(n: nat)
    ensures Length32(n) <= n
  {
    Powers();
  }

  lemma OneZero()
    ensures Zeros(1) == [0] && Zeros(2) == [0, 0]
  {
  }

  lemma SentNothing(vs: seq<Value>)
    requires vs == []
    ensures AllAccepted(vs) && Flat(AllSent(vs)) == []
  {
  }

  lemma NotEmpty(v: Value)
    ensures |EncodeOne(v)| > 0
  {
  }

  lemma Assoc<T>(a: seq<T>, b: seq<T>, c: seq<T>)
    ensures (a + b) + c == a + (b + c)
  {
  }

  lemma PadReaches(n: nat)
    requires n > 0
    ensures PadSize(n) < 4 && n + PadSize(n) >= 4
  {
  }

  /** What comes behind the length of a vector. */
  function VectorBody(e: Elem, vs: seq<Value>): seq<Byte> {
    Flat(AllSent(vs)) + Zeros(PadSize(|vs| * SizeOf(e)))
  }

  lemma VectorParts(was: seq<Byte>, e: Elem, vs: seq<Value>)
    ensures (was + ToBytes(|vs|, 4)) + VectorBody(e, vs) == was + EncodeVector(e, AllSent(vs))
    ensures |EncodeVector(e, AllSent(vs))| == 4 + |VectorBody(e, vs)|
  {
    hide PadSize, Zeros, Flat, ToBytes;
    Assoc(was, ToBytes(|vs|, 4), VectorBody(e, vs));
  }

  lemma PaddedParts(was: seq<Byte>, body: seq<Byte>, end: seq<Byte>)
    ensures var p := PadSize(|body| + |end|);
      ((was + body) + end) + Zeros(p) == was + Padded(body + end) && |Padded(body + end)| == |body| + |end| + p
  {
    hide PadSize, Zeros;
    Regroup(was, body, end, Zeros(PadSize(|body| + |end|)));
  }

  lemma Regroup<T>(a: seq<T>, b: seq<T>, c: seq<T>, d: seq<T>)
    ensures ((a + b) + c) + d == a + (b + (c + d)) == a + ((b + c) + d)
  {
  }

  /** What a local object leaves: its flag if that fits, and its buffer if that fits as well. */
  function LocalSent(part: seq<Byte>, flag: bool, all: bool): seq<Byte> {
    if !flag then [] else if part == [] || !all then ToBytes(1, 4) else ToBytes(1, 4) + Padded(part)
  }

  lemma Nothing(b: seq<Byte>)
    ensures b + [] == b
  {
  }

  lemma WholeBlock(block: seq<Byte>)
    requires |block| == OBJECT_SIZE
    ensures Padded(block) == block
  {
    assert PadSize(OBJECT_SIZE) == 0;
    assert Zeros(0) == [] && block + [] == block;
  }

  /** A length that was read touched no object. */
  lemma LengthWasRead(v: View, c: nat, ok: bool)
    requires ok == ReadPlain(v, c, Int32).ok
    ensures ok ==> !Overlaps(v.objects, c, c + 4) && ReadPlain(v, c, Int32).cursor == c + 4
  {
  }

  /** So the objects that end before the body of a string end before its length as well. */
  /** n units and their terminator can be read at c. */
  predicate Text16Here(v: View, c: nat, n: nat) {
    MayRead(v, c, 2 * n + 2) && v.bytes[c + 2 * n] == 0 && v.bytes[c + 2 * n + 1] == 0
  }

  lemma Text16Read(v: View, c: nat, n: nat, back: nat)
    ensures ReadText16Body(v, c, n, back) ==
            if Text16Here(v, c, n)
            then Read(true, FromUnits(v.bytes[c..c + 2 * n + 2], n), Skip(v, c + 2 * n + 2, PadSize(2 * n + 2)))
            else Read(false, [], back)
  {
  }

  lemma PassedBack(objects: seq<nat>, n: nat, c: nat, start: nat)
    requires Passed(objects, n, start) && start == c + 4 && !Overlaps(objects, c, start)
    ensures Passed(objects, n, c)
  {
  }

  lemma ElemsUnfold(v: View, c: nat, e: Elem, n: nat)
    requires n > 0
    ensures var r := ParcelCodec.ReadOne(v, c, e);
      ReadElems(v, c, e, n) ==
      if !r.ok && !IsString(e) then Read(false, [], r.cursor)
      else
        var rest := ReadElems(v, r.cursor, e, n - 1);
        if rest.ok then rest.(value := [r.value] + rest.value) else rest
  {
    hide ParcelCodec.ReadOne;
  }
}
