/** Exactly when a read succeeds, on any bytes and whatever wrote them, and where it leaves the cursor if it fails. */
module ParcelReads {
  import opened Arithmetic
  import opened ParcelCodec
  import opened ParcelRoundTrip

  /** The bytes e stand at c, and no object reaches into them. */
  ghost predicate Stands(v: View, c: nat, e: seq<Byte>) { Holds(v, c, e) && Clear(v.objects, c, |e|) }

  lemma ClearOfObjects(objects: seq<nat>, c: nat, n: nat)
    ensures Clear(objects, c, n) <==> !Overlaps(objects, c, c + n)
  {
  }

  /** What stands at c is what the bytes there are. */
  lemma SliceHolds(v: View, c: nat, n: nat)
    requires c + n <= |v.bytes|
    ensures Holds(v, c, v.bytes[c..c + n])
  {
  }

  lemma HoldsBoth(v: View, c: nat, a: seq<Byte>, b: seq<Byte>)
    requires Holds(v, c, a) && Holds(v, c + |a|, b)
    ensures Holds(v, c, a + b)
  {
  }

  lemma ClearBoth(objects: seq<nat>, c: nat, n: nat, m: nat)
    ensures m > 0 && n > 0 ==> (Clear(objects, c, n + m) <==> Clear(objects, c, n) && Clear(objects, c + n, m))
  {
  }

  // ---- scalars --------------------------------------------------------------------------------------

  /** Any bytes are those of the number they make. */
  lemma {:induction false} BytesAre(b: seq<Byte>)
    ensures ToBytes(FromBytes(b), |b|) == b && FromBytes(b) < Pow256(|b|)
  {
    if b != [] {
      BytesAre(b[1..]);
      BytesStep(FromBytes(b), |b|);
      assert FromBytes(b) % 256 == b[0] && FromBytes(b) / 256 == FromBytes(b[1..]);
    }
  }

  /** In two's complement. */
  lemma {:induction false} BytesWrap(n: int, w: nat)
    ensures ToBytes(n - Pow256(w), w) == ToBytes(n, w)
    decreases w
  {
    if w > 0 {
      var m := n - Pow256(w);
      assert m == n - 256 * Pow256(w - 1);
      BytesStep(m, w);
      BytesStep(n, w);
      assert m % 256 == n % 256 && m / 256 == n / 256 - Pow256(w - 1);
      BytesWrap(n / 256, w - 1);
    }
  }

  /** What a scalar reads as is the value of its type that has these bytes; for a bool, whether one is not 0. */
  lemma CastOfBytes(k: Kind, b: seq<Byte>)
    requires |b| == Width(k)
    ensures var x := Cast(k, FromBytes(b));
      InRange(k, x) && (if k == Bool then x == 0 <==> b == [0] else ToBytes(x, |b|) == b)
  {
    var n, p := FromBytes(b), Pow256(Width(k));
    BytesAre(b);
    BytesWrap(n, |b|);
    Powers();
    if k == Bool {
      assert n == b[0] && (b == [0] <==> b[0] == 0);
    } else {
      ModIs(n, p, 0, n);
    }
  }

  /** A scalar is read exactly if its bytes are there and touch no object; refused for an object, it is passed over. */
  lemma PlainExactly(v: View, c: nat, k: Kind)
    ensures var r, w := ReadPlain(v, c, k), Width(k);
      && (r.ok <==> c + w <= |v.bytes| && Clear(v.objects, c, w))
      && (r.ok && k != Bool ==> InRange(k, r.value) && Stands(v, c, ToBytes(r.value, w)))
      && (r.ok && k == Bool ==> r.value in {0, 1} && (r.value == 0 <==> Stands(v, c, [0])))
      && (!r.ok ==> r.value == 0)
      && r.cursor == if c + w <= |v.bytes| then c + w else c
  {
    var w := Width(k);
    ClearOfObjects(v.objects, c, w);
    if c + w <= |v.bytes| {
      CastOfBytes(k, v.bytes[c..c + w]);
    }
  }

  // ---- strings ----------------------------------------------------------------------------------------

  /** A length that ReadString goes on with: it stands at c, and is neither negative nor INT32_MAX. */
  ghost predicate LengthAt(v: View, c: nat, n: int) {
    0 <= n < INT32_MAX && Stands(v, c, ToBytes(n, 4))
  }

  lemma LengthIs(v: View, c: nat, n: int)
    ensures var r := ReadPlain(v, c, Int32); LengthAt(v, c, n) <==> r.ok && 0 <= n < INT32_MAX && r.value == n
  {
    var r := ReadPlain(v, c, Int32);
    PlainExactly(v, c, Int32);
    Powers();
    if LengthAt(v, c, n) {
      PlainReads(v, c, Int32, n);
    }
  }

  /** A string with its length and its terminator. */
  ghost predicate TextAt(v: View, c: nat, s: seq<Byte>) {
    |s| < INT32_MAX && Stands(v, c, ToBytes(|s|, 4) + s + [0])
  }

  ghost predicate Text16At(v: View, c: nat, s: seq<Char16>) {
    |s| < INT32_MAX && Stands(v, c, ToBytes(|s|, 4) + Units(s) + [0, 0])
  }

  /** Where a read ends that has got n bytes of what is padded: behind the padding, if the data goes that far. */
  function Behind(v: View, c: nat, n: nat): nat {
    var pad := PadSize(n);
    if c + n + pad <= |v.bytes| then c + n + pad else if c + n < v.capacity then v.capacity else c + n
  }

  /** Where a string read that fails leaves the cursor: at its beginning, unless the length itself was no good. */
  ghost predicate BackFrom(v: View, c: nat, cursor: nat) {
    if exists n :: LengthAt(v, c, n) then cursor == c
    else cursor == if c + 4 <= |v.bytes| then c + 4 else c
  }

  lemma Skips(v: View, c: nat, n: nat)
    requires c + n <= |v.bytes|
    ensures Skip(v, c + n, PadSize(n)) == Behind(v, c, n)
  {
  }

  /** A body, with n bytes of text and a terminator, behind its length. */
  lemma BodyStands(v: View, c: nat, n: int, body: seq<Byte>)
    requires 0 <= n < INT32_MAX && body != []
    ensures Stands(v, c, ToBytes(n, 4) + body) <==> LengthAt(v, c, n) && Stands(v, c + 4, body)
  {
    hide ToBytes;
    var b := ToBytes(n, 4);
    ClearBoth(v.objects, c, 4, |body|);
    if Holds(v, c, b + body) {
      Parts(v, c, b, body);
    }
    if Holds(v, c, b) && Holds(v, c + 4, body) {
      HoldsBoth(v, c, b, body);
    }
  }

  lemma EndsWithZero(v: View, c: nat, n: nat)
    ensures (MayRead(v, c, n + 1) && v.bytes[c + n] == 0) <==>
      exists s :: |s| == n && Stands(v, c, s + [0])
    ensures forall s :: |s| == n && Stands(v, c, s + [0]) ==> v.bytes[c..c + n] == s
  {
    ClearOfObjects(v.objects, c, n + 1);
    if MayRead(v, c, n + 1) && v.bytes[c + n] == 0 {
      var s := v.bytes[c..c + n];
      assert v.bytes[c..c + (n + 1)] == s + [0];
      assert |s| == n && Stands(v, c, s + [0]);
    }
    forall s: seq<Byte> | |s| == n && Stands(v, c, s + [0])
      ensures v.bytes[c..c + n] == s && v.bytes[c + n] == 0
    {
      Parts(v, c, s, [0]);
      assert v.bytes[c + n..c + n + 1][0] == 0;
    }
  }

  lemma ReadableTo(v: View, c: nat, n: nat)
    requires MayRead(v, c, n) && n > 0
    ensures c + n <= |v.bytes|
  {
  }

  /** The length as it is read, if it is one to go on with. */
  lemma TheLength(v: View, c: nat)
    ensures var l := ReadPlain(v, c, Int32);
      && (forall n :: LengthAt(v, c, n) <==> l.ok && 0 <= l.value < INT32_MAX && n == l.value)
      && l.cursor == (if c + 4 <= |v.bytes| then c + 4 else c) && (l.ok ==> l.cursor == c + 4)
  {
    hide ReadPlain, LengthAt;
    PlainExactly(v, c, Int32);
    var l := ReadPlain(v, c, Int32);
    forall n ensures LengthAt(v, c, n) <==> l.ok && 0 <= l.value < INT32_MAX && n == l.value {
      LengthIs(v, c, n);
    }
  }

  lemma TextBodyExactly(v: View, c: nat, n: nat, back: nat)
    ensures var r := ReadTextBody(v, c, n, back);
      && (r.ok <==> exists s :: |s| == n && Stands(v, c, s + [0]))
      && (forall s :: |s| == n && Stands(v, c, s + [0]) ==> r.value == s)
      && (r.ok ==> |r.value| == n && r.cursor == Behind(v, c, n + 1))
      && (!r.ok ==> r.value == [] && r.cursor == back)
  {
    hide Stands, Skip, PadSize, Behind;
    EndsWithZero(v, c, n);
    if MayRead(v, c, n + 1) {
      ReadableTo(v, c, n + 1);
      Skips(v, c, n + 1);
    }
  }

  /** The strings that stand at c. */
  lemma TextsThere(v: View, c: nat, n: nat)
    requires LengthAt(v, c, n)
    ensures forall s :: TextAt(v, c, s) <==> |s| == n && Stands(v, c + 4, s + [0])
  {
    hide Stands, ReadPlain, TextAt, LengthAt;
    TheLength(v, c);
    forall s: seq<Byte> ensures TextAt(v, c, s) <==> |s| == n && Stands(v, c + 4, s + [0]) {
      TextInParts(v, c, s);
    }
  }

  lemma NoTexts(v: View, c: nat)
    requires forall n :: !LengthAt(v, c, n)
    ensures forall s :: !TextAt(v, c, s)
  {
    hide Stands, LengthAt;
    forall s: seq<Byte> ensures !TextAt(v, c, s) {
      TextInParts(v, c, s);
    }
  }

  lemma TextInParts(v: View, c: nat, s: seq<Byte>)
    ensures TextAt(v, c, s) <==> LengthAt(v, c, |s|) && Stands(v, c + 4, s + [0])
  {
    hide ToBytes, Stands;
    if |s| < INT32_MAX {
      BodyStands(v, c, |s|, s + [0]);
      assert ToBytes(|s|, 4) + s + [0] == ToBytes(|s|, 4) + (s + [0]);
    }
  }

  /** ReadString gives s exactly if s stands there with its length and terminator; else nothing, and goes back. */
  lemma TextExactly(v: View, c: nat)
    ensures var r := ReadText(v, c);
      && (r.ok <==> exists s :: TextAt(v, c, s))
      && (forall s :: TextAt(v, c, s) ==> r.value == s)
      && (r.ok ==> r.cursor == Behind(v, c + 4, |r.value| + 1))
      && (!r.ok ==> r.value == [] && BackFrom(v, c, r.cursor))
  {
    hide LengthAt, TextAt, Stands, ReadPlain, ReadTextBody, Behind;
    TheLength(v, c);
    var l := ReadPlain(v, c, Int32);
    if l.ok && 0 <= l.value < INT32_MAX {
      assert LengthAt(v, c, l.value);
      TextsThere(v, c, l.value);
      TextBodyExactly(v, c + 4, l.value, c);
    } else {
      NoTexts(v, c);
    }
  }

  // ---- strings of 16-bit units -------------------------------------------------------------------------

  lemma {:induction false} UnitsOfAny(b: seq<Byte>, n: nat)
    requires 2 * n <= |b|
    ensures Units(FromUnits(b, n)) == b[..2 * n]
  {
    hide ToBytes;
    if n > 0 {
      var u := b[0] as int + 256 * b[1] as int;
      UnitBytes(u);
      UnitsOfAny(b[2..], n - 1);
      assert FromUnits(b, n)[0] == u && FromUnits(b, n)[1..] == FromUnits(b[2..], n - 1);
      assert b[..2 * n] == [b[0], b[1]] + b[2..][..2 * (n - 1)];
    }
  }

  lemma EndsWithZeros(v: View, c: nat, n: nat)
    ensures (MayRead(v, c, 2 * n + 2) && v.bytes[c + 2 * n] == 0 && v.bytes[c + 2 * n + 1] == 0) <==>
      exists u :: |u| == n && Stands(v, c, Units(u) + [0, 0])
    ensures forall u :: |u| == n && Stands(v, c, Units(u) + [0, 0]) ==>
      FromUnits(v.bytes[c..c + (2 * n + 2)], n) == u
  {
    hide Units, FromUnits;
    var size := 2 * n + 2;
    ClearOfObjects(v.objects, c, size);
    if MayRead(v, c, size) && v.bytes[c + 2 * n] == 0 && v.bytes[c + 2 * n + 1] == 0 {
      var u := UnitsThere(v, c, n);
    }
    forall u: seq<Char16> | |u| == n && Stands(v, c, Units(u) + [0, 0])
      ensures v.bytes[c + 2 * n] == 0 && v.bytes[c + 2 * n + 1] == 0 && FromUnits(v.bytes[c..c + size], n) == u
    {
      UnitsBack(u, [0, 0]);
      EndsIn(v, c, Units(u));
    }
  }

  lemma UnitsThere(v: View, c: nat, n: nat) returns (u: seq<Char16>)
    requires MayRead(v, c, 2 * n + 2) && v.bytes[c + 2 * n] == 0 && v.bytes[c + 2 * n + 1] == 0
    ensures |u| == n && Stands(v, c, Units(u) + [0, 0])
  {
    hide Units, FromUnits;
    var b := v.bytes[c..c + (2 * n + 2)];
    u := FromUnits(b, n);
    UnitsOfAny(b, n);
    assert b == b[..2 * n] + [0, 0];
    ClearOfObjects(v.objects, c, 2 * n + 2);
  }

  lemma EndsIn(v: View, c: nat, e: seq<Byte>)
    requires Stands(v, c, e + [0, 0])
    ensures c + |e| + 2 <= |v.bytes| && v.bytes[c..c + (|e| + 2)] == e + [0, 0]
    ensures v.bytes[c + |e|] == 0 && v.bytes[c + |e| + 1] == 0
  {
    EndOf(v, c, e + [0, 0], |e|);
  }

  lemma EndOf(v: View, c: nat, b: seq<Byte>, n: nat)
    requires Stands(v, c, b) && |b| == n + 2
    ensures c + n + 2 <= |v.bytes| && v.bytes[c..c + (n + 2)] == b
    ensures v.bytes[c + n] == b[n] && v.bytes[c + n + 1] == b[n + 1]
  {
    ParcelRoundTrip.ByteAt(v, c, b, n);
    ParcelRoundTrip.ByteAt(v, c, b, n + 1);
  }

  lemma Text16BodyExactly(v: View, c: nat, n: nat, back: nat)
    ensures var r := ReadText16Body(v, c, n, back);
      && (r.ok <==> exists u :: |u| == n && Stands(v, c, Units(u) + [0, 0]))
      && (forall u :: |u| == n && Stands(v, c, Units(u) + [0, 0]) ==> r.value == u)
      && (r.ok ==> |r.value| == n && r.cursor == Behind(v, c, 2 * n + 2))
      && (!r.ok ==> r.value == [] && r.cursor == back)
  {
    hide Stands, Skip, PadSize, Behind, Units, FromUnits;
    EndsWithZeros(v, c, n);
    if MayRead(v, c, 2 * n + 2) {
      ReadableTo(v, c, 2 * n + 2);
      Skips(v, c, 2 * n + 2);
    }
  }

  lemma Text16InParts(v: View, c: nat, u: seq<Char16>)
    ensures Text16At(v, c, u) <==> LengthAt(v, c, |u|) && Stands(v, c + 4, Units(u) + [0, 0])
  {
    hide ToBytes, Stands, Units;
    if |u| < INT32_MAX {
      BodyStands(v, c, |u|, Units(u) + [0, 0]);
      assert ToBytes(|u|, 4) + Units(u) + [0, 0] == ToBytes(|u|, 4) + (Units(u) + [0, 0]);
    }
  }

  lemma Texts16There(v: View, c: nat, n: nat)
    requires LengthAt(v, c, n)
    ensures forall u :: Text16At(v, c, u) <==> |u| == n && Stands(v, c + 4, Units(u) + [0, 0])
  {
    hide Stands, ReadPlain, Text16At, LengthAt, Units;
    TheLength(v, c);
    forall u: seq<Char16> ensures Text16At(v, c, u) <==> |u| == n && Stands(v, c + 4, Units(u) + [0, 0]) {
      Text16InParts(v, c, u);
    }
  }

  lemma NoTexts16(v: View, c: nat)
    requires forall n :: !LengthAt(v, c, n)
    ensures forall u :: !Text16At(v, c, u)
  {
    hide Stands, LengthAt;
    forall u: seq<Char16> ensures !Text16At(v, c, u) {
      Text16InParts(v, c, u);
    }
  }

  /** ReadString16, likewise. */
  lemma Text16Exactly(v: View, c: nat)
    ensures var r := ReadText16(v, c);
      && (r.ok <==> exists u :: Text16At(v, c, u))
      && (forall u :: Text16At(v, c, u) ==> r.value == u)
      && (r.ok ==> r.cursor == Behind(v, c + 4, 2 * |r.value| + 2))
      && (!r.ok ==> r.value == [] && BackFrom(v, c, r.cursor))
  {
    hide LengthAt, Text16At, Stands, ReadPlain, ReadText16Body, Behind;
    TheLength(v, c);
    var l := ReadPlain(v, c, Int32);
    if l.ok && 0 <= l.value < INT32_MAX {
      assert LengthAt(v, c, l.value);
      Texts16There(v, c, l.value);
      Text16BodyExactly(v, c + 4, l.value, c);
    } else {
      NoTexts16(v, c);
    }
  }

  // ---- C strings, buffers and objects ---------------------------------------------------------------------

  ghost predicate CStringAt(v: View, c: nat, s: seq<Byte>) { 0 !in s && Stands(v, c, s + [0]) }

  /** ReadCString gives what stands before the first zero; without a zero, or with an object in it, the cursor stays. */
  lemma CStringExactly(v: View, c: nat)
    ensures var r := ReadCString(v, c);
      && (r.ok <==> exists s :: CStringAt(v, c, s))
      && (forall s :: CStringAt(v, c, s) ==> r.value == s)
      && (r.ok ==> r.cursor == Behind(v, c, |r.value| + 1))
      && (!r.ok ==> r.value == [] && r.cursor == c)
  {
    hide FindZero, Skip, PadSize, Behind;
    var r := ReadCString(v, c);
    if c < |v.bytes| {
      var e := FindZero(v.bytes, c);
      if e < |v.bytes| {
        ClearOfObjects(v.objects, c, e + 1 - c);
        Skips(v, c, e + 1 - c);
        assert v.bytes[c..e + 1] == v.bytes[c..e] + [0];
        assert r.ok ==> CStringAt(v, c, v.bytes[c..e]);
      }
    }
    forall s: seq<Byte> | CStringAt(v, c, s) ensures r.ok && r.value == s {
      OneZeroOnly(v, c, s);
    }
  }

  lemma OneZeroOnly(v: View, c: nat, s: seq<Byte>)
    requires CStringAt(v, c, s)
    ensures c < |v.bytes| && FindZero(v.bytes, c) == c + |s| < |v.bytes| && v.bytes[c..c + |s|] == s
    ensures !Overlaps(v.objects, c, c + |s| + 1)
  {
    hide FindZero;
    Parts(v, c, s, [0]);
    ClearOfObjects(v.objects, c, |s| + 1);
    var e, f := c + |s|, FindZero(v.bytes, c);
    assert v.bytes[e..e + 1][0] == v.bytes[e] == 0;
    if f < e {
      ZeroInside(v.bytes, c, e, f);
    } else if f > e {
      ZeroInside(v.bytes, c, f, e);
    }
  }

  /** ReadUnpadBuffer gives the n bytes that stand there; if some are missing or in an object, the cursor stays. */
  lemma BufferExactly(v: View, c: nat, n: nat)
    ensures var r := ReadUnpadBuffer(v, c, n);
      && (n > 0 ==> (r.ok <==> exists b :: |b| == n && Stands(v, c, b)))
      && (n == 0 ==> (r.ok <==> Clear(v.objects, c, 0)))
      && (forall b :: |b| == n && Stands(v, c, b) ==> r.value == b)
      && (r.ok ==> |r.value| == n && (n > 0 ==> r.cursor == Behind(v, c, n)) && (n == 0 ==> r.cursor == c))
      && (!r.ok ==> r.value == [] && r.cursor == c)
  {
    ClearOfObjects(v.objects, c, n);
    if MayRead(v, c, n) && n > 0 {
      SliceHolds(v, c, n);
      assert |v.bytes[c..c + n]| == n;
      Skips(v, c, n);
    }
  }

  /** ReadObject gives the block only at the place of an object on record, and else the cursor stays. */
  lemma ObjectExactly(v: View, c: nat)
    ensures var r := ReadObject(v, c);
      && (r.ok <==> c in v.objects && exists b :: |b| == OBJECT_SIZE && Holds(v, c, b))
      && (forall b :: r.ok && |b| == OBJECT_SIZE && Holds(v, c, b) ==> r.value == b)
      && (r.cursor == if r.ok then c + OBJECT_SIZE else c) && (!r.ok ==> r.value == [])
  {
    if c + OBJECT_SIZE <= |v.bytes| {
      SliceHolds(v, c, OBJECT_SIZE);
      assert |v.bytes[c..c + OBJECT_SIZE]| == OBJECT_SIZE;
    }
  }

  // ---- vectors ------------------------------------------------------------------------------------------

  /** Narrowing keeps the number modulo the range of its type. */
  lemma CastMeans(k: Kind, n: int)
    ensures InRange(k, Cast(k, n))
    ensures if k == Bool then Cast(k, n) == 0 <==> n == 0 else (Cast(k, n) - n) % Pow256(Width(k)) == 0
  {
    Powers();
    if k != Bool {
      var p := Pow256(Width(k));
      var q := n / p;
      assert n == p * q + n % p;
      ModIs(Cast(k, n) - n, p, if Cast(k, n) == n % p then -q else -q - 1, 0);
    }
  }

  /** The small scalars are read as 32 bits and narrowed. */
  lemma WidenedExactly(v: View, c: nat, k: Kind, n: int)
    requires InRange(Int32, n) && Stands(v, c, ToBytes(n, 4))
    ensures ReadWidened(v, c, k) == Read(true, Cast(k, n), c + 4)
  {
    PlainReads(v, c, Int32, n);
  }

  lemma ScalarExactly(v: View, c: nat, e: Elem)
    requires !IsString(e)
    ensures var r, w := ReadOne(v, c, e), SizeOf(e);
      && (r.ok <==> c + w <= |v.bytes| && Clear(v.objects, c, w))
      && r.cursor == if c + w <= |v.bytes| then c + w else c
  {
    PlainExactly(v, c, if e.APlain? then e.kind else Int32);
  }

  /** The elements are read one after the other, the first at at[0]; a string that cannot be read counts as empty. */
  ghost predicate InTurn(v: View, e: Elem, vs: seq<Value>, at: seq<nat>) {
    && |at| == |vs| + 1
    && forall j :: 0 <= j < |vs| ==>
      var r := ReadOne(v, at[j], e); (r.ok || IsString(e)) && vs[j] == r.value && at[j + 1] == r.cursor
  }

  lemma InTurnMore(v: View, e: Elem, vs: seq<Value>, at: seq<nat>, c: nat)
    requires InTurn(v, e, vs, at) && at[0] == ReadOne(v, c, e).cursor && (ReadOne(v, c, e).ok || IsString(e))
    ensures InTurn(v, e, [ReadOne(v, c, e).value] + vs, [c] + at)
  {
    hide ReadOne;
    var ws, bt := [ReadOne(v, c, e).value] + vs, [c] + at;
    forall j | 0 <= j < |ws|
      ensures var r := ReadOne(v, bt[j], e); (r.ok || IsString(e)) && ws[j] == r.value && bt[j + 1] == r.cursor
    {
      if j > 0 {
        assert bt[j] == at[j - 1] && ws[j] == vs[j - 1] && bt[j + 1] == at[j - 1 + 1];
      }
    }
  }

  lemma {:induction false} ElemsInTurn(v: View, c: nat, e: Elem, n: nat) returns (at: seq<nat>)
    ensures var r := ReadElems(v, c, e, n);
      && (r.ok ==> |r.value| == n && InTurn(v, e, r.value, at) && at[0] == c && at[n] == r.cursor)
      && (!r.ok ==> r.value == [] && !IsString(e))
    decreases n
  {
    hide ReadOne, InTurn;
    var r := ReadElems(v, c, e, n);
    if n == 0 {
      at := [c];
      assert InTurn(v, e, [], [c]) by { InTurnNothing(v, e, c); }
    } else {
      var first := ReadOne(v, c, e);
      if first.ok || IsString(e) {
        var rest := ElemsInTurn(v, first.cursor, e, n - 1);
        if r.ok {
          InTurnMore(v, e, r.value[1..], rest, c);
          assert r.value == [first.value] + r.value[1..];
        }
        at := [c] + rest;
      } else {
        at := [c];
      }
    }
  }

  lemma InTurnNothing(v: View, e: Elem, c: nat)
    ensures InTurn(v, e, [], [c])
  {
  }

  /** Scalars: all of them, or up to the first that an object reaches into. */
  lemma {:induction false} ScalarsExactly(v: View, c: nat, e: Elem, n: nat)
    requires !IsString(e) && c + n * SizeOf(e) <= |v.bytes|
    ensures var r, w := ReadElems(v, c, e, n), SizeOf(e);
      && (r.ok <==> n == 0 || Clear(v.objects, c, n * w))
      && (r.ok ==> r.cursor == c + n * w && |r.value| == n)
      && (!r.ok ==> Stopped(v, c, w, n, r.cursor))
    decreases n
  {
    hide ReadOne, Clear, SizeOf;
    var w := SizeOf(e);
    if n > 0 {
      OneMore(n, w);
      MulPositive(w, n - 1);
      var first, r := ReadOne(v, c, e), ReadElems(v, c, e, n);
      ScalarExactly(v, c, e);
      if first.ok {
        ScalarsExactly(v, c + w, e, n - 1);
        ClearRest(v.objects, c, w, n);
        var rest := ReadElems(v, c + w, e, n - 1);
        if !rest.ok {
          var j: nat :| StopsAt(v, c + w, w, n - 1, j, rest.cursor);
          StopsLater(v, c, w, n, j, rest.cursor);
        }
      } else {
        ClearRest(v.objects, c, w, n);
        StopsHere(v, c, w, n);
      }
    }
  }

  /** Element j is the first that an object reaches into, and the cursor is behind it. */
  ghost predicate StopsAt(v: View, c: nat, w: nat, n: nat, j: nat, cursor: nat) {
    j < n && !Clear(v.objects, c + j * w, w) && (j == 0 || Clear(v.objects, c, j * w)) && cursor == c + j * w + w
  }

  ghost predicate Stopped(v: View, c: nat, w: nat, n: nat, cursor: nat) {
    exists j: nat :: StopsAt(v, c, w, n, j, cursor)
  }

  lemma StopsHere(v: View, c: nat, w: nat, n: nat)
    requires n > 0 && !Clear(v.objects, c, w)
    ensures StopsAt(v, c, w, n, 0, c + w)
  {
    assert 0 * w == 0;
  }

  lemma StopsLater(v: View, c: nat, w: nat, n: nat, j: nat, cursor: nat)
    requires n > 0 && w > 0 && StopsAt(v, c + w, w, n - 1, j, cursor) && Clear(v.objects, c, w)
    ensures StopsAt(v, c, w, n, j + 1, cursor)
  {
    hide Clear;
    OneMore(j + 1, w);
    ClearRest(v.objects, c, w, j + 1);
    if j == 0 {
      assert 1 * w == w;
    }
  }

  lemma ClearRest(objects: seq<nat>, c: nat, w: nat, n: nat)
    requires w > 0 && n > 0
    ensures Clear(objects, c, n * w) <==> Clear(objects, c, w) && (n == 1 || Clear(objects, c + w, (n - 1) * w))
  {
    OneMore(n, w);
    if n > 1 {
      MulStep(w, 0, n - 1);
      ClearBoth(objects, c, w, (n - 1) * w);
    }
  }

  /** A vector's count. */
  ghost predicate CountAt(v: View, c: nat, n: int) { InRange(Int32, n) && Stands(v, c, ToBytes(n, 4)) }

  lemma CountIs(v: View, c: nat, n: int)
    requires CountAt(v, c, n)
    ensures ReadPlain(v, c, Int32) == Read(true, n, c + 4) && c + 4 <= |v.bytes|
  {
    PlainReads(v, c, Int32, n);
  }

  /**
    * A vector of scalars is read exactly if its count is not negative and all of its elements are there and touch no
    * object; each is what a single read at its place gives. If it fails the cursor is behind the count, or behind the
    * first element that an object reaches into.
    */
  lemma ScalarVectorExactly(v: View, c: nat, e: Elem, n: int)
    requires !IsString(e) && CountAt(v, c, n)
    ensures var r, w := ReadVector(v, c, e), SizeOf(e);
      && (r.ok <==> n == 0 || (n > 0 && c + 4 + n * w <= |v.bytes| && Clear(v.objects, c + 4, n * w)))
      && (r.ok ==> |r.value| == n && r.cursor == Behind(v, c + 4, n * w))
      && (r.ok ==> exists at :: InTurn(v, e, r.value, at) && at[0] == c + 4)
      && (!r.ok ==> r.value == [])
      && (!r.ok && (n < 0 || c + 4 + n * w > |v.bytes|) ==> r.cursor == c + 4)
      && (!r.ok && n > 0 && c + 4 + n * w <= |v.bytes| ==> Stopped(v, c + 4, w, n, r.cursor))
  {
    hide ReadPlain, ReadElems, SizeOf, Clear, InTurn, Stopped, Skip, PadSize, Behind;
    CountIs(v, c, n);
    var w, room := SizeOf(e), Readable(v, c + 4);
    if n >= 0 {
      FitsExactly(n, w, room);
      if n * w <= room {
        ScalarsExactly(v, c + 4, e, n);
        var at := ElemsInTurn(v, c + 4, e, n);
        if ReadElems(v, c + 4, e, n).ok {
          Skips(v, c + 4, n * w);
        }
      }
    }
  }

  lemma FitsExactly(n: nat, w: nat, room: nat)
    requires w > 0
    ensures n <= room / w <==> n * w <= room
    ensures n * w >= 0
  {
    MulPositive(w, n);
    if n * w <= room {
      Fits(n, w, room);
    }
  }

  /**
    * A vector of strings is read exactly if its count is not negative and not more than the bytes behind it; each
    * string is what a single read gives that begins where the one before ended, and is empty if that read fails.
    */
  lemma StringVectorExactly(v: View, c: nat, e: Elem, n: int)
    requires IsString(e) && CountAt(v, c, n)
    ensures var r := ReadVector(v, c, e);
      && (r.ok <==> 0 <= n <= |v.bytes| - (c + 4))
      && (r.ok ==> |r.value| == n && exists at :: InTurn(v, e, r.value, at) && at[0] == c + 4 && at[n] == r.cursor)
      && (!r.ok ==> r.value == [] && r.cursor == c + 4)
  {
    hide ReadPlain, ReadElems, InTurn;
    CountIs(v, c, n);
    if n >= 0 {
      var at := ElemsInTurn(v, c + 4, e, n);
    }
  }

  /** Without a count that can be read, a vector is taken to be empty, and the read succeeds. */
  lemma NoCountIsEmpty(v: View, c: nat, e: Elem)
    requires forall n :: !CountAt(v, c, n)
    ensures ReadVector(v, c, e) == Read(true, [], if c + 4 <= |v.bytes| then c + 4 else c)
  {
    PlainExactly(v, c, Int32);
    hide ReadPlain;
    var r := ReadPlain(v, c, Int32);
    assert r.ok ==> CountAt(v, c, r.value);
    NoPadding(0);
    assert 0 * SizeOf(e) == 0;
  }
}
