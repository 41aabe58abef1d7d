/** The invariant of the reference-counting machine, and what follows from it for every run. */
module RefBaseProofs {
  import opened Basics
  import opened Sums
  import opened RefBase

  // ---- the tally of all threads ------------------------------------------------------------

  /** The tally after one thread moves from x to y. */
  ghost function Shift(t: Tally, x: Tally, y: Tally): Tally {
    Plus(t, Tally(
      strong := y.strong - x.strong, weak := y.weak - x.weak, refc := y.refc - x.refc,
      bias := y.bias - x.bias, first := y.first - x.first, keeping := y.keeping - x.keeping,
      acquiring := y.acquiring - x.acquiring, rising := y.rising - x.rising,
      publishing := y.publishing - x.publishing, dropping := y.dropping - x.dropping,
      lastStrong := y.lastStrong - x.lastStrong,
      lastWeak := y.lastWeak - x.lastWeak, finishing := y.finishing - x.finishing,
      unhooking := y.unhooking - x.unhooking, freeing := y.freeing - x.freeing, busy := y.busy - x.busy))
  }

  lemma {:induction false} AddUpShift(f: Pc -> Tally, ts: seq<Pc>, i: nat, pc: Pc)
    requires i < |ts|
    ensures AddUp(f, ts[i := pc]) == Shift(AddUp(f, ts), f(ts[i]), f(pc))
  {
    if i == 0 {
      assert ts[0 := pc][1..] == ts[1..];
    } else {
      assert ts[i := pc][1..] == ts[1..][i - 1 := pc];
      AddUpShift(f, ts[1..], i - 1, pc);
    }
  }

  /** x is part of t. */
  ghost predicate Within(x: Tally, t: Tally) {
    && 0 <= x.strong <= t.strong && 0 <= x.weak <= t.weak && 0 <= x.refc <= t.refc
    && 0 <= x.bias <= t.bias && 0 <= x.first <= t.first && 0 <= x.keeping <= t.keeping
    && 0 <= x.acquiring <= t.acquiring && 0 <= x.rising <= t.rising && 0 <= x.publishing <= t.publishing
    && 0 <= x.dropping <= t.dropping && 0 <= x.lastStrong <= t.lastStrong && 0 <= x.lastWeak <= t.lastWeak
    && 0 <= x.finishing <= t.finishing && 0 <= x.unhooking <= t.unhooking && 0 <= x.freeing <= t.freeing
    && 0 <= x.busy <= t.busy
  }

  /** How the shares nest: a strong share comes with a weak one, and so on. */
  ghost predicate Nested(t: Tally) {
    && 0 <= t.bias <= t.keeping <= t.strong <= t.weak <= t.busy && 0 <= t.lastStrong <= t.weak
    && 0 <= t.lastWeak <= t.finishing <= t.dropping && 0 <= t.publishing <= t.refc && 0 <= t.first
    && 0 <= t.rising <= t.acquiring && t.keeping + t.rising <= t.weak && 0 <= t.unhooking && 0 <= t.freeing
  }

  lemma {:induction false} AddUpNested(f: Pc -> Tally, ts: seq<Pc>)
    requires forall pc :: Nested(f(pc))
    ensures Nested(AddUp(f, ts))
  {
    if ts != [] {
      AddUpNested(f, ts[1..]);
    }
  }

  lemma {:induction false} AddUpCovers(f: Pc -> Tally, ts: seq<Pc>, i: nat)
    requires i < |ts| && forall pc :: Nested(f(pc))
    ensures Within(f(ts[i]), AddUp(f, ts))
  {
    assert Nested(f(ts[0])) && Nested(f(ts[i]));
    AddUpNested(f, ts[1..]);
    if i > 0 {
      AddUpCovers(f, ts[1..], i - 1);
    }
  }

  lemma WeightNested(pc: Pc)
    ensures Nested(Weight(pc))
  {
  }

  // ---- the invariant -----------------------------------------------------------------------

  /** Normal life-time, strong references have come and gone: there is no way back. */
  ghost predicate Dead(s: State) { !s.ext && !s.virgin && !s.bias && s.strong == 0 }

  ghost function Linkeds(s: State): int { Sum(IsLinked, s.wrcs) }

  /** What the three counters count; n WeakRefCounters are open. */
  ghost predicate Counts(s: State, t: Tally, n: int) {
    && s.sptrs >= 0 && s.sptrs + t.busy < BIAS
    && s.strong == s.sptrs + t.strong + (if s.bias then BIAS else 0)
    && s.weak == s.sptrs + n + t.weak
    && s.refc == OneIf(s.base) + n + t.refc
    && n >= 0
  }

  /** BIAS leaves `strong` once, by the hand of the first increment. */
  ghost predicate BiasOnce(s: State, t: Tally) {
    && t.bias == OneIf(s.bias && !s.virgin)
    && (s.virgin ==> s.bias && s.sptrs + t.strong == 0)
    && s.unbiased == OneIf(!s.bias)
    && 0 <= s.firsts && s.firsts + t.first <= OneIf(!s.virgin)
  }

  /** What the clients' discipline keeps: `weak` has not been 0 while somebody acquires, and he is supported, or the
      object is still with its creator; m WeakRefCounters have a wptr. */
  ghost predicate Backed(s: State, t: Tally, m: int) {
    && (t.acquiring + t.publishing > 0 ==> !s.drained)
    && (Supports(t, LivesOnWeak(s), s.sptrs + t.keeping, m) || (s.virgin && t.dropping == 0))
  }

  /** When the object is deleted. */
  ghost predicate ObjectLife(s: State, t: Tally) {
    && (!s.ext && t.lastStrong > 0 ==> Dead(s) && t.lastStrong == 1)
    && (s.virgin && !s.drained ==> s.deletes == 0)
    && (s.ext && !s.drained ==> s.deletes == 0)
    && (s.sptrs + t.strong >= 1 ==> s.deletes == 0)
    && (Dead(s) ==> s.deletes == 1 - t.lastStrong)
    && (s.drained && (s.ext || s.virgin) ==> s.deletes == 1 - t.lastWeak)
    && t.unhooking <= s.deletes
    && s.cb == (s.deletes == 0 || t.unhooking == 1)
  }

  /** When the RefCounter is deleted. */
  ghost predicate CounterLife(s: State, t: Tally) {
    && (s.drained ==> s.touched && s.weak == 0)
    && (s.weak == 0 && s.touched ==> s.drained)
    && (!s.touched ==> s.virgin && s.weak == 0)
    && t.finishing == OneIf(s.drained && s.base)
    && (!s.drained ==> s.base)
    && 0 <= s.frees && s.frees + t.freeing == OneIf(s.refc == 0)
  }

  /** What holds of the counters whether or not the clients keep to the discipline. */
  ghost predicate Sound(s: State, t: Tally, n: int) {
    !s.fault && Counts(s, t, n) && BiasOnce(s, t) && ObjectLife(s, t) && CounterLife(s, t)
  }

  ghost predicate Core(s: State, t: Tally, n: int, m: int) {
    Sound(s, t, n) && Backed(s, t, m) && m <= n
  }

  /** What a thread may rely on after reading `cur`, or after a test of the flag. */
  ghost predicate PcInv(s: State, pc: Pc) {
    match pc
    case Dec(p) => p.DecCallback? ==> Dead(s)
    case Weak(k, p) =>
      && (k.FromPromote? ==> Dead(s))
      && (p.WeakStrong? ==> s.drained && !s.ext)
      && (p.WeakCallback? ==> s.drained && (s.ext || s.virgin))
    case Del(o, p) =>
      && DeleterInv(s, o)
      && (p.DelWeak? ==> s.ext) && (p.DelStrong? ==> !s.ext)
    case Ref(c, _) => RefInv(s, c)
    case Pr(_, p) => PrInv(s, p)
    case _ => true
  }

  ghost predicate PrInv(s: State, p: PrPc) {
    match p
    case PrWeak(cur) => SeenInv(s, cur)
    case PrCas1(cur) => cur > 0 && cur != BIAS
    case PrFlag1(cur) => cur == BIAS
    case PrCas2(cur) => cur > 0
    case PrFlag2(cur) => (cur == 0 && (s.ext || Dead(s))) || (cur == BIAS && s.ext)
    case PrAdd => s.ext
    case PrFlag3(cur, got) => cur >= 0 && (!got ==> cur == 0 && Dead(s)) && (got && cur == 0 ==> s.ext)
    case _ => true
  }

  ghost predicate DeleterInv(s: State, o: Deleter) {
    if o.ByStrong? then Dead(s) else s.drained && (s.ext || s.virgin)
  }

  ghost predicate RefInv(s: State, c: RefCaller) {
    match c
    case InDestructor(o) => o.ByWeak? && s.drained && (s.ext || s.virgin)
    case InDecWeak(_) => s.drained && Dead(s)
    case InWrcDelete(_) => true
  }

  ghost predicate SeenInv(s: State, cur: int) { cur >= 0 && (cur == 0 ==> s.ext || Dead(s)) }

  /** WeakRefCounter w: its count is its wptrs and the drops under way; it is open while any is left. */
  ghost predicate WrcInv(s: State, w: nat) {
    WrcOk(s.wrcs, w, Sum(AtDrop(w), s.threads), Sum(UserOf(w), s.threads))
  }

  ghost predicate WrcOk(ws: seq<Wrc>, w: nat, drops: int, users: int) {
    if IsOpen(ws, w) then
      && ws[w].handles >= 0 && ws[w].count >= 1
      && ws[w].count == ws[w].handles + drops
      && (users > 0 ==> ws[w].handles >= 1)
    else drops == 0 && users == 0
  }

  ghost predicate Inv(s: State) {
    && Core(s, Total(s.threads), Linkeds(s), Lasting(s.wrcs))
    && (forall i :: 0 <= i < |s.threads| ==> PcInv(s, s.threads[i]))
    && (forall w: nat :: WrcInv(s, w))
  }

  // ---- one step keeps the scalar part --------------------------------------------------------

  ghost predicate Fits(s: State, t: Tally, n: int, pc: Pc) {
    Sound(s, t, n) && PcInv(s, pc) && Within(Weight(pc), t) && Nested(t) && (WptrOf(pc).Some? ==> n >= 1)
  }

  /** r, the outcome of a step at pc, satisfies the invariant; n1 WeakRefCounters are open after it. */
  ghost predicate KeptWith(s: State, t: Tally, n1: int, pc: Pc, r: (State, Pc)) {
    var t1 := Shift(t, Weight(pc), Weight(r.1));
    Nested(t1) ==> Sound(r.0, t1, n1) && PcInv(r.0, r.1) && Monotone(s, r.0)
  }

  /** What no step undoes; this is what makes PcInv safe from the other threads. */
  ghost predicate Monotone(s: State, s': State) {
    && (s.ext ==> s'.ext) && (Dead(s) ==> Dead(s'))
    && (s.drained ==> s'.drained && s'.ext == s.ext && s'.virgin == s.virgin)
  }

  /** Only a step that acquires relies on the clients' discipline. */
  predicate Acquires(pc: Pc) { pc.Inc? || pc.New? }

  lemma NoFault(s: State, t: Tally, n: int, m: int, pc: Pc)
    requires Fits(s, t, n, pc) && WrcReady(s, pc) && (Acquires(pc) ==> Backed(s, t, m))
    ensures !Faults(s, pc) && !s.fault
  {
  }

  lemma IncKeeps(s: State, t: Tally, n: int, m: int, p: IncPc)
    requires Fits(s, t, n, Inc(p)) && Backed(s, t, m)
    ensures KeptWith(s, t, n, Inc(p), RunInc(s, p))
  {
    hide DecTally, WeakTally, DelTally, RefTally, NewTally, PrTally, PrInv, DeleterInv, RefInv;
  }

  lemma DecKeeps(s: State, t: Tally, n: int, p: DecPc)
    requires Fits(s, t, n, Dec(p))
    ensures KeptWith(s, t, n, Dec(p), RunDec(s, p))
  {
    hide Fits, KeptWith, RunDec;
    match p
    case DecLoad => DecLoadKeeps(s, t, n);
    case DecSub => DecSubKeeps(s, t, n);
    case _ => DecLateKeeps(s, t, n, p);
  }

  lemma DecLoadKeeps(s: State, t: Tally, n: int)
    requires Fits(s, t, n, Dec(DecLoad))
    ensures KeptWith(s, t, n, Dec(DecLoad), RunDec(s, DecLoad))
  {
    hide IncTally, WeakTally, RefTally, NewTally, PrTally, DelTally, ObjectLife, CounterLife;
  }

  lemma DecSubKeeps(s: State, t: Tally, n: int)
    requires Fits(s, t, n, Dec(DecSub))
    ensures KeptWith(s, t, n, Dec(DecSub), RunDec(s, DecSub))
  {
    hide Sound, Weight, Nested;
    DecSubWeighs();
    var r := RunDec(s, DecSub);
    var t1 := Shift(t, Weight(Dec(DecSub)), Weight(r.1));
    assert t1 == t.(strong := t.strong - 1, lastStrong := t.lastStrong + OneIf(s.strong == 1));
    if Nested(t1) {
      StrongTaken(s, t, t1, n);
    }
  }

  lemma DecSubWeighs()
    ensures var x := Weight(Dec(DecSub));
      && x.strong == 1 && x.lastStrong == 0
      && Weight(Dec(DecLast)) == x.(strong := 0, lastStrong := 1) && Weight(Weak(FromDrop, WeakLoad)) == x.(strong := 0)
  {
  }

  /** Who gives up a strong share, which he has, notices if it was the last. */
  lemma StrongTaken(s: State, t: Tally, t1: Tally, n: int)
    requires Fits(s, t, n, Dec(DecSub)) && Nested(t1)
    requires t1 == t.(strong := t.strong - 1, lastStrong := t.lastStrong + OneIf(s.strong == 1))
    ensures Sound(s.(strong := s.strong - 1), t1, n) && Monotone(s, s.(strong := s.strong - 1))
  {
    hide IncTally, WeakTally, RefTally, NewTally, PrTally, DelTally, PcInv;
  }

  lemma DecLateKeeps(s: State, t: Tally, n: int, p: DecPc)
    requires Fits(s, t, n, Dec(p)) && !p.DecLoad? && !p.DecSub?
    ensures KeptWith(s, t, n, Dec(p), RunDec(s, p))
  {
    hide IncTally, RefTally, NewTally, PrTally, PrInv, RefInv;
  }

  lemma WeakKeeps(s: State, t: Tally, n: int, k: WeakCaller, p: WeakPc)
    requires Fits(s, t, n, Weak(k, p))
    ensures KeptWith(s, t, n, Weak(k, p), RunWeak(s, k, p))
  {
    hide Fits, KeptWith, RunWeak;
    match p
    case WeakLoad => WeakLoadKeeps(s, t, n, k);
    case WeakSub => WeakSubKeeps(s, t, n, k);
    case WeakFlag => WeakFlagKeeps(s, t, n, k);
    case WeakStrong => WeakStrongKeeps(s, t, n, k);
    case WeakCallback => WeakCallbackKeeps(s, t, n, k);
  }

  lemma WeakLoadKeeps(s: State, t: Tally, n: int, k: WeakCaller)
    requires Fits(s, t, n, Weak(k, WeakLoad))
    ensures KeptWith(s, t, n, Weak(k, WeakLoad), RunWeak(s, k, WeakLoad))
  {
    hide Sound, Weight, Nested, Within;
    WeakPositive(s, t, n, k);
    WeakWeighs(k);
    var x := Weight(Weak(k, WeakLoad));
    assert Shift(t, x, x) == t;
  }

  /** Whoever gives back a share of `weak` has one. */
  lemma WeakPositive(s: State, t: Tally, n: int, k: WeakCaller)
    requires Fits(s, t, n, Weak(k, WeakLoad))
    ensures s.weak > 0
  {
  }

  lemma WeakWeighs(k: WeakCaller)
    ensures Weight(Weak(k, WeakLoad)) == Weight(Weak(k, WeakSub))
    ensures Weight(Weak(k, WeakFlag)) == Weight(Weak(k, WeakStrong)) == Weight(Weak(k, WeakCallback))
    ensures Weight(Ref(InDecWeak(k), RefLoad)) == Weight(Weak(k, WeakFlag)).(lastWeak := 0)
    ensures Weight(Weak(k, WeakFlag)).lastWeak == 1
  {
  }

  lemma WeakSubKeeps(s: State, t: Tally, n: int, k: WeakCaller)
    requires Fits(s, t, n, Weak(k, WeakSub))
    ensures KeptWith(s, t, n, Weak(k, WeakSub), RunWeak(s, k, WeakSub))
  {
    hide Sound, Weight, Nested;
    WeakSubWeighs(k);
    var r := RunWeak(s, k, WeakSub);
    var t1, last := Shift(t, Weight(Weak(k, WeakSub)), Weight(r.1)), OneIf(s.weak == 1);
    assert t1 == t.(weak := t.weak - 1, lastWeak := t.lastWeak + last, finishing := t.finishing + last,
                    dropping := t1.dropping, busy := t1.busy);
    if Nested(t1) {
      WeakTaken(s, t, t1, n, k);
    }
  }

  lemma WeakSubWeighs(k: WeakCaller)
    ensures var x, y := Weight(Weak(k, WeakSub)), Weight(Return(k));
      && x.weak == 1 && x.lastWeak == x.finishing == 0
      && Weight(Weak(k, WeakFlag)) == x.(weak := 0, lastWeak := 1, finishing := 1)
      && y == x.(weak := 0, dropping := y.dropping, busy := y.busy)
      && 0 <= y.dropping <= x.dropping && 0 <= y.busy <= x.busy
  {
    WeakTallies(k);
    ReturnWeighs(k);
    hide Weight;
  }

  lemma WeakTallies(k: WeakCaller)
    ensures Weight(Weak(k, WeakSub)) == Tally(weak := 1, refc := WrcShare(k), dropping := 1, busy := 1)
    ensures Weight(Weak(k, WeakFlag)) ==
            Tally(refc := WrcShare(k), dropping := 1, lastWeak := 1, finishing := 1, busy := 1)
  {
  }

  lemma ReturnWeighs(k: WeakCaller)
    ensures Weight(Return(k)) == if k.FromWrc? then Tally(refc := 1, dropping := 1, busy := 1) else Tally()
  {
  }

  /** Who gives up a share of `weak`, which he has, notices if it was the last. */
  lemma WeakTaken(s: State, t: Tally, t1: Tally, n: int, k: WeakCaller)
    requires Fits(s, t, n, Weak(k, WeakSub)) && Nested(t1) && t1.busy <= t.busy
    requires var last := OneIf(s.weak == 1);
      t1 == t.(weak := t.weak - 1, lastWeak := t.lastWeak + last, finishing := t.finishing + last,
               dropping := t1.dropping, busy := t1.busy)
    ensures var s' := RunWeak(s, k, WeakSub).0; Sound(s', t1, n) && Monotone(s, s')
  {
    hide IncTally, DecTally, RefTally, NewTally, PrTally, DelTally;
  }

  lemma WeakFlagKeeps(s: State, t: Tally, n: int, k: WeakCaller)
    requires Fits(s, t, n, Weak(k, WeakFlag))
    ensures KeptWith(s, t, n, Weak(k, WeakFlag), RunWeak(s, k, WeakFlag))
  {
    hide Weight, Nested;
    WeakWeighs(k);
    var x := Weight(Weak(k, WeakFlag));
    LastWeakDrained(s, t, n, k, WeakFlag);
    assert Shift(t, x, x) == t;
  }

  /** Whoever took `weak` to 0 finds it drained, and the object not yet deleted if that is its task. */
  lemma LastWeakDrained(s: State, t: Tally, n: int, k: WeakCaller, p: WeakPc)
    requires Fits(s, t, n, Weak(k, p)) && (p.WeakFlag? || p.WeakStrong? || p.WeakCallback?)
    ensures s.drained && (if s.virgin then s.strong == BIAS else s.strong == 0 && !s.bias)
    ensures p.WeakStrong? ==> !s.ext
  {
  }

  lemma WeakStrongKeeps(s: State, t: Tally, n: int, k: WeakCaller)
    requires Fits(s, t, n, Weak(k, WeakStrong))
    ensures KeptWith(s, t, n, Weak(k, WeakStrong), RunWeak(s, k, WeakStrong))
  {
    hide Weight, Nested;
    WeakWeighs(k);
    var x := Weight(Weak(k, WeakFlag));
    LastWeakDrained(s, t, n, k, WeakStrong);
    assert Shift(t, x, x) == t && Shift(t, x, x.(lastWeak := 0)) == t.(lastWeak := t.lastWeak - 1);
  }

  lemma WeakCallbackKeeps(s: State, t: Tally, n: int, k: WeakCaller)
    requires Fits(s, t, n, Weak(k, WeakCallback))
    ensures KeptWith(s, t, n, Weak(k, WeakCallback), RunWeak(s, k, WeakCallback))
  {
    hide Sound, Weight, Nested;
    DeleteWeighs(k);
    DeletesOnce(s, t, n, k);
    var x := Weight(Weak(k, WeakCallback));
    assert Shift(t, x, x.(lastWeak := 0, unhooking := 1)) ==
      t.(lastWeak := t.lastWeak - 1, unhooking := t.unhooking + 1);
  }

  lemma DeleteWeighs(k: WeakCaller)
    ensures var x := Weight(Weak(k, WeakCallback));
      && x.lastWeak == 1 && x.unhooking == 0
      && Weight(Del(ByWeak(k), DelClear)) == x.(lastWeak := 0, unhooking := 1)
  {
    WeakTallies(k);
    WeakWeighs(k);
    DelTallies(k);
    hide Weight;
  }

  lemma DelTallies(k: WeakCaller)
    ensures Weight(Del(ByWeak(k), DelClear)) ==
            Tally(refc := WrcShare(k), dropping := 1, finishing := 1, unhooking := 1, busy := 1)
  {
  }

  lemma DeletesOnce(s: State, t: Tally, n: int, k: WeakCaller)
    requires Fits(s, t, n, Weak(k, WeakCallback))
    ensures s.cb
    ensures Sound(s.(deletes := s.deletes + 1), t.(lastWeak := t.lastWeak - 1, unhooking := t.unhooking + 1), n)
  {
    hide IncTally, DecTally, RefTally, NewTally, PrTally, DelTally;
  }

  lemma DelKeeps(s: State, t: Tally, n: int, o: Deleter, p: DelPc)
    requires Fits(s, t, n, Del(o, p))
    ensures KeptWith(s, t, n, Del(o, p), RunDel(s, o, p))
  {
    hide Fits, KeptWith, RunDel;
    if o.ByStrong? { DelByStrongKeeps(s, t, n, p); } else { DelByWeakKeeps(s, t, n, o.k, p); }
  }

  lemma DelByStrongKeeps(s: State, t: Tally, n: int, p: DelPc)
    requires Fits(s, t, n, Del(ByStrong, p))
    ensures KeptWith(s, t, n, Del(ByStrong, p), RunDel(s, ByStrong, p))
  {
    hide IncTally, DecTally, NewTally, PrTally, PrInv;
  }

  lemma DelByWeakKeeps(s: State, t: Tally, n: int, k: WeakCaller, p: DelPc)
    requires Fits(s, t, n, Del(ByWeak(k), p))
    ensures KeptWith(s, t, n, Del(ByWeak(k), p), RunDel(s, ByWeak(k), p))
  {
    hide Sound, Weight, Nested, Within;
    DelByWeakGoes(s, t, n, k, p);
    DelByWeakWeighs(k);
    var x, y := Weight(Del(ByWeak(k), p)), Weight(RunDel(s, ByWeak(k), p).1);
    assert Shift(t, x, y) == if p.DelClear? then t.(unhooking := t.unhooking - 1) else t;
    if p.DelClear? {
      UnhookedOnce(s, t, n, k);
    }
  }

  /** The destructor run from a weak decrement returns the object's share of `refc`. */
  lemma DelByWeakGoes(s: State, t: Tally, n: int, k: WeakCaller, p: DelPc)
    requires Fits(s, t, n, Del(ByWeak(k), p))
    ensures p.DelStrong? ==> s.strong == BIAS
    ensures p.DelWeak? ==> s.weak == 0
  {
  }

  lemma DelByWeakWeighs(k: WeakCaller)
    ensures var x := Weight(Del(ByWeak(k), DelFlag));
      && Weight(Del(ByWeak(k), DelClear)) == x.(unhooking := 1) && x.unhooking == 0
      && Weight(Del(ByWeak(k), DelWeak)) == Weight(Del(ByWeak(k), DelStrong)) == x
      && Weight(Ref(InDestructor(ByWeak(k)), RefLoad)) == x
  {
  }

  lemma UnhookedOnce(s: State, t: Tally, n: int, k: WeakCaller)
    requires Fits(s, t, n, Del(ByWeak(k), DelClear))
    ensures Sound(s.(cb := false), t.(unhooking := t.unhooking - 1), n)
  {
  }

  lemma RefKeeps(s: State, t: Tally, n: int, c: RefCaller, p: RefPc)
    requires Fits(s, t, n, Ref(c, p))
    ensures KeptWith(s, t, n, Ref(c, p), RunRef(s, c, p))
  {
    hide Fits, KeptWith, RunRef;
    match p
    case RefLoad => RefLoadKeeps(s, t, n, c);
    case RefSub => RefSubKeeps(s, t, n, c);
    case RefFree => RefFreeKeeps(s, t, n, c);
  }

  lemma RefLoadKeeps(s: State, t: Tally, n: int, c: RefCaller)
    requires Fits(s, t, n, Ref(c, RefLoad))
    ensures KeptWith(s, t, n, Ref(c, RefLoad), RunRef(s, c, RefLoad))
  {
    hide Sound, Weight, Nested, Within;
    RefcPositive(s, t, n, c);
    RefWeighs(c);
    var x := Weight(Ref(c, RefLoad));
    assert Shift(t, x, x) == t;
  }

  /** Whoever gives back a share of `refc` has one. */
  lemma RefcPositive(s: State, t: Tally, n: int, c: RefCaller)
    requires Fits(s, t, n, Ref(c, RefLoad))
    ensures s.refc > 0
  {
  }

  lemma RefWeighs(c: RefCaller)
    ensures Weight(Ref(c, RefLoad)) == Weight(Ref(c, RefSub))
  {
  }

  lemma RefSubKeeps(s: State, t: Tally, n: int, c: RefCaller)
    requires Fits(s, t, n, Ref(c, RefSub))
    ensures KeptWith(s, t, n, Ref(c, RefSub), RunRef(s, c, RefSub))
  {
    hide Sound, Weight, Nested;
    RefSubWeighs(c);
    var r, own := RunRef(s, c, RefSub), OneIf(c.InWrcDelete?);
    var t1 := Shift(t, Weight(Ref(c, RefSub)), Weight(r.1));
    assert t1 == t.(refc := t.refc - own, finishing := t.finishing - (1 - own),
                    freeing := t.freeing + OneIf(s.refc == 1), dropping := t1.dropping, busy := t1.busy);
    if Nested(t1) {
      ShareTaken(s, t, t1, n, c);
    }
  }

  lemma RefSubWeighs(c: RefCaller)
    requires c.InDestructor? ==> c.o.ByWeak?
    ensures var x, y, own := Weight(Ref(c, RefSub)), Weight(Released(c)), OneIf(c.InWrcDelete?);
      && x.freeing == 0
      && Weight(Ref(c, RefFree)) == x.(refc := x.refc - own, finishing := x.finishing - (1 - own), freeing := 1)
      && y == x.(refc := x.refc - own, finishing := x.finishing - (1 - own), dropping := y.dropping, busy := y.busy)
      && 0 <= y.dropping <= x.dropping && 0 <= y.busy <= x.busy
  {
  }

  /** Who gives up a share of `refc`, his own or the object's, notices if it was the last. */
  lemma ShareTaken(s: State, t: Tally, t1: Tally, n: int, c: RefCaller)
    requires Fits(s, t, n, Ref(c, RefSub)) && Nested(t1) && t1.busy <= t.busy
    requires var own := OneIf(c.InWrcDelete?);
      t1 == t.(refc := t.refc - own, finishing := t.finishing - (1 - own),
               freeing := t.freeing + OneIf(s.refc == 1), dropping := t1.dropping, busy := t1.busy)
    ensures Sound(s.(refc := s.refc - 1, base := s.base && c.InWrcDelete?), t1, n)
  {
    hide BiasOnce, ObjectLife, IncTally, DecTally, WeakTally, NewTally, PrTally, DelTally;
    SameObject(s, s.(refc := s.refc - 1, base := s.base && c.InWrcDelete?), t, t1);
  }

  lemma SameObject(s: State, s': State, t: Tally, t1: Tally)
    requires ObjectLife(s, t) && BiasOnce(s, t) && s' == s.(refc := s'.refc, base := s'.base)
    requires t1 == t.(refc := t1.refc, finishing := t1.finishing, freeing := t1.freeing,
                      dropping := t1.dropping, busy := t1.busy)
    ensures ObjectLife(s', t1) && BiasOnce(s', t1)
  {
  }

  lemma RefFreeKeeps(s: State, t: Tally, n: int, c: RefCaller)
    requires Fits(s, t, n, Ref(c, RefFree))
    ensures KeptWith(s, t, n, Ref(c, RefFree), RunRef(s, c, RefFree))
  {
    hide Sound, Weight, Nested;
    var x, y := Weight(Ref(c, RefFree)), Weight(Released(c));
    AfterFree(c);
    var t1 := Shift(t, x, y);
    assert t1 == t.(freeing := t.freeing - 1, dropping := t1.dropping, busy := t1.busy);
    FreedOnce(s, t, t1, n);
  }

  /** Once the RefCounter is deleted the thread only has less to do. */
  lemma AfterFree(c: RefCaller)
    requires c.InDestructor? ==> c.o.ByWeak?
    ensures var x, y := Weight(Ref(c, RefFree)), Weight(Released(c));
            && y == x.(freeing := 0, dropping := y.dropping, busy := y.busy) && x.freeing == 1
            && 0 <= y.dropping <= x.dropping && 0 <= y.busy <= x.busy
  {
  }

  lemma FreedOnce(s: State, t: Tally, t1: Tally, n: int)
    requires Sound(s, t, n) && 0 <= t1.dropping <= t.dropping && t1.busy <= t.busy
    requires t1 == t.(freeing := t.freeing - 1, dropping := t1.dropping, busy := t1.busy)
    ensures Sound(s.(frees := s.frees + 1), t1, n)
  {
  }

  /** The steps of a promotion that count a strong reference, or may. */
  predicate Counting(p: PrPc) { p.PrCas1? || p.PrCas2? || p.PrAdd? }

  lemma PrKeeps(s: State, t: Tally, n: int, w: nat, p: PrPc, lucky: bool)
    requires Fits(s, t, n, Pr(w, p))
    ensures KeptWith(s, t, n, Pr(w, p), RunPr(s, w, p, lucky))
  {
    hide Fits, KeptWith, RunPr;
    if Counting(p) {
      PrCountKeeps(s, t, n, w, p, lucky);
    } else if p.PrFlag1? || p.PrFlag2? || p.PrFlag3? {
      PrFlagKeeps(s, t, n, w, p, lucky);
    } else {
      PrReadKeeps(s, t, n, w, p, lucky);
    }
  }

  lemma PrCountKeeps(s: State, t: Tally, n: int, w: nat, p: PrPc, lucky: bool)
    requires Fits(s, t, n, Pr(w, p)) && Counting(p)
    ensures KeptWith(s, t, n, Pr(w, p), RunPr(s, w, p, lucky))
  {
    hide IncTally, DecTally, NewTally, DelTally, RefTally, DeleterInv, RefInv;
  }

  lemma PrFlagKeeps(s: State, t: Tally, n: int, w: nat, p: PrPc, lucky: bool)
    requires Fits(s, t, n, Pr(w, p)) && (p.PrFlag1? || p.PrFlag2? || p.PrFlag3?)
    ensures KeptWith(s, t, n, Pr(w, p), RunPr(s, w, p, lucky))
  {
    hide IncTally, DecTally, NewTally, DelTally, RefTally, DeleterInv, RefInv;
  }

  lemma PrReadKeeps(s: State, t: Tally, n: int, w: nat, p: PrPc, lucky: bool)
    requires Fits(s, t, n, Pr(w, p)) && !Counting(p) && !p.PrFlag1? && !p.PrFlag2? && !p.PrFlag3?
    ensures KeptWith(s, t, n, Pr(w, p), RunPr(s, w, p, lucky))
  {
    hide IncTally, DecTally, NewTally, DelTally, RefTally, WeakTally, DeleterInv, RefInv;
  }

  lemma NewKeeps(s: State, t: Tally, n: int, m: int, p: NewPc)
    requires Fits(s, t, n, New(p)) && Backed(s, t, m)
    ensures KeptWith(s, t, if p.NewWeak? then n + 1 else n, New(p), RunNew(s, p))
  {
    hide IncTally, DecTally, WeakTally, DelTally, RefTally, PrTally, PrInv, RefInv, DeleterInv;
  }

  lemma DropKeeps(s: State, t: Tally, n: int, w: nat)
    requires Fits(s, t, n, Drop(w)) && LinkedAt(s, w) && n >= 1
    ensures KeptWith(s, t, if s.wrcs[w].count == 1 then n - 1 else n, Drop(w), RunDrop(s, w))
  {
  }

  lemma CopyKeeps(s: State, t: Tally, n: int, w: nat)
    requires Fits(s, t, n, Copy(w)) && LinkedAt(s, w)
    ensures KeptWith(s, t, n, Copy(w), RunCopy(s, w))
  {
  }

  lemma ReleaseKeeps(s: State, t: Tally, n: int, pc: Pc, lucky: bool)
    requires Fits(s, t, n, pc) && (pc.Weak? || pc.Del? || pc.Ref?)
    ensures KeptWith(s, t, n, pc, RunPc(s, pc, lucky))
  {
    hide Fits, KeptWith, RunWeak, RunDel, RunRef;
    match pc
    case Weak(k, p) => WeakKeeps(s, t, n, k, p);
    case Del(o, p) => DelKeeps(s, t, n, o, p);
    case Ref(c, p) => RefKeeps(s, t, n, c, p);
  }

  lemma StrongKeeps(s: State, t: Tally, n: int, m: int, pc: Pc, lucky: bool)
    requires Fits(s, t, n, pc) && (Acquires(pc) ==> Backed(s, t, m)) && (pc.Inc? || pc.Dec? || pc.Pr?)
    ensures KeptWith(s, t, n, pc, RunPc(s, pc, lucky))
  {
    hide Fits, KeptWith, Backed, RunInc, RunDec, RunPr;
    match pc
    case Inc(p) => IncKeeps(s, t, n, m, p);
    case Dec(p) => DecKeeps(s, t, n, p);
    case Pr(w, p) => PrKeeps(s, t, n, w, p, lucky);
  }

  lemma RunKeeps(s: State, t: Tally, n: int, m: int, pc: Pc, lucky: bool)
    requires Fits(s, t, n, pc) && WrcReady(s, pc) && (pc.Drop? ==> n >= 1) && !pc.Idle?
    requires Acquires(pc) ==> Backed(s, t, m)
    ensures KeptWith(s, t, n + LinkedGain(s, pc), pc, RunPc(s, pc, lucky))
  {
    hide Fits, KeptWith, Backed;
    if pc.Weak? || pc.Del? || pc.Ref? {
      ReleaseKeeps(s, t, n, pc, lucky);
    } else if pc.Inc? || pc.Dec? || pc.Pr? {
      StrongKeeps(s, t, n, m, pc, lucky);
    } else {
      match pc
      case New(p) => NewKeeps(s, t, n, m, p);
      case Copy(w) => CopyKeeps(s, t, n, w);
      case Drop(w) => DropKeeps(s, t, n, w);
    }
  }

  /** How many WeakRefCounters a step opens, less those that it closes. */
  ghost function LinkedGain(s: State, pc: Pc): int {
    if pc == New(NewWeak) then 1
    else if pc.Drop? && LinkedAt(s, pc.w) && s.wrcs[pc.w].count == 1 then -1
    else 0
  }

  // ---- one step leaves everybody backed ------------------------------------------------------

  /** A step that acquires nothing and hands on what it has. */
  ghost predicate Steady(s: State, t: Tally, s': State, t': Tally) {
    && t'.acquiring == t.acquiring && t'.rising == t.rising && t'.publishing == t.publishing
    && t'.dropping <= t.dropping
    && s'.sptrs + t'.keeping == s.sptrs + t.keeping && s'.virgin == s.virgin && s'.ext == s.ext
    && (s'.drained ==> s.drained || t.acquiring + t.publishing == 0)
  }

  lemma SteadyBacked(s: State, t: Tally, s': State, t': Tally, m: int)
    requires Backed(s, t, m) && Steady(s, t, s', t') && Nested(t')
    ensures Backed(s', t', m)
  {
  }

  /** No one who relies on it sees `weak` fall to 0. */
  lemma WeakSubSteady(s: State, t: Tally, n: int, m: int, k: WeakCaller)
    requires Fits(s, t, n, Weak(k, WeakSub)) && Backed(s, t, m) && m <= n
    ensures var r := RunWeak(s, k, WeakSub); var t1 := Shift(t, Weight(Weak(k, WeakSub)), Weight(r.1));
            Nested(t1) ==> Steady(s, t, r.0, t1)
  {
    hide Weight, Fits, Backed;
    WeakSubWeighs(k);
    if t.keeping + t.rising < t.weak {
      SupportedWeak(s, t, n, m, k);
    }
    WeakGivesUp(k, WeakSub);
    WeakGivesUp(k, WeakFlag);
    ReturnGivesUp(k);
  }

  lemma SupportedWeak(s: State, t: Tally, n: int, m: int, k: WeakCaller)
    requires Fits(s, t, n, Weak(k, WeakSub)) && Backed(s, t, m) && m <= n && t.keeping + t.rising < t.weak
    ensures s.weak == 1 ==> t.acquiring + t.publishing == 0
  {
    hide BiasOnce, ObjectLife, PcInv;
  }

  /** x neither acquires nor keeps anything. */
  predicate GivesUp(x: Tally) {
    x.acquiring == 0 && x.rising == 0 && x.publishing == 0 && x.keeping == 0 && 0 <= x.dropping <= 1
  }

  lemma ReturnGivesUp(k: WeakCaller)
    ensures GivesUp(Weight(Return(k)))
  {
  }

  lemma DeletedGivesUp(o: Deleter)
    ensures GivesUp(Weight(Deleted(o)))
  {
    hide Weight;
    if o.ByWeak? { ReturnGivesUp(o.k); } else { WeakGivesUp(FromDrop, WeakLoad); }
  }

  lemma WeakGivesUp(k: WeakCaller, p: WeakPc)
    ensures GivesUp(Weight(Weak(k, p))) && Weight(Weak(k, p)).dropping == 1
  {
  }

  lemma DelGivesUp(o: Deleter, p: DelPc)
    ensures GivesUp(Weight(Del(o, p))) && Weight(Del(o, p)).dropping == 1
  {
  }

  lemma RefGivesUp(c: RefCaller, p: RefPc)
    ensures GivesUp(Weight(Ref(c, p))) && Weight(Ref(c, p)).dropping == 1
  {
  }

  lemma ReleasedGivesUp(c: RefCaller)
    ensures GivesUp(Weight(Released(c)))
  {
    hide Weight;
    match c
    case InDestructor(o) => DeletedGivesUp(o);
    case InDecWeak(k) => ReturnGivesUp(k);
    case InWrcDelete(w) => ReturnGivesUp(FromDrop);
  }

  lemma WeakSteady(s: State, t: Tally, k: WeakCaller, p: WeakPc)
    requires !p.WeakSub?
    ensures var r := RunWeak(s, k, p); Steady(s, t, r.0, Shift(t, Weight(Weak(k, p)), Weight(r.1)))
  {
    hide Weight, Return;
    WeakGivesUp(k, p);
    WeakGivesUp(k, WeakSub);
    WeakGivesUp(k, WeakStrong);
    WeakGivesUp(k, WeakCallback);
    ReturnGivesUp(k);
    RefGivesUp(InDecWeak(k), RefLoad);
    DelGivesUp(ByWeak(k), DelClear);
  }

  lemma DelSteady(s: State, t: Tally, o: Deleter, p: DelPc)
    ensures var r := RunDel(s, o, p); Steady(s, t, r.0, Shift(t, Weight(Del(o, p)), Weight(r.1)))
  {
    hide Weight, Deleted;
    DelGivesUp(o, p);
    DelGivesUp(o, DelFlag);
    DelGivesUp(o, DelWeak);
    DelGivesUp(o, DelStrong);
    DeletedGivesUp(o);
    RefGivesUp(InDestructor(o), RefLoad);
  }

  lemma RefSteady(s: State, t: Tally, c: RefCaller, p: RefPc)
    ensures var r := RunRef(s, c, p); Steady(s, t, r.0, Shift(t, Weight(Ref(c, p)), Weight(r.1)))
  {
    hide Weight, Released;
    RefGivesUp(c, p);
    RefGivesUp(c, RefSub);
    RefGivesUp(c, RefFree);
    ReleasedGivesUp(c);
  }

  lemma DecSteady(s: State, t: Tally, p: DecPc)
    ensures var r := RunDec(s, p); Steady(s, t, r.0, Shift(t, Weight(Dec(p)), Weight(r.1)))
  {
    hide IncTally, NewTally, PrTally, RefTally;
  }

  lemma CopySteady(s: State, t: Tally, w: nat)
    ensures var r := RunCopy(s, w); Steady(s, t, r.0, Shift(t, Weight(Copy(w)), Weight(r.1)))
  {
    hide Weight;
    WptrWeighs(w);
  }

  lemma DropSteady(s: State, t: Tally, w: nat)
    ensures var r := RunDrop(s, w); Steady(s, t, r.0, Shift(t, Weight(Drop(w)), Weight(r.1)))
  {
    hide Weight;
    WptrWeighs(w);
    WeakGivesUp(FromWrc(w), WeakLoad);
  }

  lemma WptrWeighs(w: nat)
    ensures Weight(Idle) == Tally() && Weight(Copy(w)) == Tally(busy := 1)
    ensures Weight(Drop(w)) == Tally(dropping := 1, busy := 1)
  {
  }

  lemma IncBacked(s: State, t: Tally, n: int, m: int, p: IncPc)
    requires Fits(s, t, n, Inc(p)) && Backed(s, t, m) && 0 <= m <= n
    ensures var r := RunInc(s, p); var t1 := Shift(t, Weight(Inc(p)), Weight(r.1));
            Nested(t1) ==> Backed(r.0, t1, m)
  {
    hide ObjectLife, CounterLife, DecTally, WeakTally, DelTally, RefTally, NewTally, PrTally;
  }

  lemma NewBacked(s: State, t: Tally, n: int, m: int, p: NewPc)
    requires Fits(s, t, n, New(p)) && Backed(s, t, m) && 0 <= m <= n
    ensures var r := RunNew(s, p); var t1 := Shift(t, Weight(New(p)), Weight(r.1));
            Nested(t1) ==> Backed(r.0, t1, m + WptrGain(New(p)))
  {
    hide ObjectLife, CounterLife, IncTally, DecTally, WeakTally, DelTally, RefTally, PrTally;
  }

  lemma PromoteBacked(s: State, t: Tally, n: int, m: int, w: nat, p: PrPc, lucky: bool)
    requires Fits(s, t, n, Pr(w, p)) && Backed(s, t, m)
    ensures var r := RunPr(s, w, p, lucky); var t1 := Shift(t, Weight(Pr(w, p)), Weight(r.1));
            Nested(t1) ==> Backed(r.0, t1, m)
  {
    hide Fits, Backed, Weight, RunPr, Shift, Nested;
    if Counting(p) { CountBacked(s, t, n, m, w, p, lucky); } else { ReadBacked(s, t, n, m, w, p, lucky); }
  }

  lemma CountBacked(s: State, t: Tally, n: int, m: int, w: nat, p: PrPc, lucky: bool)
    requires Fits(s, t, n, Pr(w, p)) && Backed(s, t, m) && Counting(p)
    ensures var r := RunPr(s, w, p, lucky); var t1 := Shift(t, Weight(Pr(w, p)), Weight(r.1));
            Nested(t1) ==> Backed(r.0, t1, m)
  {
    hide IncTally, DecTally, DelTally, RefTally, NewTally, CounterLife;
  }

  lemma ReadBacked(s: State, t: Tally, n: int, m: int, w: nat, p: PrPc, lucky: bool)
    requires Fits(s, t, n, Pr(w, p)) && Backed(s, t, m) && !Counting(p)
    ensures var r := RunPr(s, w, p, lucky); var t1 := Shift(t, Weight(Pr(w, p)), Weight(r.1));
            Nested(t1) ==> Backed(r.0, t1, m)
  {
    hide IncTally, DecTally, DelTally, RefTally, NewTally, CounterLife;
  }

  /** How many WeakRefCounters more have a wptr after a step. */
  function WptrGain(pc: Pc): int { OneIf(pc == New(NewWeak)) }

  lemma RunBacked(s: State, t: Tally, n: int, m: int, pc: Pc, lucky: bool)
    requires Fits(s, t, n, pc) && Backed(s, t, m) && 0 <= m <= n && WrcReady(s, pc) && !pc.Idle?
    ensures var r := RunPc(s, pc, lucky); var t1 := Shift(t, Weight(pc), Weight(r.1));
            Nested(t1) ==> Backed(r.0, t1, m + WptrGain(pc))
  {
    hide Fits, Backed, Steady, Shift, Weight, Nested;
    var r := RunPc(s, pc, lucky);
    var t1 := Shift(t, Weight(pc), Weight(r.1));
    if Acquires(pc) {
      match pc {
        case Inc(p) => IncBacked(s, t, n, m, p);
        case New(p) => NewBacked(s, t, n, m, p);
      }
    } else if pc.Pr? {
      PromoteBacked(s, t, n, m, pc.w, pc.pr, lucky);
    } else if Nested(t1) {
      match pc {
        case Weak(k, p) => if p.WeakSub? { WeakSubSteady(s, t, n, m, k); } else { WeakSteady(s, t, k, p); }
        case Del(o, p) => DelSteady(s, t, o, p);
        case Ref(c, p) => RefSteady(s, t, c, p);
        case Dec(p) => DecSteady(s, t, p);
        case Copy(w) => CopySteady(s, t, w);
        case Drop(w) => DropSteady(s, t, w);
      }
      SteadyBacked(s, t, r.0, t1, m);
    }
  }

  // ---- starting an operation keeps the scalar part --------------------------------------------

  /** An acquisition starts only where it is backed. */
  lemma AcquireStarts(s: State, t: Tally, n: int, m: int, pc: Pc)
    requires Core(s, t, n, m) && Nested(t) && s.sptrs + t.busy + 1 < BIAS && (pc == Inc(IncWeak) || pc == New(NewRef))
    requires || s.sptrs >= 1 || (LivesOnWeak(s) && s.deletes == 0 && t.rising + m >= 1)
             || (s.virgin && s.deletes == 0 && t.dropping == 0)
    ensures Core(s, Plus(t, Weight(pc)), n, m)
  {
  }

  lemma StrongDropStarts(s: State, t: Tally, n: int, m: int)
    requires Core(s, t, n, m) && Nested(t) && s.sptrs >= 1
    requires Supports(t, LivesOnWeak(s), s.sptrs - 1 + t.keeping, m)
    ensures Core(s.(sptrs := s.sptrs - 1), Plus(t, Weight(Dec(DecLoad))), n, m)
  {
  }

  lemma WeakDropStarts(s: State, t: Tally, n: int, m: int, m1: int, w: nat)
    requires Core(s, t, n, m) && Nested(t) && s.sptrs + t.busy + 1 < BIAS && 0 <= m1 <= m
    requires Supports(t, LivesOnWeak(s), s.sptrs + t.keeping, m1)
    ensures Core(s, Plus(t, Weight(Drop(w))), n, m1)
  {
  }

  lemma WeakOpStarts(s: State, t: Tally, n: int, m: int, pc: Pc)
    requires Core(s, t, n, m) && Nested(t) && s.sptrs + t.busy + 1 < BIAS
    requires pc.Copy? || (pc.Pr? && pc.pr.PrLoad?)
    ensures Core(s, Plus(t, Weight(pc)), n, m)
  {
  }

  lemma ExtendKeeps(s: State, t: Tally, n: int, m: int)
    requires Core(s, t, n, m) && Nested(t)
    requires s.sptrs >= 1 || (!s.touched && s.deletes == 0 && t.busy == 0)
    ensures Core(s.(ext := true), t, n, m) && Monotone(s, s.(ext := true))
  {
  }

  // ---- the other threads, and the WeakRefCounters ------------------------------------------------

  lemma PcStable(s: State, s': State, pc: Pc)
    requires PcInv(s, pc) && Monotone(s, s')
    ensures PcInv(s', pc)
  {
  }

  /** A thread that uses or drops a wptr finds its WeakRefCounter open. */
  lemma WptrOpen(s: State, i: nat, w: nat)
    requires i < |s.threads| && WrcInv(s, w)
    requires WptrOf(s.threads[i]) == Some(w) || s.threads[i] == Drop(w)
    ensures LinkedAt(s, w) && Linkeds(s) >= 1
  {
    SumCovers(UserOf(w), s.threads);
    SumCovers(AtDrop(w), s.threads);
    assert UserOf(w)(s.threads[i]) == 1 || AtDrop(w)(s.threads[i]) == 1;
    SumCovers(IsLinked, s.wrcs);
    assert IsLinked(s.wrcs[w]) == 1;
  }

  ghost function Drops(pc: Pc, w: nat): int { OneIf(pc == Drop(w)) }

  ghost function Uses(pc: Pc, w: nat): int { OneIf(WptrOf(pc) == Some(w)) }

  /** No other step makes its thread a new user or dropper of a wptr. */
  ghost predicate Quieter(pc: Pc, q: Pc) { !q.Drop? && (WptrOf(q).Some? ==> WptrOf(q) == WptrOf(pc)) }

  lemma ReleaseQuiet(s: State, pc: Pc, lucky: bool)
    requires pc.Weak? || pc.Del? || pc.Ref?
    ensures Quieter(pc, RunPc(s, pc, lucky).1)
  {
  }

  lemma StrongQuiet(s: State, pc: Pc, lucky: bool)
    requires pc.Inc? || pc.Dec? || (pc.New? && pc != New(NewWeak))
    ensures Quieter(pc, RunPc(s, pc, lucky).1)
  {
  }

  lemma PromoteQuiet(s: State, w: nat, p: PrPc, lucky: bool)
    ensures Quieter(Pr(w, p), RunPc(s, Pr(w, p), lucky).1)
  {
  }

  lemma NewWrc(s: State, w: nat, d: int, u: int)
    requires WrcOk(s.wrcs, w, d, u) && WrcOk(s.wrcs, |s.wrcs|, 0, 0) && (w == |s.wrcs| ==> d == u == 0)
    ensures WrcOk(RunNew(s, NewWeak).0.wrcs, w, d, u)
  {
  }

  lemma CopyWrc(s: State, v: nat, w: nat, d: int, u: int)
    requires WrcOk(s.wrcs, w, d, u) && LinkedAt(s, v) && u >= Uses(Copy(v), w)
    ensures WrcOk(RunCopy(s, v).0.wrcs, w, d, u - Uses(Copy(v), w))
  {
  }

  lemma DropWrc(ws: seq<Wrc>, v: nat, w: nat, d: int, u: int)
    requires WrcOk(ws, w, d, u) && IsOpen(ws, v) && d >= OneIf(v == w) && u >= 0
    ensures WrcOk(GiveBack(ws, v), w, d - OneIf(v == w), u)
  {
  }

  lemma WrcRun(s: State, pc: Pc, lucky: bool, w: nat, d: int, u: int)
    requires !pc.Idle? && WrcOk(s.wrcs, w, d, u) && WrcOk(s.wrcs, |s.wrcs|, 0, 0) && (w == |s.wrcs| ==> d == u == 0)
    requires WrcReady(s, pc) && d >= Drops(pc, w) && u >= Uses(pc, w)
    ensures var r := RunPc(s, pc, lucky);
            WrcOk(r.0.wrcs, w, d - Drops(pc, w) + Drops(r.1, w), u - Uses(pc, w) + Uses(r.1, w))
  {
    if ChangesWrcs(pc) {
      match pc
      case New(_) => NewWrc(s, w, d, u);
      case Copy(v) => CopyWrc(s, v, w, d, u);
      case Drop(v) => DropWrc(s.wrcs, v, w, d, u);
    } else {
      if pc.Weak? || pc.Del? || pc.Ref? {
        ReleaseQuiet(s, pc, lucky);
      } else if pc.Pr? {
        PromoteQuiet(s, pc.w, pc.pr, lucky);
      } else {
        StrongQuiet(s, pc, lucky);
      }
    }
  }

  lemma WrcStart(s: State, i: nat, a: Action, w: nat, d: int, u: int)
    requires i < |s.threads| && Enabled(s, i, a) && !a.Run? && !a.Extend?
    requires WrcOk(s.wrcs, w, d, u) && d >= 0 && u == Sum(UserOf(w), s.threads)
    ensures WrcOk(After(s, i, a).wrcs, w, d + Drops(StartPc(a), w), u + Uses(StartPc(a), w))
  {
    hide MayDrop, MayUseObject, MayExtend, RoomForMore, Supported, Exec, UserOf, AtDrop;
    match a
    case StartDropWeak(v) => DropWeakWrc(s, v, w, d, u);
    case _ =>
  }

  lemma DropWeakWrc(s: State, v: nat, w: nat, d: int, u: int)
    requires WrcOk(s.wrcs, w, d, u) && Unread(s, v) && u == Sum(UserOf(w), s.threads)
    ensures WrcOk(TakeHandle(s.wrcs, v), w, d + Drops(Drop(v), w), u)
  {
  }

  lemma WrcKeeps(s: State, i: nat, a: Action, w: nat)
    requires i < |s.threads| && Enabled(s, i, a) && (forall v: nat :: WrcInv(s, v))
    ensures WrcInv(After(s, i, a), w)
  {
    assert WrcInv(s, w) && WrcInv(s, |s.wrcs|);
    if !a.Extend? {
      var q := After(s, i, a).threads[i];
      Moved(s, i, q, w);
      if a.Run? {
        ReadyWrc(s, i);
        WrcRun(s, s.threads[i], a.lucky, w, Sum(AtDrop(w), s.threads), Sum(UserOf(w), s.threads));
      } else {
        WrcStart(s, i, a, w, Sum(AtDrop(w), s.threads), Sum(UserOf(w), s.threads));
      }
    }
  }

  lemma Moved(s: State, i: nat, q: Pc, w: nat)
    requires i < |s.threads|
    ensures var ts := s.threads[i := q];
      && Sum(AtDrop(w), ts) == Sum(AtDrop(w), s.threads) - Drops(s.threads[i], w) + Drops(q, w)
      && Sum(UserOf(w), ts) == Sum(UserOf(w), s.threads) - Uses(s.threads[i], w) + Uses(q, w)
    ensures Sum(AtDrop(w), s.threads) >= Drops(s.threads[i], w) && Sum(UserOf(w), s.threads) >= Uses(s.threads[i], w)
  {
    SumUpdate(AtDrop(w), s.threads, i, q);
    SumUpdate(UserOf(w), s.threads, i, q);
    SumCovers(AtDrop(w), s.threads);
    SumCovers(UserOf(w), s.threads);
  }

  lemma ReadyWrc(s: State, i: nat)
    requires i < |s.threads| && (forall v: nat :: WrcInv(s, v))
    ensures WrcReady(s, s.threads[i])
    ensures WptrOf(s.threads[i]).Some? || s.threads[i].Drop? ==> Linkeds(s) >= 1
  {
    var pc := s.threads[i];
    if WptrOf(pc).Some? {
      assert WrcInv(s, WptrOf(pc).value);
      WptrOpen(s, i, WptrOf(pc).value);
    } else if pc.Drop? {
      assert WrcInv(s, pc.w);
      WptrOpen(s, i, pc.w);
    }
  }

  // ---- one step of one thread, and every run -------------------------------------------------------

  lemma LinkedsAfter(s: State, pc: Pc, lucky: bool)
    requires !pc.Idle? && WrcReady(s, pc)
    ensures Sum(IsLinked, RunPc(s, pc, lucky).0.wrcs) == Linkeds(s) + LinkedGain(s, pc)
  {
    if ChangesWrcs(pc) {
      match pc
      case New(_) => SumAppend(IsLinked, s.wrcs, Linked(1, 1));
      case Copy(w) => SumUpdate(IsLinked, s.wrcs, w, Linked(s.wrcs[w].count + 1, s.wrcs[w].handles + 1));
      case Drop(w) => SumUpdate(IsLinked, s.wrcs, w, GiveBack(s.wrcs, w)[w]);
    } else {
    }
  }

  lemma LastingAfter(s: State, pc: Pc, lucky: bool)
    requires !pc.Idle? && WrcReady(s, pc)
    requires pc.Copy? ==> s.wrcs[pc.w].handles >= 1
    requires pc.Drop? && s.wrcs[pc.w].count == 1 ==> s.wrcs[pc.w].handles == 0
    ensures Lasting(RunPc(s, pc, lucky).0.wrcs) == Lasting(s.wrcs) + WptrGain(pc)
  {
    if ChangesWrcs(pc) {
      match pc
      case New(_) => SumAppend(HasWptr, s.wrcs, Linked(1, 1));
      case Copy(w) => SumUpdate(HasWptr, s.wrcs, w, Linked(s.wrcs[w].count + 1, s.wrcs[w].handles + 1));
      case Drop(w) => SumUpdate(HasWptr, s.wrcs, w, GiveBack(s.wrcs, w)[w]);
    } else {
    }
  }

  /** A copy reads a wptr that stays; the last drop of a WeakRefCounter finds no wptr on it. */
  lemma HandlesAt(s: State, i: nat)
    requires i < |s.threads| && (forall v: nat :: WrcInv(s, v)) && WrcReady(s, s.threads[i])
    ensures var pc := s.threads[i];
      && (pc.Copy? ==> s.wrcs[pc.w].handles >= 1)
      && (pc.Drop? && s.wrcs[pc.w].count == 1 ==> s.wrcs[pc.w].handles == 0)
  {
    var pc := s.threads[i];
    if pc.Copy? || pc.Drop? {
      assert WrcInv(s, pc.w);
      Moved(s, i, Idle, pc.w);
    }
  }

  lemma {:induction false} LastingIsOpen(ws: seq<Wrc>)
    ensures 0 <= Lasting(ws) <= Sum(IsLinked, ws)
  {
    SumMono(HasWptr, IsLinked, ws);
    SumCovers(HasWptr, ws);
  }

  lemma TotalNested(ts: seq<Pc>)
    ensures Nested(Total(ts))
  {
    forall pc ensures Nested(Weight(pc)) { WeightNested(pc); }
    AddUpNested(Weight, ts);
  }

  lemma Tallies(s: State, i: nat, q: Pc)
    requires i < |s.threads|
    ensures var t := Total(s.threads);
      && Nested(t) && Within(Weight(s.threads[i]), t)
      && Total(s.threads[i := q]) == Shift(t, Weight(s.threads[i]), Weight(q))
      && Nested(Total(s.threads[i := q]))
  {
    forall pc ensures Nested(Weight(pc)) { WeightNested(pc); }
    AddUpShift(Weight, s.threads, i, q);
    AddUpCovers(Weight, s.threads, i);
    AddUpNested(Weight, s.threads);
    AddUpNested(Weight, s.threads[i := q]);
  }

  /** What a step of a thread leaves: the scalar invariant, and the thread's own. */
  ghost predicate Settled(s: State, s': State, i: nat)
    requires i < |s'.threads|
  {
    && Sound(s', Total(s'.threads), Linkeds(s')) && Backed(s', Total(s'.threads), Lasting(s'.wrcs))
    && PcInv(s', s'.threads[i]) && Monotone(s, s')
  }

  /** Without the discipline: every thread may be anywhere, but what it may rely on holds. */
  ghost predicate Loose(s: State) {
    && Sound(s, Total(s.threads), Linkeds(s))
    && (forall i :: 0 <= i < |s.threads| ==> PcInv(s, s.threads[i]))
    && (forall w: nat :: WrcInv(s, w))
  }

  lemma RunSound(s: State, i: nat, lucky: bool)
    requires i < |s.threads| && Loose(s) && !s.threads[i].Idle?
    requires Acquires(s.threads[i]) ==> Backed(s, Total(s.threads), Lasting(s.wrcs))
    ensures var s' := Exec(s, i, lucky);
      Sound(s', Total(s'.threads), Linkeds(s')) && PcInv(s', s'.threads[i]) && Monotone(s, s')
    ensures !Faults(s, s.threads[i])
  {
    hide RunPc, Sound, Backed, PcInv, WrcInv, Monotone, Weight, Nested, Within, Faults;
    var pc, t, n, m := s.threads[i], Total(s.threads), Linkeds(s), Lasting(s.wrcs);
    var r := RunPc(s, pc, lucky);
    ReadyWrc(s, i);
    Tallies(s, i, r.1);
    assert Fits(s, t, n, pc);
    NoFault(s, t, n, m, pc);
    RunKeeps(s, t, n, m, pc, lucky);
    LinkedsAfter(s, pc, lucky);
    SameSound(s, r.0, Exec(s, i, lucky), Total(s.threads[i := r.1]), n + LinkedGain(s, pc), r.1);
  }

  lemma RunSettles(s: State, i: nat, lucky: bool)
    requires i < |s.threads| && Inv(s) && !s.threads[i].Idle?
    ensures Settled(s, Exec(s, i, lucky), i)
  {
    hide RunPc, Sound, Backed, PcInv, Monotone, Weight, Nested, Within, Faults;
    var pc, t, n, m := s.threads[i], Total(s.threads), Linkeds(s), Lasting(s.wrcs);
    var r := RunPc(s, pc, lucky);
    RunSound(s, i, lucky);
    ReadyWrc(s, i);
    HandlesAt(s, i);
    Tallies(s, i, r.1);
    LastingIsOpen(s.wrcs);
    assert Fits(s, t, n, pc);
    RunBacked(s, t, n, m, pc, lucky);
    LastingAfter(s, pc, lucky);
    SameBacked(r.0, Exec(s, i, lucky), Total(s.threads[i := r.1]), m + WptrGain(pc));
  }

  /** The scalar invariant does not read the threads. */
  lemma SameSound(s: State, r: State, s': State, t: Tally, n: int, q: Pc)
    requires Sound(r, t, n) && PcInv(r, q) && s' == r.(threads := s'.threads, fault := s'.fault) && !s'.fault
    ensures Sound(s', t, n) && PcInv(s', q) && (Monotone(s, r) ==> Monotone(s, s'))
  {
  }

  lemma SameBacked(r: State, s': State, t: Tally, m: int)
    requires Backed(r, t, m) && s'.drained == r.drained && s'.sptrs == r.sptrs
    requires s'.virgin == r.virgin && s'.ext == r.ext
    ensures Backed(s', t, m)
  {
  }

  lemma StartSettles(s: State, i: nat, a: Action)
    requires i < |s.threads| && Inv(s) && Enabled(s, i, a) && !a.Run? && !a.Extend?
    ensures Settled(s, After(s, i, a), i)
  {
    hide Enabled, Sound, Backed, Weight, Nested, Within, PcInv, WrcInv, After, Debited, StartPc, Shift, Plus;
    var q := StartPc(a);
    StartsIdle(s, i, a);
    Tallies(s, i, q);
    NothingShifted(Total(s.threads), Weight(q));
    StartLinkeds(s, i, a);
    StartCore(s, i, a, Total(s.threads), Linkeds(s), Lasting(s.wrcs));
    NotFaulty(s, Total(s.threads), Linkeds(s));
    SameSound(s, Debited(s, a), After(s, i, a), Total(s.threads[i := q]), Linkeds(s), q);
    SameBacked(Debited(s, a), After(s, i, a), Total(s.threads[i := q]), Lasting(Debited(s, a).wrcs));
  }

  lemma NotFaulty(s: State, t: Tally, n: int)
    requires Sound(s, t, n)
    ensures !s.fault
  {
  }

  lemma NothingShifted(t: Tally, x: Tally)
    ensures Shift(t, Tally(), x) == Plus(t, x)
  {
  }

  lemma StartsIdle(s: State, i: nat, a: Action)
    requires i < |s.threads| && Enabled(s, i, a) && !a.Run? && !a.Extend?
    ensures Weight(s.threads[i]) == Weight(Idle) == Tally()
    ensures After(s, i, a) == Debited(s, a).(threads := s.threads[i := StartPc(a)])
    ensures PcInv(Debited(s, a), StartPc(a)) && Monotone(s, Debited(s, a)) && Debited(s, a).fault == s.fault
  {
    hide MayDrop, MayUseObject, MayDropWeak, MayExtend, RoomForMore, Exec, Debited;
    DebitedFits(s, a, StartPc(a));
  }

  lemma DebitedFits(s: State, a: Action, q: Pc)
    requires q.Inc? || q.Dec? || q.New? || q.Copy? || q.Drop? || q.Idle? || (q.Pr? && q.pr.PrLoad?)
    requires q.Dec? ==> q.dec.DecLoad?
    ensures PcInv(Debited(s, a), q) && Monotone(s, Debited(s, a)) && Debited(s, a).fault == s.fault
  {
    hide TakeHandle;
  }

  lemma StartCore(s: State, i: nat, a: Action, t: Tally, n: int, m: int)
    requires i < |s.threads| && Enabled(s, i, a) && !a.Run? && !a.Extend?
    requires Core(s, t, n, m) && Nested(t) && t == Total(s.threads) && m == Lasting(s.wrcs)
    ensures Core(Debited(s, a), Plus(t, Weight(StartPc(a))), n, Lasting(Debited(s, a).wrcs))
  {
    hide Sound, Backed, Supports, Weight, Plus, Nested, Sum;
    match a
    case StartDrop => StrongDropStarts(s, t, n, m);
    case StartStrong => AcquireStarts(s, t, n, m, Inc(IncWeak));
    case StartWeak => AcquireStarts(s, t, n, m, New(NewRef));
    case StartDropWeak(w) =>
      HandleTaken(s.wrcs, w);
      LastingIsOpen(TakeHandle(s.wrcs, w));
      WeakDropStarts(s, t, n, m, Lasting(TakeHandle(s.wrcs, w)), w);
      SameCounts(s, Debited(s, a), Plus(t, Weight(Drop(w))), n, Lasting(TakeHandle(s.wrcs, w)));
    case StartCopy(w) => WeakOpStarts(s, t, n, m, Copy(w));
    case StartPromote(w) => WeakOpStarts(s, t, n, m, Pr(w, PrLoad));
  }

  lemma SameCounts(s: State, s': State, t: Tally, n: int, m: int)
    requires Core(s, t, n, m) && s' == s.(wrcs := s'.wrcs)
    ensures Core(s', t, n, m)
  {
  }

  lemma StartLinkeds(s: State, i: nat, a: Action)
    requires i < |s.threads| && Enabled(s, i, a) && !a.Run? && !a.Extend?
    ensures Linkeds(After(s, i, a)) == Linkeds(s)
  {
    hide MayDrop, MayUseObject, MayExtend, RoomForMore, Exec;
    if a.StartDropWeak? {
      HandleTaken(s.wrcs, a.w);
    }
  }

  lemma HandleTaken(ws: seq<Wrc>, w: nat)
    requires IsOpen(ws, w)
    ensures Sum(IsLinked, TakeHandle(ws, w)) == Sum(IsLinked, ws)
    ensures Lasting(TakeHandle(ws, w)) == Lasting(ws) - OneIf(ws[w].handles == 1)
  {
    SumUpdate(IsLinked, ws, w, ws[w].(handles := ws[w].handles - 1));
    SumUpdate(HasWptr, ws, w, ws[w].(handles := ws[w].handles - 1));
  }

  lemma EnabledSays(s: State, i: nat, a: Action)
    requires i < |s.threads| && Enabled(s, i, a)
    ensures (a.Run? ==> !s.threads[i].Idle?) && (a.Extend? ==> MayExtend(s))
  {
  }

  lemma StepKeeps(s: State, i: nat, a: Action)
    requires i < |s.threads| && Inv(s) && Enabled(s, i, a)
    ensures Inv(After(s, i, a)) && Monotone(s, After(s, i, a))
  {
    hide Sound, Backed, PcInv, WrcInv, Monotone, MayDrop, MayUseObject, MayDropWeak, MayExtend, RoomForMore;
    hide HasHandle, Exec, Debited, Enabled;
    EnabledSays(s, i, a);
    var s' := After(s, i, a);
    if a.Extend? {
      ExtendSettles(s);
    } else if a.Run? {
      RunSettles(s, i, a.lucky);
    } else {
      StartSettles(s, i, a);
    }
    forall k | 0 <= k < |s'.threads| ensures PcInv(s', s'.threads[k]) {
      if k != i || a.Extend? {
        OthersStay(s, i, a, k);
        PcStable(s, s', s.threads[k]);
      }
    }
    forall w: nat ensures WrcInv(s', w) {
      WrcKeeps(s, i, a, w);
    }
    LastingIsOpen(s'.wrcs);
  }

  lemma ExtendSettles(s: State)
    requires Inv(s) && MayExtend(s)
    ensures Core(s.(ext := true), Total(s.threads), Linkeds(s), Lasting(s.wrcs)) && Monotone(s, s.(ext := true))
  {
    hide Sound, Backed, PcInv, WrcInv, Monotone;
    TotalNested(s.threads);
    ExtendKeeps(s, Total(s.threads), Linkeds(s), Lasting(s.wrcs));
  }

  lemma OthersStay(s: State, i: nat, a: Action, k: nat)
    requires i < |s.threads| && k < |s.threads| && (k != i || a.Extend?)
    ensures After(s, i, a).threads[k] == s.threads[k]
  {
  }

  lemma InitInv(s: State)
    requires Init(s)
    ensures Inv(s)
  {
    AllIdle(Weight, s.threads);
    forall w: nat ensures WrcInv(s, w) {
      SumZero(AtDrop(w), s.threads);
      SumZero(UserOf(w), s.threads);
    }
  }

  lemma {:induction false} AllIdle(f: Pc -> Tally, ts: seq<Pc>)
    requires forall i :: 0 <= i < |ts| ==> f(ts[i]) == Tally()
    ensures AddUp(f, ts) == Tally()
  {
    if ts != [] {
      assert forall i :: 0 <= i < |ts[1..]| ==> ts[1..][i] == ts[i + 1];
      AllIdle(f, ts[1..]);
      assert f(ts[0]) == Tally();
    }
  }

  lemma {:induction false} RunsKeep(s: State, es: seq<Event>, s': State)
    requires Inv(s) && Reaches(s, es, s')
    ensures Inv(s') && Monotone(s, s')
    decreases |es|
  {
    if es != [] {
      StepKeeps(s, es[0].i, es[0].a);
      RunsKeep(After(s, es[0].i, es[0].a), es[1..], s');
    }
  }
}
