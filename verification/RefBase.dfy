/**
  * sptr, wptr, RefBase, RefCounter and WeakRefCounter around one object, as a step machine.
  *
  * Each thread runs at most one smart-pointer operation; every step of a thread is one
  * atomic operation (or one virtual call) of refbase.cpp.  A thread that is Idle owns
  * nothing: finished sptrs and wptrs are counted in `sptrs` and in the `handles` of their
  * WeakRefCounter, so any thread may drop, copy or promote any of them.
  */
module RefBase {
  import opened Basics
  import opened Sums

  /** INITIAL_PRIMARY_VALUE: "never had a strong reference". */
  const BIAS: int := 0x1000_0000

  /** Who called RefCounter::DecWeakRefCount. */
  datatype WeakCaller = FromDrop | FromPromote(w: nat) | FromWrc(w: nat)
  /** Who ran callback_, and so `delete` on the object. */
  datatype Deleter = ByStrong | ByWeak(k: WeakCaller)
  /** Who called RefCounter::DecRefCount. */
  datatype RefCaller = InDestructor(o: Deleter) | InDecWeak(k: WeakCaller) | InWrcDelete(w: nat)

  /** RefBase::IncStrongRef; `was` is curCount. */
  datatype IncPc = IncWeak | IncLoad | IncAdd | IncUnbias | IncLog(was: int) | IncFirst(was: int)
  /** RefBase::DecStrongRef, up to its call of DecWeakRefCount. */
  datatype DecPc = DecLoad | DecSub | DecLast | DecFlag | DecCallback
  /** RefCounter::DecWeakRefCount. */
  datatype WeakPc = WeakLoad | WeakSub | WeakFlag | WeakStrong | WeakCallback
  /** RefBase::~RefBase. */
  datatype DelPc = DelClear | DelFlag | DelWeak | DelStrong
  /** RefCounter::DecRefCount. */
  datatype RefPc = RefLoad | RefSub | RefFree
  /** wptr(T*): CreateWeakRef, then the new counter's first IncWeakRefCount. */
  datatype NewPc = NewRef | NewCount | NewWeak
  /** wptr::promote: RefCounter::AttemptIncStrongRef, then GetRefPtr; `cur` is curCount and `got`
      (read by no step) says that the thread has counted a strong reference. */
  datatype PrPc =
    | PrLoad | PrWeak(cur: int)
    | PrCas1(cur: int) | PrReload1 | PrFlag1(cur: int)
    | PrCas2(cur: int) | PrReload2 | PrFlag2(cur: int)
    | PrAdd | PrUnbias | PrFlag3(cur: int, got: bool) | PrPtr

  /** Program counters; `w` is the index of a WeakRefCounter. */
  datatype Pc =
    | Idle
    | Inc(inc: IncPc)
    | Dec(dec: DecPc)
    | Weak(k: WeakCaller, wk: WeakPc)
    | Del(o: Deleter, del: DelPc)
    | Ref(c: RefCaller, ref: RefPc)
    | New(nw: NewPc)
    | Copy(w: nat)
    | Drop(w: nat)
    | Pr(w: nat, pr: PrPc)

  /** A WeakRefCounter shared by its wptrs; the thread that takes `count` to 0 closes it. */
  datatype Wrc = Linked(count: int, handles: int) | Closed

  datatype State = State(
    // RefCounter: atomicStrong_, atomicWeak_, atomicRefCount_, the life-time flag, callback_ set
    strong: int, weak: int, refc: int, ext: bool, cb: bool,
    wrcs: seq<Wrc>, sptrs: int, threads: seq<Pc>,
    // history, read by no step
    bias: bool,      // BIAS is still part of `strong`
    virgin: bool,    // no strong reference was ever counted
    touched: bool,   // some weak reference was ever counted
    drained: bool,   // a decrement took `weak` to 0
    base: bool,      // the object's own share of `refc` is not given back yet
    firsts: int,     // calls of OnFirstStrongRef
    lasts: int,      // calls of OnLastStrongRef
    unbiased: int,   // subtractions of BIAS
    deletes: int,    // `delete` of the object
    frees: int,      // `delete` of the RefCounter
    fault: bool)     // some step used the object, the RefCounter or a WeakRefCounter after its delete

  // ---- what the threads hold -------------------------------------------------------------

  /** What a thread in the middle of an operation holds and is about to do. */
  datatype Tally = Tally(
    nameonly strong: int := 0,      // counted in `strong`, not yet (or no longer) an sptr
    nameonly weak: int := 0,        // counted in `weak` on the thread's own account
    nameonly refc: int := 0,        // counted in `refc`: a WeakRefCounter unpublished or being deleted
    nameonly bias: int := 0,        // saw BIAS in its increment, has not subtracted it yet
    nameonly first: int := 0,       // will call OnFirstStrongRef
    nameonly keeping: int := 0,     // of `strong`: to become an sptr
    nameonly acquiring: int := 0,   // uses a raw pointer without a counted reference: sptr(T*), sptr copy, wptr(T*)
    nameonly rising: int := 0,      // of them, those that are counted in `weak` already
    nameonly publishing: int := 0,  // makes a WeakRefCounter, not yet counted in `weak`
    nameonly dropping: int := 0,    // is giving up a reference
    nameonly lastStrong: int := 0,  // took `strong` from 1 to 0, has not deleted the object
    nameonly lastWeak: int := 0,    // took `weak` from 1 to 0, has not deleted the object
    nameonly finishing: int := 0,   // took `weak` from 1 to 0, still has the object's share of `refc` to return
    nameonly unhooking: int := 0,   // is deleting the object, callback_ still set
    nameonly freeing: int := 0,     // took `refc` to 0, about to delete the RefCounter
    nameonly busy: int := 0)        // is in an operation

  function WrcShare(k: WeakCaller): int { OneIf(k.FromWrc?) }

  function RefWrcShare(c: RefCaller): int {
    match c
    case InWrcDelete(_) => 1
    case InDecWeak(k) => WrcShare(k)
    case InDestructor(o) => if o.ByWeak? then WrcShare(o.k) else 0
  }

  /** DecRefCount on behalf of the object, called from a decrement of `weak` to 0. */
  predicate OnObjectsBehalf(c: RefCaller) { c.InDecWeak? || (c.InDestructor? && c.o.ByWeak?) }

  function IncTally(p: IncPc): Tally {
    match p
    case IncWeak => Tally(acquiring := 1, busy := 1)
    case IncLoad => Tally(weak := 1, acquiring := 1, rising := 1, busy := 1)
    case IncAdd => Tally(weak := 1, acquiring := 1, rising := 1, busy := 1)
    case IncUnbias => Tally(strong := 1, weak := 1, bias := 1, first := 1, keeping := 1, busy := 1)
    case IncLog(was) => Tally(strong := 1, weak := 1, first := OneIf(was == BIAS), keeping := 1, busy := 1)
    case IncFirst(was) => Tally(strong := 1, weak := 1, first := OneIf(was == BIAS), keeping := 1, busy := 1)
  }

  function DecTally(p: DecPc): Tally {
    if p.DecLoad? || p.DecSub? then Tally(strong := 1, weak := 1, dropping := 1, busy := 1)
    else Tally(weak := 1, dropping := 1, lastStrong := 1, busy := 1)
  }

  function WeakTally(k: WeakCaller, p: WeakPc): Tally {
    if p.WeakLoad? || p.WeakSub? then Tally(weak := 1, refc := WrcShare(k), dropping := 1, busy := 1)
    else Tally(refc := WrcShare(k), dropping := 1, lastWeak := 1, finishing := 1, busy := 1)
  }

  function DelTally(o: Deleter, p: DelPc): Tally {
    match o
    case ByStrong => Tally(weak := 1, dropping := 1, unhooking := OneIf(p.DelClear?), busy := 1)
    case ByWeak(k) =>
      Tally(refc := WrcShare(k), dropping := 1, finishing := 1, unhooking := OneIf(p.DelClear?), busy := 1)
  }

  function RefTally(c: RefCaller, p: RefPc): Tally {
    if p.RefFree? then
      Tally(refc := if c.InWrcDelete? then 0 else RefWrcShare(c), dropping := 1, freeing := 1, busy := 1)
    else
      Tally(refc := RefWrcShare(c), dropping := 1, finishing := OneIf(OnObjectsBehalf(c)), busy := 1)
  }

  function NewTally(p: NewPc): Tally {
    if p.NewRef? then Tally(acquiring := 1, busy := 1) else Tally(refc := 1, publishing := 1, busy := 1)
  }

  function PrTally(p: PrPc): Tally {
    match p
    case PrLoad => Tally(busy := 1)
    case PrWeak(_) => Tally(busy := 1)
    case PrUnbias => Tally(strong := 1, weak := 1, bias := 1, keeping := 1, busy := 1)
    case PrFlag3(_, got) => Tally(strong := OneIf(got), weak := 1, keeping := OneIf(got), busy := 1)
    case PrPtr => Tally(strong := 1, weak := 1, keeping := 1, busy := 1)
    case _ => Tally(weak := 1, busy := 1)
  }

  function Weight(pc: Pc): Tally {
    match pc
    case Idle => Tally()
    case Inc(p) => IncTally(p)
    case Dec(p) => DecTally(p)
    case Weak(k, p) => WeakTally(k, p)
    case Del(o, p) => DelTally(o, p)
    case Ref(c, p) => RefTally(c, p)
    case New(p) => NewTally(p)
    case Copy(_) => Tally(busy := 1)
    case Drop(_) => Tally(dropping := 1, busy := 1)
    case Pr(_, p) => PrTally(p)
  }

  function Plus(x: Tally, y: Tally): Tally {
    Tally(strong := x.strong + y.strong, weak := x.weak + y.weak, refc := x.refc + y.refc,
          bias := x.bias + y.bias, first := x.first + y.first, keeping := x.keeping + y.keeping,
          acquiring := x.acquiring + y.acquiring, rising := x.rising + y.rising,
          publishing := x.publishing + y.publishing,
          dropping := x.dropping + y.dropping, lastStrong := x.lastStrong + y.lastStrong,
          lastWeak := x.lastWeak + y.lastWeak, finishing := x.finishing + y.finishing,
          unhooking := x.unhooking + y.unhooking, freeing := x.freeing + y.freeing, busy := x.busy + y.busy)
  }

  /** All threads together. */
  ghost function Total(ts: seq<Pc>): Tally { AddUp(Weight, ts) }

  ghost function AddUp(f: Pc -> Tally, ts: seq<Pc>): Tally {
    if ts == [] then Tally() else Plus(f(ts[0]), AddUp(f, ts[1..]))
  }

  /** About to give back a wptr of WeakRefCounter w. */
  function AtDrop(w: nat): Pc -> int {
    pc => OneIf(pc == Drop(w))
  }

  /** In an operation on a wptr of WeakRefCounter w that must stay alive meanwhile. */
  function UserOf(w: nat): Pc -> int {
    pc => OneIf(WptrOf(pc) == Some(w))
  }

  /** The WeakRefCounter whose wptr a copy or a promotion reads. */
  function WptrOf(pc: Pc): Option<nat> {
    match pc
    case Copy(w) => Some(w)
    case Pr(w, _) => Some(w)
    case Weak(k, _) => PromotedOf(k)
    case Del(ByWeak(k), _) => PromotedOf(k)
    case Ref(InDecWeak(k), _) => PromotedOf(k)
    case Ref(InDestructor(ByWeak(k)), _) => PromotedOf(k)
    case _ => None
  }

  function PromotedOf(k: WeakCaller): Option<nat> { if k.FromPromote? then Some(k.w) else None }

  /** How many WeakRefCounters hold their share of `weak` and of `refc`. */
  function IsLinked(x: Wrc): int { OneIf(x.Linked?) }

  /** How many of them are held by some wptr. */
  function HasWptr(x: Wrc): int { OneIf(x.Linked? && x.handles >= 1) }

  // ---- steps of a running operation --------------------------------------------------------

  predicate IsOpen(ws: seq<Wrc>, w: nat) { w < |ws| && ws[w].Linked? }

  predicate LinkedAt(s: State, w: nat) { IsOpen(s.wrcs, w) }

  predicate UsesCounter(pc: Pc) {
    !(pc.Idle? || (pc.Inc? && pc.inc.IncFirst?) || pc == Dec(DecLast) || pc == New(NewCount) || pc.Copy? || pc.Drop?)
  }

  /** The step reads a member of the object, calls one of its virtual functions or deletes it. */
  predicate UsesObject(s: State, pc: Pc) {
    match pc
    case Inc(p) => !p.IncAdd? && !p.IncUnbias?
    case Dec(p) => p.DecLoad? || p.DecLast? || (p.DecCallback? && s.cb)
    case Weak(_, p) => p.WeakCallback? && s.cb
    case New(p) => p.NewRef?
    case _ => false
  }

  /** The WeakRefCounter that the step uses is not closed. */
  predicate WrcReady(s: State, pc: Pc) {
    match pc
    case Copy(w) => LinkedAt(s, w)
    case Drop(w) => LinkedAt(s, w)
    case Pr(w, p) => p.PrLoad? || p.PrPtr? ==> LinkedAt(s, w)
    case _ => true
  }

  /** The step about to be taken uses memory that is already deleted. */
  predicate Faults(s: State, pc: Pc) {
    (UsesCounter(pc) && s.frees > 0) || (UsesObject(s, pc) && s.deletes > 0) || !WrcReady(s, pc)
  }

  /** Back from DecWeakRefCount. */
  function Return(k: WeakCaller): Pc {
    match k case FromDrop => Idle case FromPromote(_) => Idle case FromWrc(w) => Ref(InWrcDelete(w), RefLoad)
  }

  /** Back from ~RefBase. */
  function Deleted(o: Deleter): Pc {
    match o case ByStrong => Weak(FromDrop, WeakLoad) case ByWeak(k) => Return(k)
  }

  /** Back from DecRefCount. */
  function Released(c: RefCaller): Pc {
    match c case InDestructor(o) => Deleted(o) case InDecWeak(k) => Return(k) case InWrcDelete(_) => Idle
  }

  /** One successful strong increment. */
  function Gain(s: State): State { s.(strong := s.strong + 1, virgin := false) }

  function Unbias(s: State): State {
    s.(strong := s.strong - BIAS, bias := false, unbiased := s.unbiased + 1)
  }

  function IncWeakCount(s: State): State { s.(weak := s.weak + 1, touched := true) }

  function RunInc(s: State, p: IncPc): (r: (State, Pc))
    ensures r.0.wrcs == s.wrcs
  {
    match p
    case IncWeak => (IncWeakCount(s), Inc(IncLoad))
    case IncLoad => (s, Inc(if s.strong >= 0 then IncAdd else IncLog(s.strong)))
    case IncAdd => (Gain(s), Inc(if s.strong == BIAS then IncUnbias else IncLog(s.strong)))
    case IncUnbias => (Unbias(s), Inc(IncLog(BIAS)))
    case IncLog(was) => (s, Inc(IncFirst(was)))
    case IncFirst(was) => (s.(firsts := s.firsts + OneIf(was == BIAS), sptrs := s.sptrs + 1), Idle)
  }

  function RunDec(s: State, p: DecPc): (r: (State, Pc))
    ensures r.0.wrcs == s.wrcs
  {
    match p
    case DecLoad => (s, if s.strong != BIAS && s.strong > 0 then Dec(DecSub) else Weak(FromDrop, WeakLoad))
    case DecSub => (s.(strong := s.strong - 1), if s.strong == 1 then Dec(DecLast) else Weak(FromDrop, WeakLoad))
    case DecLast => (s.(lasts := s.lasts + 1), Dec(DecFlag))
    case DecFlag => (s, if s.ext then Weak(FromDrop, WeakLoad) else Dec(DecCallback))
    case DecCallback =>
      if s.cb then (s.(deletes := s.deletes + 1), Del(ByStrong, DelClear)) else (s, Weak(FromDrop, WeakLoad))
  }

  function RunWeak(s: State, k: WeakCaller, p: WeakPc): (r: (State, Pc))
    ensures r.0.wrcs == s.wrcs
  {
    match p
    case WeakLoad => (s, if s.weak > 0 then Weak(k, WeakSub) else Return(k))
    case WeakSub =>
      (s.(weak := s.weak - 1, drained := s.drained || s.weak == 1),
       if s.weak == 1 then Weak(k, WeakFlag) else Return(k))
    case WeakFlag => (s, Weak(k, if s.ext then WeakCallback else WeakStrong))
    case WeakStrong => (s, if s.strong == BIAS then Weak(k, WeakCallback) else Ref(InDecWeak(k), RefLoad))
    case WeakCallback => if s.cb then (s.(deletes := s.deletes + 1), Del(ByWeak(k), DelClear)) else (s, Return(k))
  }

  function RunDel(s: State, o: Deleter, p: DelPc): (r: (State, Pc))
    ensures r.0.wrcs == s.wrcs
  {
    match p
    case DelClear => (s.(cb := false), Del(o, DelFlag))
    case DelFlag => (s, Del(o, if s.ext then DelWeak else DelStrong))
    case DelWeak => (s, if s.weak == 0 then Ref(InDestructor(o), RefLoad) else Del(o, DelStrong))
    case DelStrong => (s, if s.strong == BIAS then Ref(InDestructor(o), RefLoad) else Deleted(o))
  }

  function RunRef(s: State, c: RefCaller, p: RefPc): (r: (State, Pc))
    ensures r.0.wrcs == s.wrcs
  {
    match p
    case RefLoad => (s, if s.refc > 0 then Ref(c, RefSub) else Released(c))
    case RefSub =>
      (s.(refc := s.refc - 1, base := s.base && c.InWrcDelete?), if s.refc == 1 then Ref(c, RefFree) else Released(c))
    case RefFree => (s.(frees := s.frees + 1), Released(c))
  }

  function RunNew(s: State, p: NewPc): (r: (State, Pc))
    ensures !p.NewWeak? ==> r.0.wrcs == s.wrcs
  {
    match p
    case NewRef => (s.(refc := s.refc + 1), New(NewCount))
    case NewCount => (s, New(NewWeak))
    case NewWeak => (IncWeakCount(s).(wrcs := s.wrcs + [Linked(1, 1)]), Idle)
  }

  function RunCopy(s: State, w: nat): (State, Pc) {
    if LinkedAt(s, w) then
      (s.(wrcs := s.wrcs[w := Linked(s.wrcs[w].count + 1, s.wrcs[w].handles + 1)]), Idle)
    else (s, Idle)
  }

  /** WeakRefCounter::DecWeakRefCount; the share of `weak` and of `refc` passes to the thread that closes it. */
  function RunDrop(s: State, w: nat): (State, Pc) {
    if !LinkedAt(s, w) then (s, Idle)
    else (s.(wrcs := GiveBack(s.wrcs, w)), if s.wrcs[w].count == 1 then Weak(FromWrc(w), WeakLoad) else Idle)
  }

  function GiveBack(ws: seq<Wrc>, w: nat): seq<Wrc>
    requires IsOpen(ws, w)
  {
    ws[w := if ws[w].count == 1 then Closed else Linked(ws[w].count - 1, ws[w].handles)]
  }

  /** The test at the head of the first promotion loop. */
  function Loop1(w: nat, cur: int): Pc {
    Pr(w, if cur > 0 && cur != BIAS then PrCas1(cur) else if cur == BIAS then PrFlag1(cur) else PrFlag2(cur))
  }

  /** The test at the head of the second promotion loop. */
  function Loop2(w: nat, cur: int): Pc { Pr(w, if cur > 0 then PrCas2(cur) else PrFlag2(cur)) }

  /** ATTEMPT_SUCCESS. */
  function Judge(w: nat, cur: int, got: bool): Pc {
    if cur == BIAS then Pr(w, PrUnbias)
    else if cur < 0 then Weak(FromPromote(w), WeakLoad)
    else Pr(w, PrFlag3(cur, got))
  }

  /** `lucky` is false when compare_exchange_weak fails spuriously. */
  function RunPr(s: State, w: nat, p: PrPc, lucky: bool): (r: (State, Pc))
    ensures r.0.wrcs == s.wrcs
  {
    match p
    case PrLoad => (s, Pr(w, PrWeak(s.strong)))
    case PrWeak(cur) => (IncWeakCount(s), Loop1(w, cur))
    case PrCas1(cur) => if lucky && s.strong == cur then (Gain(s), Judge(w, cur, true)) else (s, Pr(w, PrReload1))
    case PrReload1 => (s, Loop1(w, s.strong))
    case PrFlag1(cur) => (s, if s.ext then Pr(w, PrFlag2(cur)) else Loop2(w, cur))
    case PrCas2(cur) => if lucky && s.strong == cur then (Gain(s), Judge(w, cur, true)) else (s, Pr(w, PrReload2))
    case PrReload2 => (s, Loop2(w, s.strong))
    case PrFlag2(cur) => (s, if s.ext then Pr(w, PrAdd) else Judge(w, cur, false))
    case PrAdd => (Gain(s), Judge(w, s.strong, true))
    case PrUnbias => (Unbias(s), Pr(w, PrPtr))
    case PrFlag3(cur, got) => (s, if !s.ext && cur == 0 then Weak(FromPromote(w), WeakLoad) else Pr(w, PrPtr))
    case PrPtr => (if s.cb then s.(sptrs := s.sptrs + 1) else s, Idle)
  }

  /** Only three steps change a WeakRefCounter. */
  predicate ChangesWrcs(pc: Pc) { pc == New(NewWeak) || pc.Copy? || pc.Drop? }

  function RunPc(s: State, pc: Pc, lucky: bool): (r: (State, Pc))
    ensures !ChangesWrcs(pc) ==> r.0.wrcs == s.wrcs
  {
    match pc
    case Idle => (s, Idle)
    case Inc(p) => RunInc(s, p)
    case Dec(p) => RunDec(s, p)
    case Weak(k, p) => RunWeak(s, k, p)
    case Del(o, p) => RunDel(s, o, p)
    case Ref(c, p) => RunRef(s, c, p)
    case New(p) => RunNew(s, p)
    case Copy(w) => RunCopy(s, w)
    case Drop(w) => RunDrop(s, w)
    case Pr(w, p) => RunPr(s, w, p, lucky)
  }

  /** One step of thread i's current operation. */
  function Exec(s: State, i: nat, lucky: bool): (s': State)
    requires i < |s.threads|
    ensures |s'.threads| == |s.threads|
  {
    var (s1, pc1) := RunPc(s, s.threads[i], lucky);
    s1.(threads := s.threads[i := pc1], fault := s.fault || Faults(s, s.threads[i]))
  }

  // ---- starting an operation: the discipline of the clients --------------------------------

  datatype Action =
    | Run(lucky: bool)              // the thread's operation takes its next step
    | StartStrong                   // sptr(T*) or a copy of an sptr
    | StartDrop                     // ~sptr or clear
    | StartWeak                     // wptr(T*) or wptr(sptr)
    | StartCopy(w: nat)             // a copy of a wptr
    | StartDropWeak(w: nat)         // ~wptr
    | StartPromote(w: nat)          // wptr::promote
    | Extend                        // ExtendObjectLifetime

  /** `new T`: the RefCounter holds the object's own reference and nothing else exists. */
  ghost predicate Init(s: State) {
    && s.strong == BIAS && s.weak == 0 && s.refc == 1 && !s.ext && s.cb
    && s.wrcs == [] && s.sptrs == 0 && (forall i :: 0 <= i < |s.threads| ==> s.threads[i].Idle?)
    && |s.threads| < BIAS
    && s.bias && s.virgin && !s.touched && !s.drained && s.base
    && s.firsts == 0 && s.lasts == 0 && s.unbiased == 0 && s.deletes == 0 && s.frees == 0 && !s.fault
  }

  /** References in existence or in the making, kept below 1 << 28. */
  ghost predicate RoomForMore(s: State) {
    s.sptrs + Total(s.threads).busy + 1 < BIAS
  }

  /** The WeakRefCounters that keep `weak` from falling to 0 as long as their wptrs are kept. */
  ghost function Lasting(ws: seq<Wrc>): int { Sum(HasWptr, ws) }

  /** The object lives as long as `weak` is above 0: the life-time is extended, or there was no strong reference yet. */
  predicate LivesOnWeak(s: State) { s.virgin || s.ext }

  /** Whoever uses a raw pointer or makes a wptr can rely on what stays: a strong reference; or a wptr, or another
      thread that is counted in `weak` already and becomes an sptr, if `weak` keeps the object; or else, to make a
      wptr, a wptr.  `strong` references stay, and `m` WeakRefCounters with a wptr. */
  ghost predicate Supported(s: State, strong: int, m: int) {
    var t := Total(s.threads);
    Supports(t, LivesOnWeak(s), strong, m)
  }

  predicate Supports(t: Tally, onWeak: bool, strong: int, m: int) {
    || t.acquiring + t.publishing == 0
    || strong >= 1
    || (onWeak && t.rising + m >= 1)
    || (t.acquiring == 0 && m >= 1)
  }

  /** A raw pointer or an sptr may be used: some sptr is kept meanwhile; or the object lives on `weak`, and that is
      held or, when there was no strong reference yet, nobody is giving up anything. */
  ghost predicate MayUseObject(s: State) {
    var t := Total(s.threads);
    || s.sptrs >= 1
    || (LivesOnWeak(s) && s.deletes == 0 && t.rising + Lasting(s.wrcs) >= 1)
    || (s.virgin && s.deletes == 0 && t.dropping == 0)
  }

  /** An sptr may be dropped if what stays supports the threads that need it. */
  ghost predicate MayDrop(s: State) {
    s.sptrs >= 1 && Supported(s, s.sptrs - 1 + Total(s.threads).keeping, Lasting(s.wrcs))
  }

  ghost predicate HasHandle(s: State, w: nat) { LinkedAt(s, w) && s.wrcs[w].handles >= 1 }

  /** One wptr less on WeakRefCounter w. */
  function TakeHandle(ws: seq<Wrc>, w: nat): seq<Wrc>
    requires IsOpen(ws, w)
  {
    ws[w := ws[w].(handles := ws[w].handles - 1)]
  }

  /** No running copy or promotion reads the wptr that is given up. */
  ghost predicate Unread(s: State, w: nat) {
    HasHandle(s, w) && (Sum(UserOf(w), s.threads) == 0 || s.wrcs[w].handles >= 2)
  }

  /** And so may a wptr, unless a running copy or promotion reads it. */
  ghost predicate MayDropWeak(s: State, w: nat) {
    Unread(s, w) && Supported(s, s.sptrs + Total(s.threads).keeping, Lasting(TakeHandle(s.wrcs, w)))
  }

  /** ExtendObjectLifetime comes before any use, or from the holder of an sptr. */
  ghost predicate MayExtend(s: State) {
    s.sptrs >= 1 || (!s.touched && s.deletes == 0 && Total(s.threads).busy == 0)
  }

  ghost predicate Enabled(s: State, i: nat, a: Action)
    requires i < |s.threads|
  {
    match a
    case Run(_) => !s.threads[i].Idle?
    case Extend => MayExtend(s)
    case StartDrop => s.threads[i].Idle? && MayDrop(s)
    case StartDropWeak(w) => s.threads[i].Idle? && RoomForMore(s) && MayDropWeak(s, w)
    case StartStrong => s.threads[i].Idle? && RoomForMore(s) && MayUseObject(s)
    case StartWeak => s.threads[i].Idle? && RoomForMore(s) && MayUseObject(s)
    case StartCopy(w) => s.threads[i].Idle? && RoomForMore(s) && HasHandle(s, w)
    case StartPromote(w) => s.threads[i].Idle? && RoomForMore(s) && HasHandle(s, w)
  }

  function StartPc(a: Action): Pc {
    match a
    case StartStrong => Inc(IncWeak)
    case StartDrop => Dec(DecLoad)
    case StartWeak => New(NewRef)
    case StartCopy(w) => Copy(w)
    case StartDropWeak(w) => Drop(w)
    case StartPromote(w) => Pr(w, PrLoad)
    case _ => Idle
  }

  /** s without the sptr or the wptr that a gives up. */
  function Debited(s: State, a: Action): State {
    match a
    case StartDrop => s.(sptrs := s.sptrs - 1)
    case StartDropWeak(w) =>
      if LinkedAt(s, w) then s.(wrcs := TakeHandle(s.wrcs, w)) else s
    case _ => s
  }

  /** The state after thread i does a. */
  function After(s: State, i: nat, a: Action): (s': State)
    requires i < |s.threads|
    ensures |s'.threads| == |s.threads|
  {
    match a
    case Run(lucky) => Exec(s, i, lucky)
    case Extend => s.(ext := true)
    case _ => Debited(s, a).(threads := s.threads[i := StartPc(a)])
  }

  datatype Event = Event(i: nat, a: Action)

  /** s' is reached from s by the events es, each by a thread that the discipline lets do it. */
  ghost predicate Reaches(s: State, es: seq<Event>, s': State)
    decreases |es|
  {
    if es == [] then s == s'
    else
      && es[0].i < |s.threads| && Enabled(s, es[0].i, es[0].a)
      && Reaches(After(s, es[0].i, es[0].a), es[1..], s')
  }
}
