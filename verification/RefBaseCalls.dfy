/**
  * Every call on a smart pointer does its work: what a thread has done to the references when it is back from the call,
  * whatever the other threads do meanwhile; and that it comes back.
  */
module RefBaseCalls {
  import opened Basics
  import opened Sums
  import opened RefBase
  import opened RefBaseProofs
  import opened RefBaseSafety

  // ---- what a thread does itself --------------------------------------------------------------------------

  /** What there is, or what a thread has added to it: sptrs, calls of OnFirstStrongRef and of OnLastStrongRef,
      WeakRefCounters made, wptrs, and of these the wptrs on one of them, if one is named. */
  datatype Work = Work(
    nameonly sptrs: int := 0, nameonly firsts: int := 0, nameonly lasts: int := 0, nameonly made: int := 0,
    nameonly wptrs: int := 0, nameonly here: int := 0)

  function Add(x: Work, y: Work): Work {
    Work(sptrs := x.sptrs + y.sptrs, firsts := x.firsts + y.firsts, lasts := x.lasts + y.lasts,
         made := x.made + y.made, wptrs := x.wptrs + y.wptrs, here := x.here + y.here)
  }

  function Handles(x: Wrc): int { if x.Linked? then x.handles else 0 }

  /** v names a WeakRefCounter there is, if any. */
  predicate On(s: State, v: Option<nat>) { v.Some? ==> v.value < |s.wrcs| }

  ghost function Have(s: State, v: Option<nat>): Work {
    Work(sptrs := s.sptrs, firsts := s.firsts, lasts := s.lasts, made := |s.wrcs|, wptrs := Sum(Handles, s.wrcs),
         here := if v.Some? && v.value < |s.wrcs| then Handles(s.wrcs[v.value]) else 0)
  }

  ghost function Gained(s: State, s': State, v: Option<nat>): Work {
    var x, y := Have(s, v), Have(s', v);
    Work(sptrs := y.sptrs - x.sptrs, firsts := y.firsts - x.firsts, lasts := y.lasts - x.lasts,
         made := y.made - x.made, wptrs := y.wptrs - x.wptrs, here := y.here - x.here)
  }

  /** The work of thread i itself in a run. */
  ghost function Done(s: State, es: seq<Event>, i: nat, v: Option<nat>): Work
    decreases |es|
  {
    if es == [] || es[0].i >= |s.threads| then Work()
    else
      var s1 := After(s, es[0].i, es[0].a);
      Add(if es[0].i == i then Gained(s, s1, v) else Work(), Done(s1, es[1..], i, v))
  }

  /** What `strong` may go through: IncStrongRef, or a promotion, takes it up from BIAS; or it goes down to 0. */
  datatype Turn = UpBySptr | UpByPromotion | Down

  predicate Takes(s: State, e: Event, turn: Turn)
    requires e.i < |s.threads|
  {
    var strong := After(s, e.i, e.a).strong;
    match turn
    case UpBySptr => s.strong == BIAS && strong == BIAS + 1 && s.threads[e.i].Inc?
    case UpByPromotion => s.strong == BIAS && strong == BIAS + 1 && s.threads[e.i].Pr?
    case Down => s.strong == 1 && strong == 0
  }

  /** How often that happens in a run, by anybody or by one thread. */
  ghost function Times(s: State, es: seq<Event>, turn: Turn, who: Option<nat>): int
    decreases |es|
  {
    if es == [] || es[0].i >= |s.threads| then 0
    else
      OneIf((who.None? || who == Some(es[0].i)) && Takes(s, es[0], turn))
        + Times(After(s, es[0].i, es[0].a), es[1..], turn, who)
  }

  // ---- what a thread still owes -----------------------------------------------------------------------------

  /** What a thread at pc has still to do before it is back, if a promotion succeeds. */
  function Owed(pc: Pc, v: Option<nat>): Work {
    match pc
    case Inc(p) => Work(sptrs := 1, firsts := IncTally(p).first)
    case Dec(p) => Work(lasts := OneIf(p.DecLast?))
    case New(_) => Work(made := 1, wptrs := 1)
    case Copy(w) => Work(wptrs := 1, here := OneIf(v == Some(w)))
    case Pr(_, _) => Work(sptrs := 1)
    case _ => Work()
  }

  /** What is done, and what is left of what was due, agree; OnFirstStrongRef and OnLastStrongRef are due to the
      thread that takes `strong` up from BIAS, `ups` times, or down to 0, `downs` times. */
  predicate Balanced(done: Work, left: Work, due: Work, ups: int, downs: int, lost: bool) {
    && done.sptrs + left.sptrs == due.sptrs - OneIf(lost)
    && done.firsts + left.firsts == due.firsts + ups
    && done.lasts + left.lasts == due.lasts + downs
    && done.made + left.made == due.made && done.wptrs + left.wptrs == due.wptrs
    && done.here + left.here == due.here
  }

  /** A step at pc that leads to r. */
  ghost predicate Pays(s: State, pc: Pc, r: (State, Pc), v: Option<nat>, lost: bool) {
    && Balanced(Gained(s, r.0, v), Owed(r.1, v), Owed(pc, v),
                OneIf(s.strong == BIAS && r.0.strong == BIAS + 1 && pc.Inc?),
                OneIf(s.strong == 1 && r.0.strong == 0), lost)
    && |r.0.wrcs| >= |s.wrcs|
  }

  lemma IncPays(s: State, p: IncPc, v: Option<nat>)
    requires On(s, v)
    ensures Pays(s, Inc(p), RunInc(s, p), v, false)
  {
  }

  lemma DecPays(s: State, p: DecPc, v: Option<nat>)
    requires On(s, v)
    ensures Pays(s, Dec(p), RunDec(s, p), v, false)
  {
    hide Sum;
    if p.DecSub? || p.DecLast? {
    } else {
      hide RunDec, Pays;
      DecLeaves(s, p);
      LeavingPays(s, Dec(p), RunDec(s, p), v);
    }
  }

  lemma DecLeaves(s: State, p: DecPc)
    requires !p.DecSub? && !p.DecLast?
    ensures Leaves(s, RunDec(s, p).0)
    ensures var q := RunDec(s, p).1; Releases(q) || q == Dec(DecSub) || q == Dec(DecCallback)
  {
  }

  lemma NewPays(s: State, p: NewPc, v: Option<nat>)
    requires On(s, v)
    ensures Pays(s, New(p), RunNew(s, p), v, false)
  {
    hide Sum;
    if p.NewWeak? {
      SumAppend(Handles, s.wrcs, Linked(1, 1));
      assert Handles(Linked(1, 1)) == 1;
    }
  }

  lemma CopyPays(s: State, w: nat, v: Option<nat>)
    requires On(s, v) && LinkedAt(s, w)
    ensures Pays(s, Copy(w), RunCopy(s, w), v, false)
  {
    SumUpdate(Handles, s.wrcs, w, RunCopy(s, w).0.wrcs[w]);
  }

  /** The last drop of a WeakRefCounter finds no wptr on it. */
  lemma DropPays(s: State, w: nat, v: Option<nat>)
    requires On(s, v) && LinkedAt(s, w) && (s.wrcs[w].count == 1 ==> s.wrcs[w].handles == 0)
    ensures Pays(s, Drop(w), RunDrop(s, w), v, false)
  {
    SumUpdate(Handles, s.wrcs, w, GiveBack(s.wrcs, w)[w]);
  }

  /** What is counted in Work stays as it is, and so does `strong`. */
  predicate Leaves(s: State, s': State) {
    && s'.sptrs == s.sptrs && s'.firsts == s.firsts && s'.lasts == s.lasts && s'.wrcs == s.wrcs
    && s'.strong == s.strong
  }

  /** Gives something back, or is back. */
  predicate Releases(pc: Pc) { pc.Weak? || pc.Del? || pc.Ref? || pc.Idle? }

  lemma ReleasesOn(k: WeakCaller, o: Deleter, c: RefCaller)
    ensures Releases(Return(k)) && Releases(Deleted(o)) && Releases(Released(c))
  {
  }

  lemma WeakLeaves(s: State, k: WeakCaller, p: WeakPc)
    ensures Leaves(s, RunWeak(s, k, p).0) && Releases(RunWeak(s, k, p).1)
  {
    hide Return;
    ReleasesOn(k, ByStrong, InDecWeak(k));
  }

  lemma DelLeaves(s: State, o: Deleter, p: DelPc)
    ensures Leaves(s, RunDel(s, o, p).0) && Releases(RunDel(s, o, p).1)
  {
    hide Deleted;
    ReleasesOn(FromDrop, o, InDestructor(o));
  }

  lemma RefLeaves(s: State, c: RefCaller, p: RefPc)
    ensures Leaves(s, RunRef(s, c, p).0) && Releases(RunRef(s, c, p).1)
  {
    hide Released;
    ReleasesOn(FromDrop, ByStrong, c);
  }

  lemma ReleaseLeaves(s: State, pc: Pc, lucky: bool)
    requires pc.Weak? || pc.Del? || pc.Ref?
    ensures Leaves(s, RunPc(s, pc, lucky).0) && Releases(RunPc(s, pc, lucky).1)
  {
    hide RunWeak, RunDel, RunRef, Leaves, Releases;
    match pc
    case Weak(k, p) => WeakLeaves(s, k, p);
    case Del(o, p) => DelLeaves(s, o, p);
    case Ref(c, p) => RefLeaves(s, c, p);
  }

  lemma LeavingPays(s: State, pc: Pc, r: (State, Pc), v: Option<nat>)
    requires On(s, v) && Leaves(s, r.0) && Owed(r.1, v) == Owed(pc, v)
    ensures Pays(s, pc, r, v, false)
  {
    hide Owed, Sum;
  }

  lemma ReleasePays(s: State, pc: Pc, lucky: bool, v: Option<nat>)
    requires On(s, v) && (pc.Weak? || pc.Del? || pc.Ref?)
    ensures Pays(s, pc, RunPc(s, pc, lucky), v, false)
  {
    hide RunPc, Pays;
    ReleaseLeaves(s, pc, lucky);
    LeavingPays(s, pc, RunPc(s, pc, lucky), v);
  }

  /** The steps of a promotion. */
  lemma PromoteCounts(s: State, w: nat, p: PrPc, lucky: bool)
    requires p.PrPtr? ==> s.cb
    ensures var r := RunPr(s, w, p, lucky).0;
      r.sptrs == (if p.PrPtr? then s.sptrs + 1 else s.sptrs) && r.firsts == s.firsts && r.lasts == s.lasts
  {
    hide Judge, Loop1, Loop2;
    if Counting(p) {
      CountCounts(s, w, p, lucky);
    }
  }

  lemma CountCounts(s: State, w: nat, p: PrPc, lucky: bool)
    requires Counting(p)
    ensures var r := RunPr(s, w, p, lucky).0; r == s || r == Gain(s)
  {
    hide Gain, Judge, Loop1, Loop2;
  }

  lemma PromoteGoes(s: State, w: nat, p: PrPc, lucky: bool)
    ensures var pc := RunPr(s, w, p, lucky).1;
      if p.PrPtr? then pc == Idle else pc == Weak(FromPromote(w), WeakLoad) || (pc.Pr? && pc.w == w)
  {
    hide Gain, Unbias, IncWeakCount;
  }

  lemma PromotePays(s: State, w: nat, p: PrPc, lucky: bool, v: Option<nat>)
    requires On(s, v) && (p.PrPtr? ==> s.cb)
    ensures var r := RunPr(s, w, p, lucky); Pays(s, Pr(w, p), r, v, r.1.Weak?)
  {
    hide RunPr, Sum, Weight;
    PromoteCounts(s, w, p, lucky);
    PromoteGoes(s, w, p, lucky);
    PrMoves(s, w, p, lucky);
  }

  // ---- a call from its beginning to its end -------------------------------------------------------------------

  lemma Paid(s: State, pc: Pc, lucky: bool, v: Option<nat>) returns (lost: bool)
    requires On(s, v) && WrcReady(s, pc)
    requires pc.Pr? && pc.pr.PrPtr? ==> s.cb
    requires pc.Drop? && s.wrcs[pc.w].count == 1 ==> s.wrcs[pc.w].handles == 0
    ensures Pays(s, pc, RunPc(s, pc, lucky), v, lost)
    ensures lost ==> pc.Pr? && RunPc(s, pc, lucky).1 == Weak(FromPromote(pc.w), WeakLoad)
  {
    hide Pays, RunInc, RunDec, RunNew, RunCopy, RunDrop, RunPr;
    lost := false;
    match pc
    case Inc(p) => IncPays(s, p, v);
    case Dec(p) => DecPays(s, p, v);
    case New(p) => NewPays(s, p, v);
    case Copy(w) => CopyPays(s, w, v);
    case Drop(w) => DropPays(s, w, v);
    case Pr(w, p) =>
      PromotePays(s, w, p, lucky, v);
      PromoteGoes(s, w, p, lucky);
      lost := RunPr(s, w, p, lucky).1.Weak?;
    case Idle => LeavingPays(s, pc, (s, Idle), v);
    case _ => ReleasePays(s, pc, lucky, v);
  }

  /** A thread's own step does what it then no longer owes, or gives up a promotion of a dead object. */
  lemma OwnStep(s: State, i: nat, lucky: bool, v: Option<nat>) returns (lost: bool)
    requires Inv(s) && i < |s.threads| && !s.threads[i].Idle? && On(s, v)
    ensures var e, s' := Event(i, Run(lucky)), After(s, i, Run(lucky));
      && Balanced(Gained(s, s', v), Owed(s'.threads[i], v), Owed(s.threads[i], v),
                  OneIf(Takes(s, e, UpBySptr)), OneIf(Takes(s, e, Down)), lost)
      && |s'.wrcs| >= |s.wrcs| && (lost ==> s.threads[i].Pr? && !s'.threads[i].Pr? && Dead(s'))
  {
    hide Inv, RunPc, Owed, Balanced, Sum, Faults, Enabled, WrcReady, Dead;
    MayRun(s, i, lucky);
    StepKeeps(s, i, Run(lucky));
    ReadyToStep(s, i);
    lost := Paid(s, s.threads[i], lucky, v);
    var s', r := After(s, i, Run(lucky)), RunPc(s, s.threads[i], lucky);
    assert Gained(s, s', v) == Gained(s, r.0, v);
    GivesUpOnDead(s', i);
  }

  lemma ReadyToStep(s: State, i: nat)
    requires Inv(s) && i < |s.threads|
    ensures var pc := s.threads[i];
      && WrcReady(s, pc) && (pc.Drop? && s.wrcs[pc.w].count == 1 ==> s.wrcs[pc.w].handles == 0)
      && (pc.Pr? && pc.pr.PrPtr? ==> s.cb)
  {
    hide RunPc, Sum, Sound, Backed, WrcInv, Weight;
    ReadyWrc(s, i);
    HandlesAt(s, i);
    PtrLives(s, i);
  }

  lemma GivesUpOnDead(s: State, i: nat)
    requires Inv(s) && i < |s.threads|
    ensures s.threads[i].Weak? && s.threads[i].k.FromPromote? ==> Dead(s)
  {
    hide Sound, Backed, WrcInv, Dead;
    assert PcInv(s, s.threads[i]);
  }

  lemma MayRun(s: State, i: nat, lucky: bool)
    requires i < |s.threads| && !s.threads[i].Idle?
    ensures Enabled(s, i, Run(lucky))
  {
  }

  lemma PtrLives(s: State, i: nat)
    requires Inv(s) && i < |s.threads|
    ensures s.threads[i].Pr? && s.threads[i].pr.PrPtr? ==> s.cb
  {
    hide Backed, CounterLife, BiasOnce, PcInv, WrcInv;
    Tallies(s, i, Idle);
  }

  /** Thread i begins no call in this run; it only goes on with the one it is in. */
  ghost predicate BeginsNone(es: seq<Event>, i: nat) {
    forall k :: 0 <= k < |es| && es[k].i == i ==> es[k].a.Run? || es[k].a.Extend?
  }

  lemma BeginsNoneLater(es: seq<Event>, i: nat)
    requires BeginsNone(es, i) && es != []
    ensures BeginsNone(es[1..], i) && (es[0].i == i ==> es[0].a.Run? || es[0].a.Extend?)
  {
    assert forall k :: 0 <= k < |es| - 1 ==> es[1..][k] == es[k + 1];
  }

  lemma DebitKeepsList(s: State, a: Action)
    ensures |Debited(s, a).wrcs| == |s.wrcs|
  {
    if a.StartDropWeak? && LinkedAt(s, a.w) {
      assert |TakeHandle(s.wrcs, a.w)| == |s.wrcs|;
    }
  }

  /** No step takes a WeakRefCounter off the list, and no other thread's step touches the call that thread i is in. */
  lemma OtherSteps(s: State, e: Event, i: nat, v: Option<nat>)
    requires Inv(s) && e.i < |s.threads| && Enabled(s, e.i, e.a) && i < |s.threads| && On(s, v)
    ensures var s' := After(s, e.i, e.a);
      |s'.wrcs| >= |s.wrcs| && (e.i != i || e.a.Extend? ==> s'.threads[i] == s.threads[i])
  {
    hide RunPc, Inv, Faults, Enabled, Debited, Balanced, StartPc;
    if e.a.Run? {
      RunIsRunning(s, e);
      var lost := OwnStep(s, e.i, e.a.lucky, v);
    } else {
      DebitKeepsList(s, e.a);
    }
  }

  /** A promotion begins as one. */
  lemma StaysInCall(s: State, i: nat, lucky: bool)
    requires i < |s.threads|
    ensures After(s, i, Run(lucky)).threads[i].Pr? ==> s.threads[i].Pr?
  {
    var pc := s.threads[i];
    if pc.Weak? || pc.Del? || pc.Ref? {
      hide RunPc;
      ReleaseLeaves(s, pc, lucky);
    }
  }

  lemma ExtendDoesNothing(s: State, i: nat, v: Option<nat>, left: Work)
    requires i < |s.threads|
    ensures var e, s' := Event(i, Extend), After(s, i, Extend);
      Balanced(Gained(s, s', v), left, left, OneIf(Takes(s, e, UpBySptr)), OneIf(Takes(s, e, Down)), false)
  {
    hide Sum;
  }

  lemma Compose(x: Work, mid: Work, due: Work, ups: int, downs: int, lost: bool, y: Work, left: Work, ups': int,
                downs': int, lost': bool)
    requires Balanced(x, mid, due, ups, downs, lost) && Balanced(y, left, mid, ups', downs', lost') && !(lost && lost')
    ensures Balanced(Add(x, y), left, due, ups + ups', downs + downs', lost || lost')
  {
  }

  /** The first step of a run, as far as it is thread i's own. */
  lemma OwnFirstStep(s: State, e: Event, i: nat, v: Option<nat>) returns (lost: bool)
    requires Inv(s) && e.i < |s.threads| && Enabled(s, e.i, e.a) && i < |s.threads| && On(s, v)
    requires e.i == i ==> e.a.Run? || e.a.Extend?
    ensures var s', own := After(s, e.i, e.a), e.i == i;
      && Balanced(if own then Gained(s, s', v) else Work(), Owed(s'.threads[i], v), Owed(s.threads[i], v),
                  OneIf(own && Takes(s, e, UpBySptr)), OneIf(own && Takes(s, e, Down)), lost)
      && |s'.wrcs| >= |s.wrcs| && (lost ==> s.threads[i].Pr? && !s'.threads[i].Pr? && Dead(s'))
      && (s'.threads[i].Pr? ==> s.threads[i].Pr?)
  {
    hide Inv, After, Owed, Enabled, Gained, Dead, Takes;
    lost := false;
    OtherSteps(s, e, i, v);
    if e.i == i && e.a.Run? {
      RunIsRunning(s, e);
      StaysInCall(s, i, e.a.lucky);
      lost := OwnStep(s, i, e.a.lucky, v);
    } else if e.i == i {
      ExtendDoesNothing(s, i, v, Owed(s.threads[i], v));
    }
  }

  lemma {:induction false} GoesOn(s: State, es: seq<Event>, s': State, i: nat, v: Option<nat>) returns (lost: bool)
    requires Inv(s) && Reaches(s, es, s') && BeginsNone(es, i) && i < |s.threads| && On(s, v)
    ensures i < |s'.threads|
    ensures Balanced(Done(s, es, i, v), Owed(s'.threads[i], v), Owed(s.threads[i], v),
                     Times(s, es, UpBySptr, Some(i)), Times(s, es, Down, Some(i)), lost)
    ensures lost ==> s.threads[i].Pr? && Dead(s')
    decreases |es|
  {
    hide Inv, After, Owed, Enabled, Gained, BeginsNone, Dead, Takes, Add;
    if es == [] {
      lost := false;
    } else {
      hide Balanced;
      var e, s1 := es[0], After(s, es[0].i, es[0].a);
      BeginsNoneLater(es, i);
      StepKeeps(s, e.i, e.a);
      var here := OwnFirstStep(s, e, i, v);
      lost := GoesOn(s1, es[1..], s', i, v);
      if here {
        RunsKeep(s1, es[1..], s');
        DeadStays(s1, s');
      }
      Compose(if e.i == i then Gained(s, s1, v) else Work(), Owed(s1.threads[i], v), Owed(s.threads[i], v),
              OneIf(e.i == i && Takes(s, e, UpBySptr)), OneIf(e.i == i && Takes(s, e, Down)), here,
              Done(s1, es[1..], i, v), Owed(s'.threads[i], v), Times(s1, es[1..], UpBySptr, Some(i)),
              Times(s1, es[1..], Down, Some(i)), lost);
      lost := lost || here;
    }
  }

  lemma RunIsRunning(s: State, e: Event)
    requires e.i < |s.threads| && Enabled(s, e.i, e.a) && e.a.Run?
    ensures !s.threads[e.i].Idle?
  {
  }

  lemma DeadStays(s: State, s': State)
    requires Dead(s) && Monotone(s, s')
    ensures Dead(s')
  {
  }

  /** What a call is for: one sptr more or less, one wptr more or less. */
  function Task(a: Action, v: Option<nat>): Work {
    match a
    case StartStrong => Work(sptrs := 1)
    case StartDrop => Work(sptrs := -1)
    case StartWeak => Work(made := 1, wptrs := 1)
    case StartCopy(w) => Work(wptrs := 1, here := OneIf(v == Some(w)))
    case StartDropWeak(w) => Work(wptrs := -1, here := -OneIf(v == Some(w)))
    case StartPromote(_) => Work(sptrs := 1)
    case _ => Work()
  }

  lemma HandleGiven(ws: seq<Wrc>, w: nat)
    requires IsOpen(ws, w)
    ensures Sum(Handles, TakeHandle(ws, w)) == Sum(Handles, ws) - 1
  {
    SumUpdate(Handles, ws, w, TakeHandle(ws, w)[w]);
  }

  lemma DebitPays(s: State, a: Action, v: Option<nat>)
    requires On(s, v) && (a.StartDropWeak? ==> LinkedAt(s, a.w))
    ensures Balanced(Gained(s, Debited(s, a), v), Owed(StartPc(a), v), Task(a, v), 0, 0, false)
    ensures Debited(s, a).strong == s.strong
  {
    hide Sum;
    if a.StartDropWeak? {
      HandleGiven(s.wrcs, a.w);
    }
  }

  lemma DropsLinked(s: State, i: nat, a: Action)
    requires i < |s.threads| && Enabled(s, i, a)
    ensures a.StartDropWeak? ==> LinkedAt(s, a.w)
  {
  }

  /** A call begins with giving up what it gives up; the rest is due. */
  lemma Begins(s: State, i: nat, a: Action, v: Option<nat>)
    requires i < |s.threads| && Enabled(s, i, a) && !a.Run? && !a.Extend? && On(s, v)
    ensures var e, s' := Event(i, a), After(s, i, a);
      && Balanced(Gained(s, s', v), Owed(s'.threads[i], v), Task(a, v), 0, 0, false) && |s'.wrcs| == |s.wrcs|
      && OneIf(Takes(s, e, UpBySptr)) == OneIf(Takes(s, e, Down)) == 0 && s'.threads[i] == StartPc(a)
  {
    hide Sum, Enabled, Exec, Balanced, Task, StartPc, Debited, Owed;
    DropsLinked(s, i, a);
    DebitKeepsList(s, a);
    DebitPays(s, a, v);
    assert Gained(s, After(s, i, a), v) == Gained(s, Debited(s, a), v);
  }

  lemma FirstEvent(s: State, e: Event, es: seq<Event>, i: nat, v: Option<nat>, turn: Turn, who: Option<nat>)
    requires e.i < |s.threads|
    ensures var s1 := After(s, e.i, e.a);
      && Done(s, [e] + es, i, v) == Add(if e.i == i then Gained(s, s1, v) else Work(), Done(s1, es, i, v))
      && Times(s, [e] + es, turn, who)
         == OneIf((who.None? || who == Some(e.i)) && Takes(s, e, turn)) + Times(s1, es, turn, who)
  {
    hide After, Gained, Takes, Add;
    assert ([e] + es)[0] == e && ([e] + es)[1..] == es;
  }

  /**
    * Whatever the others do: a thread that is back from its call has done what the call is for, once and nothing else;
    * it has called OnFirstStrongRef if and only if its IncStrongRef took `strong` up from BIAS, and OnLastStrongRef
    * if and only if it took `strong` down to 0. Only a promotion may have done nothing, when the object is dead.
    */
  lemma CallsDoTheirWork(s: State, i: nat, a: Action, es: seq<Event>, s': State, v: Option<nat>)
    requires Reachable(s) && i < |s.threads| && Enabled(s, i, a) && !a.Run? && !a.Extend? && On(s, v)
    requires Reaches(After(s, i, a), es, s') && BeginsNone(es, i) && i < |s'.threads| && s'.threads[i].Idle?
    ensures var all := [Event(i, a)] + es;
      var done, calls := Done(s, all, i, v),
        Work(firsts := Times(s, all, UpBySptr, Some(i)), lasts := Times(s, all, Down, Some(i)));
      done == Add(Task(a, v), calls) || (done == calls && a.StartPromote? && Dead(s'))
  {
    hide Inv, After, Owed, Enabled, Gained, BeginsNone, Dead, Takes, Task, Reachable, Balanced, Add, Reaches, Times;
    hide Done;
    var e, s1 := Event(i, a), After(s, i, a);
    ReachableInv(s);
    StepKeeps(s, i, a);
    Begins(s, i, a, v);
    var lost := GoesOn(s1, es, s', i, v);
    FirstEvent(s, e, es, i, v, UpBySptr, Some(i));
    FirstEvent(s, e, es, i, v, Down, Some(i));
    IdleOwesNothing(v);
    StartsPromoting(a);
    TaskCalls(a, v);
    Settle(Gained(s, s1, v), Owed(s1.threads[i], v), Task(a, v), Done(s1, es, i, v),
           Times(s1, es, UpBySptr, Some(i)), Times(s1, es, Down, Some(i)), lost);
  }

  /** The balance of a whole call: nothing is left of what was due. */
  lemma Settle(x: Work, mid: Work, due: Work, y: Work, ups: int, downs: int, lost: bool)
    requires Balanced(x, mid, due, 0, 0, false) && Balanced(y, Work(), mid, ups, downs, lost)
    requires due.firsts == due.lasts == 0 && (lost ==> due == Work(sptrs := 1))
    ensures Add(x, y) == if lost then Work(firsts := ups, lasts := downs)
                         else Add(due, Work(firsts := ups, lasts := downs))
  {
  }

  lemma IdleOwesNothing(v: Option<nat>)
    ensures Owed(Idle, v) == Work()
  {
  }

  lemma StartsPromoting(a: Action)
    ensures StartPc(a).Pr? <==> a.StartPromote?
  {
  }

  lemma TaskCalls(a: Action, v: Option<nat>)
    ensures Task(a, v).firsts == Task(a, v).lasts == 0
    ensures a.StartPromote? ==> Task(a, v) == Work(sptrs := 1)
  {
  }

  // ---- OnFirstStrongRef and OnLastStrongRef over a whole run -----------------------------------------------------

  function AtLast(): Pc -> int { pc => OneIf(pc == Dec(DecLast)) }

  lemma OwedCalls(pc: Pc)
    ensures Owed(pc, None).firsts == Weight(pc).first && Owed(pc, None).lasts == AtLast()(pc)
  {
  }

  /** What a step changes is what its own thread owed and owes. */
  lemma OwnCalls(s: State, e: Event)
    requires Inv(s) && e.i < |s.threads| && Enabled(s, e.i, e.a)
    ensures var s', pc, pc' := After(s, e.i, e.a), s.threads[e.i], After(s, e.i, e.a).threads[e.i];
      && s'.firsts + Weight(pc').first == s.firsts + Weight(pc).first + OneIf(Takes(s, e, UpBySptr))
      && s'.lasts + AtLast()(pc') == s.lasts + AtLast()(pc) + OneIf(Takes(s, e, Down))
  {
    hide Inv, After, Owed, Enabled, Takes, Weight, AtLast, Sum, Task;
    OwedCalls(s.threads[e.i]);
    OwedCalls(After(s, e.i, e.a).threads[e.i]);
    if e.a.Run? || e.a.Extend? {
      var lost := OwnFirstStep(s, e, e.i, None);
    } else {
      Begins(s, e.i, e.a, None);
      IdleBefore(s, e.i, e.a);
    }
  }

  lemma CallsStep(s: State, e: Event)
    requires Inv(s) && e.i < |s.threads| && Enabled(s, e.i, e.a)
    ensures var s' := After(s, e.i, e.a);
      && s'.firsts + Total(s'.threads).first == s.firsts + Total(s.threads).first + OneIf(Takes(s, e, UpBySptr))
      && s'.lasts + Sum(AtLast(), s'.threads) == s.lasts + Sum(AtLast(), s.threads) + OneIf(Takes(s, e, Down))
  {
    hide Inv, After, Enabled, Takes, Weight, AtLast, Sum, Within, Nested;
    var s', i := After(s, e.i, e.a), e.i;
    OwnCalls(s, e);
    OnlyThread(s, e);
    Tallies(s, i, s'.threads[i]);
    SumUpdate(AtLast(), s.threads, i, s'.threads[i]);
  }

  lemma IdleBefore(s: State, i: nat, a: Action)
    requires i < |s.threads| && Enabled(s, i, a) && !a.Run? && !a.Extend?
    ensures s.threads[i] == Idle && Weight(Idle) == Tally() && AtLast()(Idle) == 0
    ensures Task(a, None).firsts == Task(a, None).lasts == 0
  {
  }

  lemma OnlyThread(s: State, e: Event)
    requires e.i < |s.threads|
    ensures var s' := After(s, e.i, e.a); s'.threads == s.threads[e.i := s'.threads[e.i]]
  {
    hide RunPc, Debited, StartPc, Faults;
  }

  lemma {:induction false} CallsCount(s: State, es: seq<Event>, s': State)
    requires Inv(s) && Reaches(s, es, s')
    ensures s'.firsts + Total(s'.threads).first == s.firsts + Total(s.threads).first + Times(s, es, UpBySptr, None)
    ensures s'.lasts + Sum(AtLast(), s'.threads) == s.lasts + Sum(AtLast(), s.threads) + Times(s, es, Down, None)
    decreases |es|
  {
    hide Inv, After, Enabled, Takes, Total, Sum, AtLast;
    if es != [] {
      CallsStep(s, es[0]);
      StepKeeps(s, es[0].i, es[0].a);
      CallsCount(After(s, es[0].i, es[0].a), es[1..], s');
    }
  }

  /** How a step may change `strong`. */
  predicate StrongMoves(s: State, pc: Pc, r: (State, Pc)) {
    || (r.0.strong == s.strong && r.0.virgin == s.virgin)
    || (r.0.strong == s.strong + 1 && !r.0.virgin && (pc.Inc? || pc.Pr?))
    || (r.0.strong == s.strong - 1 && r.0.virgin == s.virgin && pc.Dec?)
    || (r.0.strong == s.strong - BIAS && r.0.virgin == s.virgin && Weight(r.1).strong == 1)
  }

  lemma StrongSteps(s: State, pc: Pc, lucky: bool)
    ensures StrongMoves(s, pc, RunPc(s, pc, lucky))
  {
    hide RunWeak, RunDel, RunRef, RunInc, RunDec, RunPr, RunNew, RunCopy, RunDrop, StrongMoves;
    match pc
    case Idle => NothingMoves(s);
    case New(p) => NewMoves(s, p);
    case Copy(w) => WptrMoves(s, w);
    case Drop(w) => WptrMoves(s, w);
    case Inc(p) => IncMoves(s, p);
    case Dec(p) => DecMoves(s, p);
    case Weak(k, p) => WeakMoves(s, k, p);
    case Del(o, p) => DelMoves(s, o, p);
    case Ref(c, p) => RefMoves(s, c, p);
    case Pr(w, p) => PrMoves(s, w, p, lucky);
  }

  lemma NothingMoves(s: State)
    ensures StrongMoves(s, Idle, (s, Idle))
  {
  }

  lemma NewMoves(s: State, p: NewPc)
    ensures StrongMoves(s, New(p), RunNew(s, p))
  {
    hide Weight;
  }

  lemma WptrMoves(s: State, w: nat)
    ensures StrongMoves(s, Copy(w), RunCopy(s, w)) && StrongMoves(s, Drop(w), RunDrop(s, w))
  {
    hide Weight;
  }

  lemma IncMoves(s: State, p: IncPc)
    ensures StrongMoves(s, Inc(p), RunInc(s, p))
  {
  }

  lemma DecMoves(s: State, p: DecPc)
    ensures StrongMoves(s, Dec(p), RunDec(s, p))
  {
    hide Weight;
  }

  lemma WeakMoves(s: State, k: WeakCaller, p: WeakPc)
    ensures StrongMoves(s, Weak(k, p), RunWeak(s, k, p))
  {
    hide Weight;
  }

  lemma DelMoves(s: State, o: Deleter, p: DelPc)
    ensures StrongMoves(s, Del(o, p), RunDel(s, o, p))
  {
    hide Weight;
  }

  lemma RefMoves(s: State, c: RefCaller, p: RefPc)
    ensures StrongMoves(s, Ref(c, p), RunRef(s, c, p))
  {
    hide Weight;
  }

  lemma PrMoves(s: State, w: nat, p: PrPc, lucky: bool)
    ensures StrongMoves(s, Pr(w, p), RunPr(s, w, p, lucky))
  {
  }

  /** No strong reference was ever counted exactly while `strong` is BIAS itself. */
  lemma VirginAtBias(s: State)
    requires Inv(s)
    ensures (s.virgin <==> s.strong == BIAS) && s.strong >= 0
    ensures !s.ext ==> (Dead(s) <==> s.strong == 0)
  {
    TotalNested(s.threads);
  }

  lemma TurnStep(s: State, e: Event)
    requires Inv(s) && e.i < |s.threads| && Enabled(s, e.i, e.a)
    ensures var s' := After(s, e.i, e.a);
      && OneIf(!s'.virgin) == OneIf(!s.virgin) + OneIf(Takes(s, e, UpBySptr)) + OneIf(Takes(s, e, UpByPromotion))
      && (!s'.ext ==> OneIf(Dead(s')) == OneIf(Dead(s)) + OneIf(Takes(s, e, Down)))
  {
    hide Inv, Enabled, RunPc, Debited, StartPc, Faults, Dead, Weight, Total;
    var s' := After(s, e.i, e.a);
    StepKeeps(s, e.i, e.a);
    VirginAtBias(s);
    VirginAtBias(s');
    ExtStays(s, s');
    if e.a.Run? {
      StrongSteps(s, s.threads[e.i], e.a.lucky);
      SharesCount(s', e.i);
    } else {
      DebitLeaves(s, e.a);
    }
  }

  lemma ExtStays(s: State, s': State)
    requires Monotone(s, s')
    ensures (s.ext ==> s'.ext) && (Dead(s) ==> Dead(s'))
    ensures Dead(s) ==> !s.ext && s.strong == 0
  {
  }

  lemma DebitLeaves(s: State, a: Action)
    ensures Debited(s, a).strong == s.strong && Debited(s, a).virgin == s.virgin
  {
    if a.StartDropWeak? && LinkedAt(s, a.w) {
      assert Debited(s, a) == s.(wrcs := TakeHandle(s.wrcs, a.w));
    }
  }

  /** A thread's strong share is part of `strong`. */
  lemma SharesCount(s: State, i: nat)
    requires Inv(s) && i < |s.threads|
    ensures s.strong >= Weight(s.threads[i]).strong
  {
    hide Weight;
    Tallies(s, i, Idle);
  }

  lemma {:induction false} TurnsCount(s: State, es: seq<Event>, s': State)
    requires Inv(s) && Reaches(s, es, s')
    ensures OneIf(!s'.virgin) == OneIf(!s.virgin) + Times(s, es, UpBySptr, None) + Times(s, es, UpByPromotion, None)
    ensures !s'.ext ==> OneIf(Dead(s')) == OneIf(Dead(s)) + Times(s, es, Down, None)
    decreases |es|
  {
    hide Inv, After, Enabled, Takes, Dead;
    if es != [] {
      var s1 := After(s, es[0].i, es[0].a);
      TurnStep(s, es[0]);
      StepKeeps(s, es[0].i, es[0].a);
      TurnsCount(s1, es[1..], s');
      RunsKeep(s1, es[1..], s');
      ExtStays(s1, s');
    }
  }

  /** The run begins no promotion. */
  ghost predicate PromotesNone(es: seq<Event>) { forall k :: 0 <= k < |es| ==> !es[k].a.StartPromote? }

  ghost predicate NobodyPromotes(ts: seq<Pc>) { forall k :: 0 <= k < |ts| ==> !ts[k].Pr? }

  lemma {:induction false} NonePromoted(s: State, es: seq<Event>, s': State)
    requires NobodyPromotes(s.threads) && Reaches(s, es, s') && PromotesNone(es)
    ensures Times(s, es, UpByPromotion, None) == 0
    decreases |es|
  {
    hide After, Enabled;
    if es != [] {
      var e, s1 := es[0], After(s, es[0].i, es[0].a);
      assert !Takes(s, e, UpByPromotion);
      NobodyBeginsOne(s, e);
      assert PromotesNone(es[1..]) by { assert forall k :: 0 <= k < |es| - 1 ==> es[1..][k] == es[k + 1]; }
      NonePromoted(s1, es[1..], s');
    }
  }

  lemma NobodyBeginsOne(s: State, e: Event)
    requires NobodyPromotes(s.threads) && e.i < |s.threads| && !e.a.StartPromote?
    ensures NobodyPromotes(After(s, e.i, e.a).threads)
  {
    hide After;
    OnlyThread(s, e);
    if e.a.Run? {
      StaysInCall(s, e.i, e.a.lucky);
    } else {
      NewPc(s, e);
    }
  }

  lemma NewPc(s: State, e: Event)
    requires e.i < |s.threads| && !e.a.Run?
    ensures var pc := After(s, e.i, e.a).threads[e.i]; pc == s.threads[e.i] || pc == StartPc(e.a)
    ensures StartPc(e.a).Pr? <==> e.a.StartPromote?
  {
    hide Debited;
  }

  /**
    * OnFirstStrongRef is called for the increment that takes `strong` up from BIAS if it is one of IncStrongRef, and
    * never for another; so it is called once in a run without promotions, and not at all when a promotion is first.
    */
  lemma FirstStrongRefIsTold(s0: State, es: seq<Event>, s: State)
    requires Init(s0) && Reaches(s0, es, s)
    ensures s.firsts + Total(s.threads).first == Times(s0, es, UpBySptr, None)
    ensures Times(s0, es, UpBySptr, None) + Times(s0, es, UpByPromotion, None) == OneIf(!s.virgin)
    ensures PromotesNone(es) ==> s.firsts + Total(s.threads).first == OneIf(!s.virgin)
    ensures (forall i :: 0 <= i < |s.threads| ==> !s.threads[i].Inc?) ==> Total(s.threads).first == 0
  {
    InitInv(s0);
    NoneYet(s0);
    CallsCount(s0, es, s);
    TurnsCount(s0, es, s);
    if PromotesNone(es) {
      NonePromoted(s0, es, s);
    }
    if forall i :: 0 <= i < |s.threads| ==> !s.threads[i].Inc? {
      NobodyTells(s.threads);
    }
  }

  lemma NoneYet(s0: State)
    requires Init(s0)
    ensures Total(s0.threads).first == 0 && Sum(AtLast(), s0.threads) == 0 && NobodyPromotes(s0.threads) && !Dead(s0)
  {
    AllIdle(Weight, s0.threads);
    SumZero(AtLast(), s0.threads);
  }

  lemma {:induction false} NobodyTells(ts: seq<Pc>)
    requires forall i :: 0 <= i < |ts| ==> !ts[i].Inc?
    ensures Total(ts).first == 0
  {
    if ts != [] {
      assert forall i :: 0 <= i < |ts| - 1 ==> ts[1..][i] == ts[i + 1];
      NobodyTells(ts[1..]);
      OwedCalls(ts[0]);
    }
  }

  /** OnLastStrongRef is called each time `strong` goes down to 0: once in a normal life, and more often only if
      the life-time is extended. */
  lemma LastStrongRefIsTold(s0: State, es: seq<Event>, s: State)
    requires Init(s0) && Reaches(s0, es, s)
    ensures s.lasts + Sum(AtLast(), s.threads) == Times(s0, es, Down, None)
    ensures !s.ext ==> Times(s0, es, Down, None) == OneIf(Dead(s))
    ensures Dead(s) && (forall i :: 0 <= i < |s.threads| ==> !s.threads[i].Dec?) ==> s.lasts == 1
  {
    InitInv(s0);
    NoneYet(s0);
    CallsCount(s0, es, s);
    TurnsCount(s0, es, s);
    if forall i :: 0 <= i < |s.threads| ==> !s.threads[i].Dec? {
      SumZero(AtLast(), s.threads);
    }
  }

  // ---- a thread that is let alone comes back ---------------------------------------------------------------------

  function AfterWeak(k: WeakCaller): nat { if k.FromWrc? then 3 else 0 }

  function AfterDel(o: Deleter): nat { if o.ByStrong? then 12 else AfterWeak(o.k) }

  function AfterRef(c: RefCaller): nat {
    match c case InDestructor(o) => AfterDel(o) case InDecWeak(k) => AfterWeak(k) case InWrcDelete(_) => 0
  }

  /** How many steps are left at most, as long as nobody else changes `strong`. */
  function StepsLeft(s: State, pc: Pc): nat {
    match pc
    case Idle => 0
    case Inc(p) => IncLeft(p)
    case Dec(p) => DecLeft(p)
    case Weak(k, p) => WeakLeft(p) + 7 + AfterWeak(k)
    case Del(o, p) => DelLeft(p) + 3 + AfterDel(o)
    case Ref(c, p) => (if p.RefLoad? then 3 else if p.RefSub? then 2 else 1) + AfterRef(c)
    case New(p) => if p.NewRef? then 3 else if p.NewCount? then 2 else 1
    case Copy(_) => 1
    case Drop(_) => 16
    case Pr(_, p) => PromoteLeft(s.strong, p)
  }

  function IncLeft(p: IncPc): nat {
    match p case IncWeak => 6 case IncLoad => 5 case IncAdd => 4 case IncUnbias => 3 case IncLog(_) => 2
            case IncFirst(_) => 1
  }

  function DecLeft(p: DecPc): nat {
    match p case DecLoad => 24 case DecSub => 23 case DecLast => 22 case DecFlag => 21 case DecCallback => 20
  }

  function WeakLeft(p: WeakPc): nat {
    match p case WeakLoad => 5 case WeakSub => 4 case WeakFlag => 3 case WeakStrong => 2 case WeakCallback => 1
  }

  function DelLeft(p: DelPc): nat {
    match p case DelClear => 4 case DelFlag => 3 case DelWeak => 2 case DelStrong => 1
  }

  /** A compare-and-swap that compares with the present value succeeds; another one reads it again first. */
  function PromoteLeft(strong: int, p: PrPc): nat {
    match p
    case PrLoad => 23
    case PrWeak(_) => 22
    case PrCas1(cur) => if cur == strong then 14 else 21
    case PrReload1 => 20
    case PrFlag1(_) => 19
    case PrCas2(cur) => if cur == strong then 14 else 18
    case PrReload2 => 17
    case PrFlag2(_) => 15
    case PrAdd => 14
    case PrFlag3(_, _) => 13
    case PrUnbias => 2
    case PrPtr => 1
  }

  lemma PromoteNears(s: State, w: nat, p: PrPc)
    ensures var r := RunPr(s, w, p, true); StepsLeft(r.0, r.1) < PromoteLeft(s.strong, p)
  {
    if Counting(p) {
      CountNears(s, w, p);
    } else {
      ReadNears(s, w, p);
    }
  }

  lemma CountNears(s: State, w: nat, p: PrPc)
    requires Counting(p)
    ensures var r := RunPr(s, w, p, true); StepsLeft(r.0, r.1) < PromoteLeft(s.strong, p)
  {
    hide IncLeft, DecLeft, DelLeft, AfterRef, AfterDel, Loop1, Loop2;
  }

  lemma ReadNears(s: State, w: nat, p: PrPc)
    requires !Counting(p)
    ensures var r := RunPr(s, w, p, true); StepsLeft(r.0, r.1) < PromoteLeft(s.strong, p)
  {
    hide IncLeft, DecLeft, DelLeft, AfterRef, AfterDel;
  }

  lemma StrongNears(s: State, pc: Pc)
    requires pc.Inc? || pc.Dec? || pc.New? || pc.Copy? || pc.Drop?
    ensures var r := RunPc(s, pc, true); StepsLeft(r.0, r.1) < StepsLeft(s, pc)
  {
  }

  lemma WeakNears(s: State, k: WeakCaller, p: WeakPc)
    ensures var r := RunWeak(s, k, p); StepsLeft(r.0, r.1) < StepsLeft(s, Weak(k, p))
  {
  }

  lemma DelNears(s: State, o: Deleter, p: DelPc)
    ensures var r := RunDel(s, o, p); StepsLeft(r.0, r.1) < StepsLeft(s, Del(o, p))
  {
  }

  lemma RefNears(s: State, c: RefCaller, p: RefPc)
    ensures var r := RunRef(s, c, p); StepsLeft(r.0, r.1) < StepsLeft(s, Ref(c, p))
  {
  }

  lemma StepNears(s: State, i: nat)
    requires i < |s.threads| && !s.threads[i].Idle?
    ensures var s' := After(s, i, Run(true)); StepsLeft(s', s'.threads[i]) < StepsLeft(s, s.threads[i])
  {
    hide RunWeak, RunDel, RunRef, RunPr, RunInc, RunDec, RunNew, RunCopy, RunDrop, Faults, PromoteLeft;
    var pc := s.threads[i];
    match pc
    case Weak(k, p) => WeakNears(s, k, p);
    case Del(o, p) => DelNears(s, o, p);
    case Ref(c, p) => RefNears(s, c, p);
    case Pr(w, p) => PromoteNears(s, w, p);
    case _ => StrongNears(s, pc);
  }

  /** Only thread i acts, and it only goes on. */
  ghost predicate Alone(es: seq<Event>, i: nat) { forall k :: 0 <= k < |es| ==> es[k] == Event(i, Run(true)) }

  /** Wherever the other threads stopped, a call comes back within 24 steps if its thread runs alone: no call waits. */
  lemma {:induction false} ComesBackAlone(s: State, i: nat) returns (es: seq<Event>, s': State)
    requires i < |s.threads|
    ensures Reaches(s, es, s') && Alone(es, i) && |es| <= StepsLeft(s, s.threads[i]) <= 24
    ensures i < |s'.threads| && s'.threads[i].Idle?
    decreases StepsLeft(s, s.threads[i])
  {
    hide After, StepsLeft;
    AtMost(s, s.threads[i]);
    if s.threads[i].Idle? {
      es, s' := [], s;
    } else {
      var e := Event(i, Run(true));
      StepNears(s, i);
      es, s' := ComesBackAlone(After(s, i, Run(true)), i);
      ReachesCons(s, e, es, s');
      es := [e] + es;
    }
  }

  lemma AtMost(s: State, pc: Pc)
    ensures StepsLeft(s, pc) <= 24
  {
  }
}
