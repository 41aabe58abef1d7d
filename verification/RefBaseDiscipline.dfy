/**
  * Which drops of an sptr or of a wptr the clients must not make: exactly those that MayDrop and MayDropWeak refuse.
  * What they allow is safe in every continuation; what they refuse has one in which some thread goes on with a deleted
  * object or a deleted RefCounter, or in which a RefCounter is left over.
  */
module RefBaseDiscipline {
  import opened Basics
  import opened Sums
  import opened RefBase
  import opened RefBaseProofs
  import opened RefBaseSafety
  import opened RefBaseEndgames

  lemma DoomedBy(s: State, i: nat, a: Action)
    requires i < |s.threads| && Enabled(s, i, a)
    ensures Doomed(After(s, i, a)) ==> Doomed(s)
    ensures Harmed(After(s, i, a)) ==> Harmed(s)
  {
    hide Enabled, After;
    var s1 := After(s, i, a);
    if Doomed(s1) {
      var es, s' :| Reaches(s1, es, s') && s'.fault;
      ReachesCons(s, Event(i, a), es, s');
    }
    if Harmed(s1) {
      var es, s' :| Reaches(s1, es, s') && (s'.fault || Leaks(s'));
      ReachesCons(s, Event(i, a), es, s');
    }
  }

  // ---- running the threads that only give up ------------------------------------------------------

  /** On the way to give back a reference or to delete something. */
  predicate Releasing(pc: Pc) { pc.Dec? || pc.Weak? || pc.Del? || pc.Ref? || pc.Drop? }

  function ReturnRank(k: WeakCaller): nat { if k.FromWrc? then 3 else 0 }

  function DeletedRank(o: Deleter): nat { if o.ByStrong? then 12 else ReturnRank(o.k) }

  /** An upper bound on the steps that a releasing thread has before it. */
  function Rank(pc: Pc): nat {
    match pc
    case Dec(p) =>
      (match p case DecLoad => 24 case DecSub => 23 case DecLast => 22 case DecFlag => 21 case DecCallback => 20)
    case Drop(_) => 16
    case Weak(k, p) =>
      (match p case WeakLoad => 12 case WeakSub => 11 case WeakFlag => 10 case WeakStrong => 9 case WeakCallback => 8)
      + ReturnRank(k)
    case Del(o, p) =>
      (match p case DelClear => 7 case DelFlag => 6 case DelWeak => 5 case DelStrong => 4) + DeletedRank(o)
    case Ref(c, p) =>
      (match p case RefLoad => 3 case RefSub => 2 case RefFree => 1)
      + (match c case InWrcDelete(_) => 0 case InDecWeak(k) => ReturnRank(k) case InDestructor(o) => DeletedRank(o))
    case _ => 0
  }

  ghost function RankOf(pc: Pc): int { Rank(pc) }

  /** A releasing step comes nearer to its end, and takes and keeps nothing. */
  ghost predicate Falls(s: State, pc: Pc, r: (State, Pc)) {
    && (Releasing(r.1) || r.1.Idle?) && Rank(r.1) < Rank(pc) && GivesUp(Weight(pc)) && GivesUp(Weight(r.1))
    && r.0.sptrs == s.sptrs && r.0.ext == s.ext && r.0.virgin == s.virgin && r.0.touched == s.touched
  }

  lemma WeakFalls(s: State, k: WeakCaller, p: WeakPc)
    ensures Falls(s, Weak(k, p), RunWeak(s, k, p))
  {
    hide Weight;
    WeakGivesUp(k, p);
    WeakGivesUp(k, WeakSub);
    WeakGivesUp(k, WeakFlag);
    WeakGivesUp(k, WeakStrong);
    WeakGivesUp(k, WeakCallback);
    ReturnGivesUp(k);
    RefGivesUp(InDecWeak(k), RefLoad);
    DelGivesUp(ByWeak(k), DelClear);
  }

  lemma DelFalls(s: State, o: Deleter, p: DelPc)
    ensures Falls(s, Del(o, p), RunDel(s, o, p))
  {
    hide Weight;
    DelGivesUp(o, p);
    DelGivesUp(o, DelFlag);
    DelGivesUp(o, DelWeak);
    DelGivesUp(o, DelStrong);
    DeletedGivesUp(o);
    RefGivesUp(InDestructor(o), RefLoad);
  }

  lemma RefFalls(s: State, c: RefCaller, p: RefPc)
    ensures Falls(s, Ref(c, p), RunRef(s, c, p))
  {
    hide Weight;
    RefGivesUp(c, p);
    RefGivesUp(c, RefSub);
    RefGivesUp(c, RefFree);
    ReleasedGivesUp(c);
  }

  lemma DecFalls(s: State, p: DecPc)
    ensures Falls(s, Dec(p), RunDec(s, p))
  {
  }

  lemma DropFalls(s: State, w: nat)
    ensures Falls(s, Drop(w), RunDrop(s, w))
  {
    hide Weight;
    WptrWeighs(w);
    WeakGivesUp(FromWrc(w), WeakLoad);
  }

  lemma ReleaseFalls(s: State, pc: Pc)
    requires Releasing(pc)
    ensures Falls(s, pc, RunPc(s, pc, true))
  {
    hide Falls, RunWeak, RunDel, RunRef, RunDec, RunDrop;
    match pc
    case Weak(k, p) => WeakFalls(s, k, p);
    case Del(o, p) => DelFalls(s, o, p);
    case Ref(c, p) => RefFalls(s, c, p);
    case Dec(p) => DecFalls(s, p);
    case Drop(w) => DropFalls(s, w);
  }

  /** No strong reference stays, and nothing else supports the threads that need it. */
  ghost predicate Forsaken(s: State) {
    && Loose(s) && s.touched && s.sptrs == 0 && Total(s.threads).keeping == 0
    && !Supported(s, 0, Lasting(s.wrcs))
  }

  lemma ReleaseKeepsForsaken(s: State, i: nat)
    requires Forsaken(s) && i < |s.threads| && Releasing(s.threads[i])
    ensures var s' := After(s, i, Run(true));
      && Forsaken(s') && Sum(RankOf, s'.threads) < Sum(RankOf, s.threads)
      && LivesOnWeak(s') == LivesOnWeak(s) && Total(s'.threads).acquiring == Total(s.threads).acquiring
  {
    hide RunPc, Sound, PcInv, WrcInv, Monotone, Weight, Faults, Rank, Releasing;
    var pc, r := s.threads[i], RunPc(s, s.threads[i], true);
    assert !pc.Idle? && !Acquires(pc) && !pc.Copy? by { ReleasingIs(pc); }
    ReleaseFalls(s, pc);
    RunLoose(s, i);
    Tallies(s, i, r.1);
    ReadyWrc(s, i);
    HandlesAt(s, i);
    LastingAfter(s, pc, true);
    SumUpdate(RankOf, s.threads, i, r.1);
  }

  lemma ReleasingIs(pc: Pc)
    requires Releasing(pc)
    ensures !pc.Idle? && !Acquires(pc) && !pc.Copy?
  {
  }

  lemma RunLoose(s: State, i: nat)
    requires Loose(s) && i < |s.threads| && !s.threads[i].Idle? && !Acquires(s.threads[i])
    ensures Loose(After(s, i, Run(true)))
  {
    hide Sound, PcInv, WrcInv, Monotone, RunPc, Faults;
    var s' := After(s, i, Run(true));
    RunSound(s, i, true);
    forall k | 0 <= k < |s'.threads| ensures PcInv(s', s'.threads[k]) {
      if k != i {
        PcStable(s, s', s.threads[k]);
      }
    }
    forall w: nat ensures WrcInv(s', w) {
      WrcKeeps(s, i, Run(true), w);
    }
  }

  /** Once nobody is releasing anything, whoever relied on the reference is left alone. */
  lemma {:induction false} ForsakenDoomed(s: State)
    requires Forsaken(s) && (LivesOnWeak(s) ==> Total(s.threads).acquiring > 0)
    ensures Doomed(s) && Harmed(s)
    decreases Sum(RankOf, s.threads)
  {
    hide Forsaken, LivesOnWeak, Rank, After, Doomed, Harmed;
    SumCovers(RankOf, s.threads);
    if i: nat :| i < |s.threads| && Releasing(s.threads[i]) {
      ReleaseKeepsForsaken(s, i);
      ForsakenDoomed(After(s, i, Run(true)));
      DoomedBy(s, i, Run(true));
    } else {
      LeadsNowhere(s);
      NothingHeld(s);
      ObjectGone(s);
      if Total(s.threads).acquiring > 0 {
        var i := SomeAcquirer(s.threads);
        if LivesOnWeak(s) { NotRising(s, i); }
        AcquirerFaults(s, i);
      } else {
        CounterForsaken(s);
        ZombieDoomed(s, s);
        DoomedIsHarmed(s);
      }
    }
  }

  lemma NotRising(s: State, i: nat)
    requires i < |s.threads| && Total(s.threads).rising == 0
    ensures s.threads[i] != Inc(IncAdd)
  {
    Tallies(s, i, Idle);
  }

  /** The increment itself is made in the RefCounter; the step behind it reads the object again. */
  lemma AcquirerFaults(s: State, i: nat)
    requires i < |s.threads| && Weight(s.threads[i]).acquiring > 0 && s.deletes > 0
    requires s.threads[i] == Inc(IncAdd) ==> s.strong == 0
    ensures Doomed(s) && Harmed(s)
  {
    hide Doomed, Harmed;
    LeadsNowhere(s);
    if s.threads[i] == Inc(IncAdd) {
      LeadsOn(s, s, i, Run(true));
      FaultsNow(s, After(s, i, Run(true)), i);
    } else {
      FaultsNow(s, s, i);
    }
  }

  lemma DoomedIsHarmed(s: State)
    requires Doomed(s)
    ensures Harmed(s)
  {
  }

  /** About to take the first step of an acquisition. */
  predicate Starting(pc: Pc) { pc == Inc(IncWeak) || pc == New(NewRef) }

  /** Nothing to give back, nothing counted in `weak`. */
  predicate Waiting(pc: Pc) { pc.Idle? || Publishing(pc) || Starting(pc) }

  lemma NotReleasing(pc: Pc)
    requires !Releasing(pc) && WptrOf(pc).None? && Weight(pc).rising <= 0 && Weight(pc).keeping <= 0
    ensures Waiting(pc)
  {
  }

  /** Without wptrs nobody copies or promotes one, so whoever is not releasing waits. */
  lemma WhoIsLeft(s: State, i: nat)
    requires Loose(s) && Lasting(s.wrcs) == 0 && Total(s.threads).keeping == Total(s.threads).rising == 0
    requires i < |s.threads| && !Releasing(s.threads[i])
    ensures Waiting(s.threads[i])
  {
    hide Sound, PcInv, Weight, Releasing, Waiting;
    var pc := s.threads[i];
    Tallies(s, i, Idle);
    if WptrOf(pc).Some? {
      WptrHeld(s, i, WptrOf(pc).value);
    }
    NotReleasing(pc);
  }

  lemma WptrHeld(s: State, i: nat, w: nat)
    requires Loose(s) && i < |s.threads| && WptrOf(s.threads[i]) == Some(w)
    ensures Lasting(s.wrcs) >= 1
  {
    hide Sound, PcInv;
    assert WrcInv(s, w);
    Moved(s, i, Idle, w);
    SumCovers(HasWptr, s.wrcs);
    assert HasWptr(s.wrcs[w]) == 1;
  }

  lemma AllClosed(s: State)
    requires Loose(s) && Lasting(s.wrcs) == 0 && forall i :: 0 <= i < |s.threads| ==> !s.threads[i].Drop?
    ensures Linkeds(s) == 0 && forall w :: 0 <= w < |s.wrcs| ==> s.wrcs[w] == Closed
  {
    hide Sound, PcInv;
    forall w | 0 <= w < |s.wrcs| ensures s.wrcs[w] == Closed && IsLinked(s.wrcs[w]) == 0 {
      assert WrcInv(s, w);
      SumZero(AtDrop(w), s.threads);
      SumCovers(HasWptr, s.wrcs);
      assert HasWptr(s.wrcs[w]) <= 0;
    }
    SumZero(IsLinked, s.wrcs);
  }

  lemma {:induction false} NothingReleased(ts: seq<Pc>)
    requires forall i :: 0 <= i < |ts| ==> !Releasing(ts[i])
    ensures var t := Total(ts); t.strong == t.keeping && t.lastStrong == t.lastWeak == t.finishing == t.freeing == 0
  {
    hide Weight, Releasing;
    if ts != [] {
      NotReleasingWeighs(ts[0]);
      NothingReleased(ts[1..]);
    }
  }

  lemma NotReleasingWeighs(pc: Pc)
    requires !Releasing(pc)
    ensures var x := Weight(pc); x.strong == x.keeping && x.lastStrong == x.lastWeak == x.finishing == x.freeing == 0
  {
  }

  lemma {:induction false} WaitersWeigh(ts: seq<Pc>)
    requires forall i :: 0 <= i < |ts| ==> Waiting(ts[i])
    ensures Total(ts).weak == 0
  {
    hide Weight, Waiting;
    if ts != [] {
      WaiterWeighs(ts[0]);
      WaitersWeigh(ts[1..]);
    }
  }

  lemma WaiterWeighs(pc: Pc)
    requires Waiting(pc)
    ensures Weight(pc).weak == 0 && !pc.Drop?
  {
    hide DecTally, WeakTally, DelTally, RefTally, PrTally;
  }

  lemma {:induction false} PublishersCount(ts: seq<Pc>)
    requires forall i :: 0 <= i < |ts| ==> ts[i].Idle? || Publishing(ts[i])
    ensures var t := Total(ts); t.weak == 0 && t.refc == t.publishing == Sum(IsPublishing, ts)
  {
    hide Weight;
    if ts != [] {
      PublisherWeighs(ts[0]);
      PublishersCount(ts[1..]);
    }
  }

  lemma PublisherWeighs(pc: Pc)
    requires pc.Idle? || Publishing(pc)
    ensures var x := Weight(pc); x.weak == 0 && x.refc == x.publishing == IsPublishing(pc)
  {
  }

  lemma {:induction false} SomeAcquirer(ts: seq<Pc>) returns (i: nat)
    requires Total(ts).acquiring > 0
    ensures i < |ts| && Weight(ts[i]).acquiring > 0
  {
    if Weight(ts[0]).acquiring > 0 {
      i := 0;
    } else {
      var j := SomeAcquirer(ts[1..]);
      i := j + 1;
    }
  }

  /** What is missing where the object lives on `weak`. */
  lemma NothingHeld(s: State)
    requires Forsaken(s)
    ensures var t, m := Total(s.threads), Lasting(s.wrcs);
      && m >= 0 && t.acquiring >= t.rising >= 0 && t.acquiring + t.publishing > 0
      && (LivesOnWeak(s) ==> m == t.rising == 0)
      && (t.acquiring == 0 ==> m == 0)
  {
    hide Loose, Weight;
    TotalNested(s.threads);
    LastingIsOpen(s.wrcs);
  }

  lemma ObjectGone(s: State)
    requires Forsaken(s) && forall i :: 0 <= i < |s.threads| ==> !Releasing(s.threads[i])
    ensures s.deletes == 1 && (!LivesOnWeak(s) ==> s.strong == 0)
  {
    hide PcInv, WrcInv, Supports, Weight, Releasing, Waiting;
    NothingHeld(s);
    NothingReleased(s.threads);
    TotalNested(s.threads);
    if LivesOnWeak(s) {
      forall i | 0 <= i < |s.threads| ensures Waiting(s.threads[i]) && !s.threads[i].Drop? {
        WhoIsLeft(s, i);
        WaiterWeighs(s.threads[i]);
      }
      WaitersWeigh(s.threads);
      AllClosed(s);
    }
  }

  lemma CounterForsaken(s: State)
    requires Forsaken(s) && s.strong == 0 && forall i :: 0 <= i < |s.threads| ==> !Releasing(s.threads[i])
    requires !LivesOnWeak(s) && Total(s.threads).acquiring == 0
    ensures Zombie(s)
  {
    hide PcInv, WrcInv, Supports, Weight, Releasing;
    NothingHeld(s);
    NothingReleased(s.threads);
    forall i | 0 <= i < |s.threads| ensures s.threads[i].Idle? || Publishing(s.threads[i]) {
      WhoIsLeft(s, i);
      NotStarting(s, i);
    }
    AllClosed(s);
    PublishersCount(s.threads);
  }

  lemma NotStarting(s: State, i: nat)
    requires i < |s.threads| && Total(s.threads).acquiring == 0
    ensures !Starting(s.threads[i])
  {
    Tallies(s, i, Idle);
  }

  // ---- where the object lives on `weak` and only wptrs are being made -------------------------------------

  predicate Parked(pc: Pc) { pc.Del? && pc.del.DelFlag? }

  /** Has not come to give back the object's share of the RefCounter. */
  predicate Pending(pc: Pc) {
    match pc
    case Del(_, p) => p.DelClear? || p.DelFlag?
    case Ref(c, _) => c.InWrcDelete?
    case _ => true
  }

  ghost predicate Late(s: State) {
    && Forsaken(s) && LivesOnWeak(s) && Total(s.threads).acquiring == 0
    && s.base && forall k :: 0 <= k < |s.threads| ==> Pending(s.threads[k])
  }

  lemma PendingGoes(s: State, pc: Pc)
    requires PcInv(s, pc) && LivesOnWeak(s) && (s.virgin ==> s.strong == BIAS)
    requires Releasing(pc) && Pending(pc) && !Parked(pc)
    ensures Pending(RunPc(s, pc, true).1) && RunPc(s, pc, true).0.base == s.base
  {
    hide RunWeak, RunRef, RunDel, RunInc, RunDec, RunNew, RunCopy, RunDrop, RunPr, PcInv;
    match pc
    case Weak(k, p) => PendingWeak(s, k, p);
    case Ref(c, p) => PendingRef(s, c, p);
    case Del(o, p) => PendingDel(s, o, p);
    case Dec(p) => PendingDec(s, p);
    case Drop(w) => PendingDrop(s, w);
  }

  lemma PendingDec(s: State, p: DecPc)
    ensures Pending(RunDec(s, p).1) && RunDec(s, p).0.base == s.base
  {
  }

  lemma PendingDrop(s: State, w: nat)
    ensures Pending(RunDrop(s, w).1) && RunDrop(s, w).0.base == s.base
  {
  }

  lemma PendingDel(s: State, o: Deleter, p: DelPc)
    requires p.DelClear?
    ensures Pending(RunDel(s, o, p).1) && RunDel(s, o, p).0.base == s.base
  {
  }

  lemma PendingWeak(s: State, k: WeakCaller, p: WeakPc)
    requires PcInv(s, Weak(k, p)) && LivesOnWeak(s) && (s.virgin ==> s.strong == BIAS)
    ensures Pending(RunWeak(s, k, p).1) && RunWeak(s, k, p).0.base == s.base
  {
  }

  lemma PendingRef(s: State, c: RefCaller, p: RefPc)
    requires c.InWrcDelete?
    ensures Pending(RunRef(s, c, p).1) && RunRef(s, c, p).0.base == s.base
  {
  }

  lemma LateStep(s: State, i: nat)
    requires Late(s) && i < |s.threads| && Releasing(s.threads[i]) && !Parked(s.threads[i])
    ensures var s' := After(s, i, Run(true)); Late(s') && Sum(RankOf, s'.threads) < Sum(RankOf, s.threads)
  {
    hide RunPc, PcInv, WrcInv, ObjectLife, CounterLife, Weight, Faults, Rank, Releasing, Pending, Parked, Supports;
    ReleaseKeepsForsaken(s, i);
    PendingGoes(s, s.threads[i]);
  }

  /** The others go on until one is about to give back the object's share, and then wptrs are made and promoted. */
  lemma {:induction false} LateLeaks(s: State)
    requires Late(s)
    ensures Harmed(s)
    decreases Sum(RankOf, s.threads)
  {
    hide Late, Rank, After, Harmed, Releasing, Parked;
    SumCovers(RankOf, s.threads);
    if i: nat :| i < |s.threads| && Releasing(s.threads[i]) && !Parked(s.threads[i]) {
      LateStep(s, i);
      LateLeaks(After(s, i, Run(true)));
      ReleasingIs(s.threads[i]);
      DoomedBy(s, i, Run(true));
    } else {
      var j, k := LateEnds(s);
      LeadsNowhere(s);
      WreckLeaks(s, s, j, k);
    }
  }

  lemma LateThread(s: State, i: nat)
    requires Late(s) && i < |s.threads| && (Releasing(s.threads[i]) ==> Parked(s.threads[i]))
    ensures var pc := s.threads[i];
      && (pc.Idle? || Publishing(pc) || (pc.Del? && pc.o.ByWeak? && pc == Del(pc.o, DelFlag)))
      && Weight(pc).weak == Weight(pc).lastWeak == Weight(pc).unhooking == 0
  {
    hide Sound, WrcInv, Supports;
    var pc := s.threads[i];
    NothingHeld(s);
    NotStarting(s, i);
    if !Releasing(pc) {
      WhoIsLeft(s, i);
    } else {
      assert PcInv(s, pc);
    }
  }

  lemma {:induction false} NoneWeighs(ts: seq<Pc>)
    requires forall i :: 0 <= i < |ts| ==>
      Weight(ts[i]).weak == Weight(ts[i]).lastWeak == Weight(ts[i]).unhooking == 0
    ensures var t := Total(ts); t.weak == t.lastWeak == t.unhooking == 0
  {
    hide Weight;
    if ts != [] {
      forall i | 0 <= i < |ts[1..]| ensures ts[1..][i] == ts[i + 1] {}
      NoneWeighs(ts[1..]);
    }
  }

  lemma {:induction false} SomeFinisher(ts: seq<Pc>) returns (i: nat)
    requires Total(ts).finishing > 0
    ensures i < |ts| && Weight(ts[i]).finishing > 0
  {
    hide Weight;
    if Weight(ts[0]).finishing > 0 {
      i := 0;
    } else {
      var j := SomeFinisher(ts[1..]);
      i := j + 1;
    }
  }

  lemma LateScalars(s: State)
    requires Late(s) && Linkeds(s) == 0
    requires var t := Total(s.threads); t.weak == t.lastWeak == t.unhooking == 0
    ensures s.weak == 0 && Total(s.threads).finishing == 1 && !s.cb && s.frees == 0
    ensures s.refc == 1 + Total(s.threads).refc && (s.strong == BIAS || (s.ext && s.strong == 0))
  {
    hide PcInv, WrcInv, Supports, Weight;
    TotalNested(s.threads);
  }

  lemma LateEnds(s: State) returns (j: nat, k: WeakCaller)
    requires Late(s) && forall i :: 0 <= i < |s.threads| && Releasing(s.threads[i]) ==> Parked(s.threads[i])
    ensures Wreck(s, j, k)
  {
    hide PcInv, WrcInv, Sound, Supports, Weight, Releasing, Parked, Pending, IsPublishing;
    forall i | 0 <= i < |s.threads|
      ensures var pc := s.threads[i];
        && (pc.Idle? || Publishing(pc) || (pc.Del? && pc.o.ByWeak? && pc == Del(pc.o, DelFlag)))
        && Weight(pc).weak == Weight(pc).lastWeak == Weight(pc).unhooking == 0
    {
      LateThread(s, i);
    }
    NothingHeld(s);
    AllClosed(s);
    NoneWeighs(s.threads);
    LateScalars(s);
    j := SomeFinisher(s.threads);
    PublishersFinishNothing(s.threads[j]);
    k := s.threads[j].o.k;
    OneDeleter(s, j, k);
  }

  lemma PublishersFinishNothing(pc: Pc)
    ensures pc.Idle? || Publishing(pc) ==> Weight(pc).finishing == 0
    ensures pc.Del? && pc.o.ByWeak? && pc == Del(pc.o, DelFlag) ==>
      Weight(pc).finishing == 1 && Weight(pc).publishing == 0 && Weight(pc).refc == WrcShare(pc.o.k)
    ensures pc.Idle? ==> Weight(pc) == Tally()
  {
  }

  /** Thread j has the only share that `finishing` counts, so nobody else is a deleter. */
  lemma OneDeleter(s: State, j: nat, k: WeakCaller)
    requires j < |s.threads| && s.threads[j] == Del(ByWeak(k), DelFlag)
    requires forall i :: 0 <= i < |s.threads| ==>
      var pc := s.threads[i]; pc.Idle? || Publishing(pc) || (pc.Del? && pc.o.ByWeak? && pc == Del(pc.o, DelFlag))
    requires Total(s.threads).finishing == 1 && Total(s.threads).publishing > 0
    ensures forall i :: 0 <= i < |s.threads| && i != j ==> s.threads[i].Idle? || Publishing(s.threads[i])
    ensures Total(s.threads).refc == WrcShare(k) + Sum(IsPublishing, s.threads)
    ensures Sum(IsPublishing, s.threads) >= 1 && |s.threads| >= 2
  {
    hide Weight, IsPublishing, Total, Shift, Within, Nested, Publishing, WrcShare;
    var us := s.threads[j := Idle];
    WithoutDeleter(s, j, k);
    forall i | 0 <= i < |us| ensures us[i].Idle? || Publishing(us[i]) {
      PublishersFinishNothing(us[i]);
      FinishesNothing(us, i);
    }
    forall i | 0 <= i < |s.threads| && i != j ensures s.threads[i].Idle? || Publishing(s.threads[i]) {
      assert us[i] == s.threads[i];
    }
    PublishersCount(us);
    NotPublishing(k);
    SumUpdate(IsPublishing, s.threads, j, Idle);
  }

  lemma WithoutDeleter(s: State, j: nat, k: WeakCaller)
    requires j < |s.threads| && s.threads[j] == Del(ByWeak(k), DelFlag)
    ensures var t, u := Total(s.threads), Total(s.threads[j := Idle]);
      u.finishing == t.finishing - 1 && u.publishing == t.publishing && u.refc == t.refc - WrcShare(k)
  {
    hide Weight;
    PublishersFinishNothing(s.threads[j]);
    PublishersFinishNothing(Idle);
    Tallies(s, j, Idle);
  }

  lemma FinishesNothing(ts: seq<Pc>, i: nat)
    requires i < |ts| && Total(ts).finishing == 0
    ensures Weight(ts[i]).finishing <= 0
  {
    forall pc ensures Nested(Weight(pc)) { WeightNested(pc); }
    AddUpCovers(Weight, ts, i);
  }

  lemma NotPublishing(k: WeakCaller)
    ensures IsPublishing(Idle) == IsPublishing(Del(ByWeak(k), DelFlag)) == 0
  {
  }

  // ---- the rule ---------------------------------------------------------------------------------------

  /** Before `weak` has been 0, nobody has come to give back the object's share. */
  lemma NobodyEnds(s: State)
    requires Loose(s) && LivesOnWeak(s) && !s.drained
    ensures s.base && forall k :: 0 <= k < |s.threads| ==> Pending(s.threads[k])
  {
    hide WrcInv, Weight, Pending, PcInv;
    forall k | 0 <= k < |s.threads| ensures Pending(s.threads[k]) {
      Tallies(s, k, Idle);
      assert PcInv(s, s.threads[k]);
      PendingBefore(s, s.threads[k]);
    }
  }

  lemma PendingBefore(s: State, pc: Pc)
    requires PcInv(s, pc) && LivesOnWeak(s) && !s.drained
    ensures Pending(pc)
  {
  }

  /** Where nothing supports the threads that need it, some continuation does harm. */
  lemma ForsakenHarmed(s: State)
    requires Forsaken(s) && (LivesOnWeak(s) ==> !s.drained)
    ensures Harmed(s) && (!LivesOnWeak(s) ==> Doomed(s))
  {
    hide Supports, Sound, PcInv, WrcInv, Weight, Harmed, Doomed;
    NothingHeld(s);
    if LivesOnWeak(s) && Total(s.threads).acquiring == 0 {
      NobodyEnds(s);
      LateLeaks(s);
    } else {
      ForsakenDoomed(s);
    }
  }

  lemma DropSound(s: State, i: nat)
    requires Inv(s) && s.sptrs == 1 && i < |s.threads| && s.threads[i].Idle?
    ensures Loose(After(s, i, StartDrop))
  {
    hide Weight, PcInv, Monotone, Exec;
    var s' := After(s, i, StartDrop);
    DropTally(s, i);
    forall k | 0 <= k < |s'.threads| ensures PcInv(s', s'.threads[k]) {
      if k != i {
        assert Monotone(s, s') by { SameFlags(s, s'); }
        PcStable(s, s', s.threads[k]);
      } else {
        DropPc(s');
      }
    }
    forall w: nat ensures WrcInv(s', w) {
      assert WrcInv(s, w);
      Moved(s, i, Dec(DecLoad), w);
    }
  }

  /** The share of the sptr passes to the thread that drops it. */
  lemma DropTally(s: State, i: nat)
    requires i < |s.threads| && s.threads[i].Idle?
    ensures var t := Total(s.threads);
      Total(s.threads[i := Dec(DecLoad)]) ==
        t.(strong := t.strong + 1, weak := t.weak + 1, dropping := t.dropping + 1, busy := t.busy + 1)
    ensures Nested(Total(s.threads))
  {
    Tallies(s, i, Dec(DecLoad));
  }

  lemma DropPc(s: State)
    ensures PcInv(s, Dec(DecLoad)) && forall w: nat :: PcInv(s, Drop(w))
  {
  }

  lemma SameFlags(s: State, s': State)
    requires s'.ext == s.ext && s'.virgin == s.virgin && s'.bias == s.bias && s'.strong == s.strong
    requires s'.drained == s.drained
    ensures Monotone(s, s')
  {
  }

  lemma DropLeavesForsaken(s: State, i: nat)
    requires Inv(s) && s.sptrs >= 1 && i < |s.threads| && s.threads[i].Idle? && !MayDrop(s)
    ensures var s' := After(s, i, StartDrop);
      Forsaken(s') && !s'.drained && LivesOnWeak(s') == s.ext
  {
    hide Weight, PcInv, WrcInv, Exec;
    DropTally(s, i);
    DropSound(s, i);
  }

  /** A drop of an sptr is safe, whatever happens next, if and only if MayDrop allows it.  With a normal life-time,
      what it forbids can end in a fault. */
  lemma DropIsSafeExactly(s: State, i: nat)
    requires Reachable(s) && s.sptrs >= 1 && i < |s.threads| && s.threads[i].Idle?
    ensures MayDrop(s) <==> !Harmed(After(s, i, StartDrop))
    ensures !s.ext ==> (MayDrop(s) <==> !Doomed(After(s, i, StartDrop)))
  {
    hide Harmed, Doomed, After, MayDrop, Inv, Forsaken, Reachable;
    ReachableInv(s);
    if MayDrop(s) {
      ReachableStep(s, i, StartDrop);
      ReachableIsNotHarmed(After(s, i, StartDrop));
    } else {
      DropLeavesForsaken(s, i);
      ForsakenHarmed(After(s, i, StartDrop));
    }
  }

  lemma WptrDropTally(s: State, i: nat, w: nat)
    requires i < |s.threads| && s.threads[i].Idle?
    ensures var t := Total(s.threads);
      Total(s.threads[i := Drop(w)]) == t.(dropping := t.dropping + 1, busy := t.busy + 1) && Nested(t)
  {
    Tallies(s, i, Drop(w));
  }

  lemma WptrDropSound(s: State, i: nat, w: nat)
    requires Inv(s) && i < |s.threads| && s.threads[i].Idle? && RoomForMore(s) && Unread(s, w)
    ensures Loose(After(s, i, StartDropWeak(w)))
  {
    hide Weight, PcInv, WrcInv, Monotone, Exec;
    var s' := After(s, i, StartDropWeak(w));
    WptrDropTally(s, i, w);
    HandleTaken(s.wrcs, w);
    forall k | 0 <= k < |s'.threads| ensures PcInv(s', s'.threads[k]) {
      if k != i {
        assert Monotone(s, s') by { SameFlags(s, s'); }
        PcStable(s, s', s.threads[k]);
      } else {
        DropPc(s');
      }
    }
    forall v: nat ensures WrcInv(s', v) {
      WptrDropWrc(s, i, w, v);
    }
  }

  lemma WptrDropWrc(s: State, i: nat, w: nat, v: nat)
    requires i < |s.threads| && s.threads[i].Idle? && Unread(s, w) && WrcInv(s, v)
    ensures WrcInv(After(s, i, StartDropWeak(w)), v)
  {
    hide Exec, WrcOk;
    Moved(s, i, Drop(w), v);
    DropWeakWrc(s, w, v, Sum(AtDrop(v), s.threads), Sum(UserOf(v), s.threads));
  }

  lemma WptrDropLeavesForsaken(s: State, i: nat, w: nat)
    requires Inv(s) && i < |s.threads| && s.threads[i].Idle? && RoomForMore(s) && Unread(s, w) && !MayDropWeak(s, w)
    ensures var s' := After(s, i, StartDropWeak(w));
      Forsaken(s') && !s'.drained && LivesOnWeak(s') == LivesOnWeak(s)
  {
    hide Weight, PcInv, WrcInv, Exec;
    WptrDropTally(s, i, w);
    WptrDropSound(s, i, w);
    SumCovers(IsLinked, s.wrcs);
    assert IsLinked(s.wrcs[w]) == 1;
  }

  /** And so it is for a wptr that no running call reads. */
  lemma WptrDropIsSafeExactly(s: State, i: nat, w: nat)
    requires Reachable(s) && i < |s.threads| && s.threads[i].Idle? && RoomForMore(s) && Unread(s, w)
    ensures MayDropWeak(s, w) <==> !Harmed(After(s, i, StartDropWeak(w)))
    ensures !LivesOnWeak(s) ==> (MayDropWeak(s, w) <==> !Doomed(After(s, i, StartDropWeak(w))))
  {
    hide Harmed, Doomed, After, MayDropWeak, Inv, Forsaken, Reachable, LivesOnWeak;
    ReachableInv(s);
    if MayDropWeak(s, w) {
      ReachableStep(s, i, StartDropWeak(w));
      ReachableIsNotHarmed(After(s, i, StartDropWeak(w)));
    } else {
      WptrDropLeavesForsaken(s, i, w);
      ForsakenHarmed(After(s, i, StartDropWeak(w)));
    }
  }

  lemma ReachableIsNotHarmed(s: State)
    requires Reachable(s)
    ensures !Harmed(s) && !Doomed(s)
  {
    hide Inv, After, Quiet;
    var s0, es0 :| Init(s0) && Reaches(s0, es0, s);
    forall es, s' | Reaches(s, es, s') ensures !s'.fault && !Leaks(s') {
      ReachesOn(s0, es0, s, es, s');
      assert Reachable(s');
      ReachableInv(s');
      InvNoFault(s');
      if Quiet(s') && s'.touched {
        NothingLeaks(s');
      }
    }
  }

  lemma InvNoFault(s: State)
    requires Inv(s)
    ensures !s.fault
  {
  }

  /** A thread that uses the raw pointer and has not counted a strong reference yet. */
  predicate UsesRawPointer(pc: Pc) {
    pc == Inc(IncWeak) || pc == Inc(IncLoad) || pc == Inc(IncAdd) || pc == New(NewRef)
  }

  /** A thread that has counted a strong reference which it will hand out as an sptr. */
  predicate CountsSptr(pc: Pc) {
    match pc
    case Inc(p) => p.IncUnbias? || p.IncLog? || p.IncFirst?
    case Pr(_, p) => p.PrUnbias? || p.PrPtr? || (p.PrFlag3? && p.got)
    case _ => false
  }

  /** A thread that uses the raw pointer, is counted in `weak` and will count a strong reference. */
  predicate IsRising(pc: Pc) { pc == Inc(IncLoad) || pc == Inc(IncAdd) }

  /** The same rule in terms of what the other threads are doing when the only sptr is dropped. */
  lemma LastSptrRule(s: State, i: nat)
    requires Reachable(s) && s.sptrs == 1 && i < |s.threads| && s.threads[i].Idle?
    ensures Harmed(After(s, i, StartDrop)) <==>
      && (forall k :: 0 <= k < |s.threads| ==> !CountsSptr(s.threads[k]))
      && (exists k :: 0 <= k < |s.threads| && (UsesRawPointer(s.threads[k]) || Publishing(s.threads[k])))
      && (if s.ext
          then (forall w: nat :: !HasHandle(s, w)) && forall k :: 0 <= k < |s.threads| ==> !IsRising(s.threads[k])
          else (forall w: nat :: !HasHandle(s, w)) || exists k :: 0 <= k < |s.threads| && UsesRawPointer(s.threads[k]))
  {
    hide Harmed, Doomed, After, CountsSptr, UsesRawPointer, Publishing, IsRising, Weight;
    DropIsSafeExactly(s, i);
    NotVirgin(s);
    WhoIsThere(s.threads);
    NoWptrLasts(s);
  }

  lemma NotVirgin(s: State)
    requires Reachable(s) && s.sptrs >= 1
    ensures !s.virgin
  {
    ReachableInv(s);
  }

  lemma {:induction false} WhoIsThere(ts: seq<Pc>)
    ensures var t := Total(ts);
      && (t.keeping > 0 <==> exists k :: 0 <= k < |ts| && CountsSptr(ts[k]))
      && (t.acquiring > 0 <==> exists k :: 0 <= k < |ts| && UsesRawPointer(ts[k]))
      && (t.publishing > 0 <==> exists k :: 0 <= k < |ts| && Publishing(ts[k]))
      && (t.rising > 0 <==> exists k :: 0 <= k < |ts| && IsRising(ts[k]))
      && t.keeping >= 0 && t.acquiring >= 0 && t.publishing >= 0 && t.rising >= 0
  {
    if ts != [] {
      WhoIsThere(ts[1..]);
      WeightSays(ts[0]);
      forall k | 1 <= k < |ts| ensures ts[k] == ts[1..][k - 1] {}
      forall k | 0 <= k < |ts[1..]| ensures ts[1..][k] == ts[k + 1] {}
    }
  }

  lemma WeightSays(pc: Pc)
    ensures Weight(pc).keeping == OneIf(CountsSptr(pc))
    ensures Weight(pc).acquiring == OneIf(UsesRawPointer(pc)) && Weight(pc).publishing == OneIf(Publishing(pc))
    ensures Weight(pc).rising == OneIf(IsRising(pc))
  {
  }

  lemma NoWptrLasts(s: State)
    ensures Lasting(s.wrcs) >= 0
    ensures Lasting(s.wrcs) == 0 <==> forall w: nat :: !HasHandle(s, w)
  {
    SumCovers(HasWptr, s.wrcs);
    if w: nat :| HasHandle(s, w) {
      assert HasWptr(s.wrcs[w]) == 1;
    } else {
      forall w | 0 <= w < |s.wrcs| ensures HasWptr(s.wrcs[w]) == 0 {
        assert !HasHandle(s, w);
      }
      SumZero(HasWptr, s.wrcs);
    }
  }

  // ---- and such drops there are -----------------------------------------------------------------------

  /** Thread 1 alone moves, thread 0 staying before its first step. */
  ghost predicate Is(s: State, strong: int, bias: bool, sptrs: int, pc: Pc) {
    && Reachable(s) && |s.threads| == 2 && s.threads[0] == Inc(IncWeak) && s.threads[1] == pc
    && s.strong == strong && s.bias == bias && s.sptrs == sptrs && !s.ext
  }

  /** What thread 1's next step does, when thread 0 stays where it is. */
  lemma StepAlone(s: State)
    requires |s.threads| == 2
    ensures var s', r := After(s, 1, Run(true)), RunPc(s, s.threads[1], true);
      s'.threads == [s.threads[0], r.1] && s'.strong == r.0.strong && s'.bias == r.0.bias && s'.sptrs == r.0.sptrs &&
      s'.ext == r.0.ext
  {
    hide RunPc, Faults;
  }

  lemma IncIsRun(s: State, p: IncPc)
    ensures RunPc(s, Inc(p), true) == RunInc(s, p) && RunInc(s, p).0.ext == s.ext
  {
  }

  /** One step of thread 1's IncStrongRef, between two states that Is describes. */
  lemma IncStep(s: State, p: IncPc, strong: int, bias: bool, sptrs: int, q: Pc) returns (s': State)
    requires Is(s, s.strong, s.bias, s.sptrs, Inc(p))
    requires var r := RunInc(s, p); r.0.strong == strong && r.0.bias == bias && r.0.sptrs == sptrs && r.1 == q
    ensures Is(s', strong, bias, sptrs, q)
  {
    hide After, RunPc, RunInc, Reachable, MayUseObject, MayDrop, MayDropWeak, MayExtend, RoomForMore;
    StepAlone(s);
    IncIsRun(s, p);
    ReachableStep(s, 1, Run(true));
    s' := After(s, 1, Run(true));
  }

  lemma AddUpTwo(f: Pc -> Tally, ts: seq<Pc>)
    requires |ts| == 2
    ensures AddUp(f, ts).acquiring == f(ts[0]).acquiring + f(ts[1]).acquiring
    ensures AddUp(f, ts).dropping == f(ts[0]).dropping + f(ts[1]).dropping
    ensures AddUp(f, ts).keeping == f(ts[0]).keeping + f(ts[1]).keeping
    ensures AddUp(f, ts).publishing == f(ts[0]).publishing + f(ts[1]).publishing
    ensures AddUp(f, ts).busy == f(ts[0]).busy + f(ts[1]).busy
  {
    assert ts[1..][0] == ts[1] && ts[1..][1..] == [];
    assert AddUp(f, ts[1..]) == Plus(f(ts[1]), Tally());
  }

  lemma StartBoth(s0: State) returns (s: State)
    requires Init(s0) && |s0.threads| == 2
    ensures Is(s, BIAS, true, 0, Inc(IncWeak))
  {
    assert Reaches(s0, [], s0);
    AddUpTwo(Weight, s0.threads);
    ReachableStep(s0, 0, StartStrong);
    s := After(s0, 0, StartStrong);
    AddUpTwo(Weight, s.threads);
    ReachableStep(s, 1, StartStrong);
    s := After(s, 1, StartStrong);
  }

  /** The six steps of thread 1's IncStrongRef. */
  lemma IncRuns(b: State, was: int) returns (s: State)
    requires Is(b, BIAS, true, 0, Inc(IncWeak)) && was == BIAS
    ensures Is(s, 1, false, 1, Idle)
  {
    hide Reachable;
    s := IncStep(b, IncWeak, was, true, 0, Inc(IncLoad));
    s := IncStep(s, IncLoad, was, true, 0, Inc(IncAdd));
    s := IncStep(s, IncAdd, was + 1, true, 0, Inc(IncUnbias));
    s := IncStep(s, IncUnbias, 1, false, 0, Inc(IncLog(was)));
    s := IncStep(s, IncLog(was), 1, false, 0, Inc(IncFirst(was)));
    s := IncStep(s, IncFirst(was), 1, false, 1, Idle);
  }

  /** Two threads build an sptr from the raw pointer of a new object, and the second finishes before the
      first has begun to count: MayDrop alone keeps the second from dropping its sptr, with that outcome. */
  lemma UnbackedAcquisitionFaults(s0: State)
    requires Init(s0) && |s0.threads| == 2
    ensures exists s: State ::
      && Reachable(s) && |s.threads| == 2 && s.threads[1].Idle? && s.sptrs == 1 && !s.ext && !MayDrop(s)
      && Doomed(After(s, 1, StartDrop))
  {
    var b := StartBoth(s0);
    var s := IncRuns(b, BIAS);
    AddUpTwo(Weight, s.threads);
    NotVirgin(s);
    DropIsSafeExactly(s, 1);
  }
}
