/** What every run of the reference-counting machine guarantees its clients. */
module RefBaseSafety {
  import opened Basics
  import opened Sums
  import opened RefBase
  import opened RefBaseProofs

  /** s is met in some run that starts from a new object. */
  ghost predicate Reachable(s: State) {
    exists s0, es :: Init(s0) && Reaches(s0, es, s)
  }

  lemma ReachableInv(s: State)
    requires Reachable(s)
    ensures Inv(s) && Nested(Total(s.threads))
  {
    var s0, es :| Init(s0) && Reaches(s0, es, s);
    InitInv(s0);
    RunsKeep(s0, es, s);
    TotalNested(s.threads);
  }

  /** The three counters count references: sptrs and open WeakRefCounters, the shares that threads
      hold in mid-operation, BIAS until it is taken off, and the object's own share. */
  lemma CountersCountReferences(s: State)
    requires Reachable(s)
    ensures var t := Total(s.threads);
      && s.strong == s.sptrs + t.strong + (if s.bias then BIAS else 0)
      && s.weak == s.sptrs + Linkeds(s) + t.weak
      && s.refc == OneIf(s.base) + Linkeds(s) + t.refc
      && 0 <= s.strong < 2 * BIAS && 0 <= s.weak && 0 <= s.refc
  {
    ReachableInv(s);
  }

  /** However the first acquisitions race, BIAS is subtracted at most once, it is in `strong` exactly
      until then, at most one thread is about to subtract it, and OnFirstStrongRef runs at most once. */
  lemma BiasLeavesOnce(s: State)
    requires Reachable(s)
    ensures s.unbiased == (if s.strong >= BIAS then 0 else 1) && Total(s.threads).bias <= 1
    ensures s.strong >= BIAS && !s.virgin ==> Total(s.threads).bias == 1
    ensures s.firsts <= 1 && (s.virgin ==> s.firsts == 0)
  {
    ReachableInv(s);
  }

  /** No step of any run reads or writes the object, the RefCounter or a WeakRefCounter after its
      delete, nor deletes one twice. */
  lemma NoUseAfterFree(s: State, i: nat)
    requires Reachable(s) && i < |s.threads|
    ensures !s.fault && !Faults(s, s.threads[i]) && s.deletes <= 1 && s.frees <= 1
  {
    ReachableInv(s);
    ReadyWrc(s, i);
    Tallies(s, i, Idle);
    NoFault(s, Total(s.threads), Linkeds(s), Lasting(s.wrcs), s.threads[i]);
  }

  /** Normal life-time: the object is deleted only after the last strong reference went, or when the
      last weak one went and no strong one ever existed. */
  lemma DeletedOnlyWhenUnreferenced(s: State)
    requires Reachable(s) && s.deletes > 0
    ensures s.sptrs == 0 && s.strong in {0, BIAS}
    ensures !s.ext ==> (s.strong == 0 && !s.virgin) || (s.virgin && s.drained)
    ensures s.ext ==> s.drained && s.weak == 0
  {
    ReachableInv(s);
  }

  /** Normal life-time: once the last strong reference has gone, `strong` stays 0 for ever, the
      object is deleted (or about to be, by one thread), and no promotion gets anything. */
  lemma DeadForever(s: State, es: seq<Event>, s': State)
    requires Reachable(s) && Dead(s) && Reaches(s, es, s')
    ensures s'.strong == 0 && s'.sptrs == 0 && !s'.ext
    ensures s'.deletes + Total(s'.threads).lastStrong == 1
    ensures forall i :: 0 <= i < |s'.threads| ==> !(s'.threads[i].Pr? && s'.threads[i].pr.PrPtr?)
  {
    ReachableInv(s);
    RunsKeep(s, es, s');
    TotalNested(s'.threads);
    forall i | 0 <= i < |s'.threads| ensures !(s'.threads[i].Pr? && s'.threads[i].pr.PrPtr?) {
      NothingPromoted(s', i);
    }
  }

  /** And deleted it is: by now, or after at most three more steps of the thread that is about to. */
  lemma DeadIsDeleted(s: State)
    requires Reachable(s) && Dead(s)
    ensures exists es, s' :: Reaches(s, es, s') && s'.deletes == 1 && |es| <= 3
    ensures (forall i :: 0 <= i < |s.threads| ==> s.threads[i].Idle?) ==> s.deletes == 1
  {
    hide Inv, Weight, Deletes, Nested;
    ReachableInv(s);
    DeadCount(s);
    if s.deletes == 1 {
      assert Reaches(s, [], s);
    } else {
      IdleDeletesNothing(s.threads);
      var i := SomeDeleter(s.threads);
      DeleterAt(s.threads[i]);
      var es, s' := DeleteFollows(s, i, 3);
    }
  }

  lemma DeadCount(s: State)
    requires Inv(s) && Dead(s)
    ensures s.deletes + Total(s.threads).lastStrong == 1 && s.deletes >= 0
    ensures s.deletes in {0, 1}
  {
    TotalNested(s.threads);
  }

  lemma DeleterAt(pc: Pc)
    requires Weight(pc).lastStrong > 0
    ensures Deletes(pc, 3)
  {
  }

  lemma IdleDeletesNothing(ts: seq<Pc>)
    ensures (forall i :: 0 <= i < |ts| ==> ts[i].Idle?) ==> Total(ts).lastStrong == 0
  {
    if forall i :: 0 <= i < |ts| ==> ts[i].Idle? {
      AllIdle(Weight, ts);
    }
  }

  lemma {:induction false} SomeDeleter(ts: seq<Pc>) returns (i: nat)
    requires Total(ts).lastStrong > 0
    ensures i < |ts| && Weight(ts[i]).lastStrong > 0
  {
    hide Weight;
    if Weight(ts[0]).lastStrong > 0 {
      i := 0;
    } else {
      var j := SomeDeleter(ts[1..]);
      i := j + 1;
    }
  }

  predicate Deletes(pc: Pc, n: nat) {
    (pc == Dec(DecLast) && n >= 3) || (pc == Dec(DecFlag) && n >= 2) || (pc == Dec(DecCallback) && n >= 1)
  }

  lemma DeleteStep(s: State, i: nat, n: nat)
    requires Inv(s) && Dead(s) && s.deletes == 0 && i < |s.threads| && Deletes(s.threads[i], n)
    ensures var s' := After(s, i, Run(true)); s'.deletes == 1 || (s'.deletes == 0 && Deletes(s'.threads[i], n - 1))
  {
    hide Faults, Backed, CounterLife, BiasOnce, Counts;
  }

  lemma {:induction false} DeleteFollows(s: State, i: nat, n: nat) returns (es: seq<Event>, s': State)
    requires Inv(s) && Dead(s) && s.deletes == 0 && i < |s.threads| && Deletes(s.threads[i], n)
    ensures Reaches(s, es, s') && s'.deletes == 1 && |es| <= n
    decreases n
  {
    hide After, Inv, Dead;
    var s1 := After(s, i, Run(true));
    DeleteStep(s, i, n);
    StepKeeps(s, i, Run(true));
    if s1.deletes == 1 {
      assert Reaches(s1, [], s1);
      es, s' := [], s1;
    } else {
      es, s' := DeleteFollows(s1, i, n - 1);
    }
    ReachesCons(s, Event(i, Run(true)), es, s');
    es := [Event(i, Run(true))] + es;
  }

  lemma NothingPromoted(s: State, i: nat)
    requires Inv(s) && Dead(s) && i < |s.threads|
    ensures !(s.threads[i].Pr? && s.threads[i].pr.PrPtr?)
  {
    Tallies(s, i, Idle);
  }

  /** A promotion that succeeds hands out a live object: callback_ is set, so GetRefPtr is not null. */
  lemma PromotedObjectLives(s: State, i: nat)
    requires Reachable(s) && i < |s.threads| && s.threads[i].Pr? && s.threads[i].pr.PrPtr?
    ensures s.cb && s.deletes == 0
  {
    hide Backed, CounterLife, BiasOnce, PcInv, WrcInv;
    ReachableInv(s);
    Tallies(s, i, Idle);
  }

  /** A promotion gives up only when the object has a normal life-time and is past its last strong reference. */
  lemma PromotionFailsOnlyOnDead(s: State, i: nat)
    requires Reachable(s) && i < |s.threads| && s.threads[i].Weak? && s.threads[i].k.FromPromote?
    ensures !s.ext && s.strong == 0 && !s.virgin
  {
    ReachableInv(s);
    assert PcInv(s, s.threads[i]);
  }

  /** While an sptr exists, or the life-time is extended and any reference is left, the object lives. */
  lemma ReferencedObjectLives(s: State)
    requires Reachable(s) && (s.sptrs >= 1 || (s.ext && s.weak >= 1))
    ensures s.deletes == 0 && s.cb && s.frees == 0
  {
    ReachableInv(s);
  }

  /** From ExtendObjectLifetime on, whatever happens, the object lives as long as any reference is left. */
  lemma ExtendedLivesOnWeak(s: State, i: nat, es: seq<Event>, s': State)
    requires Reachable(s) && i < |s.threads| && MayExtend(s) && Reaches(After(s, i, Extend), es, s')
    ensures s'.weak >= 1 ==> s'.deletes == 0 && s'.cb && s'.frees == 0
  {
    hide Inv, Reachable, Reaches, MayExtend, Nested;
    ReachableInv(s);
    assert Enabled(s, i, Extend);
    StepKeeps(s, i, Extend);
    RunsKeep(After(s, i, Extend), es, s');
    ExtendedAlive(s');
  }

  lemma ExtendedAlive(s: State)
    requires Inv(s) && s.ext
    ensures s.weak >= 1 ==> s.deletes == 0 && s.cb && s.frees == 0
  {
    TotalNested(s.threads);
  }

  /** The RefCounter is not deleted before the object. */
  lemma CounterOutlivesObject(s: State)
    requires Reachable(s) && s.frees > 0
    ensures s.deletes == 1 && s.sptrs == 0 && Linkeds(s) == 0
  {
    ReachableInv(s);
  }

  /** Nobody holds or is doing anything. */
  ghost predicate Quiet(s: State) {
    && s.sptrs == 0
    && (forall w: nat :: LinkedAt(s, w) ==> s.wrcs[w].handles == 0)
    && (forall i :: 0 <= i < |s.threads| ==> s.threads[i].Idle?)
  }

  /** Nothing leaks, in either life-time mode: when all references are gone from an object that ever
      had one, the object and its RefCounter have each been deleted exactly once. */
  lemma NothingLeaks(s: State)
    requires Reachable(s) && Quiet(s) && s.touched
    ensures s.deletes == 1 && s.frees == 1 && !s.cb && s.weak == 0 && s.refc == 0
  {
    ReachableInv(s);
    AllIdle(Weight, s.threads);
    forall w | 0 <= w < |s.wrcs| ensures IsLinked(s.wrcs[w]) == 0 {
      assert WrcInv(s, w);
      SumZero(AtDrop(w), s.threads);
    }
    SumZero(IsLinked, s.wrcs);
  }

  lemma ReachesCons(s0: State, e: Event, es: seq<Event>, s: State)
    requires e.i < |s0.threads| && Enabled(s0, e.i, e.a) && Reaches(After(s0, e.i, e.a), es, s)
    ensures Reaches(s0, [e] + es, s)
  {
    assert ([e] + es)[1..] == es;
  }

  lemma {:induction false} ReachesOn(s0: State, es: seq<Event>, s: State, fs: seq<Event>, s': State)
    requires Reaches(s0, es, s) && Reaches(s, fs, s')
    ensures Reaches(s0, es + fs, s')
    decreases |es|
  {
    hide After, Enabled;
    if es == [] {
      assert es + fs == fs;
    } else {
      ReachesOn(After(s0, es[0].i, es[0].a), es[1..], s, fs, s');
      ReachesCons(s0, es[0], es[1..] + fs, s');
      assert es + fs == [es[0]] + (es[1..] + fs);
    }
  }

  lemma ReachableStep(s: State, i: nat, a: Action)
    requires Reachable(s) && i < |s.threads| && Enabled(s, i, a)
    ensures Reachable(After(s, i, a))
  {
    var s0, es :| Init(s0) && Reaches(s0, es, s);
    ReachesCons(s, Event(i, a), [], After(s, i, a));
    ReachesOn(s0, es, s, [Event(i, a)] + [], After(s, i, a));
  }
}
