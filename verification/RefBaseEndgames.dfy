/**
  * How it ends when a wptr is made after `weak` has been 0: runs of a single thread in which the object's share of the
  * RefCounter is given back twice, or never.
  */
module RefBaseEndgames {
  import opened Basics
  import opened Sums
  import opened RefBase
  import opened RefBaseProofs
  import opened RefBaseSafety

  /** Some continuation uses memory after its delete. */
  ghost predicate Doomed(s: State) { exists es, s' :: Reaches(s, es, s') && s'.fault }

  /** Nothing is left that could delete the object or its RefCounter, and one of them is there still. */
  ghost predicate Leaks(s: State) { Quiet(s) && s.touched && (s.deletes == 0 || s.frees == 0) }

  /** Some continuation uses memory after its delete, or leaks. */
  ghost predicate Harmed(s: State) { exists es, s' :: Reaches(s, es, s') && (s'.fault || Leaks(s')) }

  ghost predicate Leads(s: State, s': State) { exists es :: Reaches(s, es, s') }

  lemma LeadsNowhere(s: State)
    ensures Leads(s, s)
  {
    assert Reaches(s, [], s);
  }

  lemma LeadsOn(o: State, s: State, i: nat, a: Action)
    requires Leads(o, s) && i < |s.threads| && Enabled(s, i, a)
    ensures Leads(o, After(s, i, a))
  {
    hide Enabled, After;
    var es :| Reaches(o, es, s);
    var s' := After(s, i, a);
    assert Reaches(s', [], s');
    ReachesCons(s, Event(i, a), [], s');
    ReachesOn(o, es, s, [Event(i, a)] + [], s');
  }

  lemma FaultsNow(o: State, s: State, i: nat)
    requires Leads(o, s) && i < |s.threads| && !s.threads[i].Idle? && Faults(s, s.threads[i])
    ensures Doomed(o) && Harmed(o)
  {
    LeadsOn(o, s, i, Run(true));
    assert After(s, i, Run(true)).fault;
  }

  // ---- one thread alone --------------------------------------------------------------------------------

  /** What the steps of a thread depend on, but for the object itself. */
  datatype View = View(ext: bool, strong: int, weak: int, refc: int, cb: bool, frees: int, wrcs: seq<Wrc>)

  function Seen(s: State): View { View(s.ext, s.strong, s.weak, s.refc, s.cb, s.frees, s.wrcs) }

  /** Thread i is at pc, the others are as in threads, and there is no sptr; o led here. */
  ghost predicate At(o: State, s: State, threads: seq<Pc>, i: nat, pc: Pc, v: View) {
    && Leads(o, s) && i < |threads| && s.threads == threads[i := pc]
    && Seen(s) == v && s.sptrs == 0 && s.touched
  }

  /** One step of thread i, between two such states. */
  lemma Goes(o: State, s: State, threads: seq<Pc>, i: nat, pc: Pc, v: View, pc': Pc, v': View) returns (s': State)
    requires At(o, s, threads, i, pc, v) && !pc.Idle?
    requires var r := RunPc(s, pc, true); r.1 == pc' && Seen(r.0) == v' && r.0.sptrs == 0 && r.0.touched
    ensures At(o, s', threads, i, pc', v')
  {
    hide RunPc, Faults, Leads;
    assert s.threads[i] == pc;
    s' := After(s, i, Run(true));
    LeadsOn(o, s, i, Run(true));
    assert threads[i := pc][i := pc'] == threads[i := pc'];
  }

  lemma WeakGoes(o: State, s: State, threads: seq<Pc>, i: nat, k: WeakCaller, p: WeakPc, v: View, pc': Pc, weak: int)
    returns (s': State)
    requires At(o, s, threads, i, Weak(k, p), v) && !p.WeakCallback?
    requires RunWeak(s, k, p).1 == pc' && RunWeak(s, k, p).0.weak == weak
    ensures At(o, s', threads, i, pc', v.(weak := weak))
  {
    hide Leads;
    s' := Goes(o, s, threads, i, Weak(k, p), v, pc', v.(weak := weak));
  }

  lemma RefGoes(o: State, s: State, threads: seq<Pc>, i: nat, c: RefCaller, p: RefPc, v: View, pc': Pc)
    returns (s': State)
    requires At(o, s, threads, i, Ref(c, p), v) && RunRef(s, c, p).1 == pc'
    ensures At(o, s', threads, i, pc', v.(refc := v.refc - OneIf(p.RefSub?), frees := v.frees + OneIf(p.RefFree?)))
  {
    hide Leads;
    s' := Goes(o, s, threads, i, Ref(c, p), v, pc',
               v.(refc := v.refc - OneIf(p.RefSub?), frees := v.frees + OneIf(p.RefFree?)));
  }

  ghost predicate Resting(threads: seq<Pc>) { forall k :: 0 <= k < |threads| ==> threads[k].Idle? }

  lemma NobodyBusy(ts: seq<Pc>, w: nat)
    requires Resting(ts)
    ensures Total(ts) == Tally() && Sum(UserOf(w), ts) == 0
  {
    AllIdle(Weight, ts);
    SumZero(UserOf(w), ts);
  }

  /** Nobody else does anything while thread i drops the only wptr of WeakRefCounter w. */
  lemma DropGoes(o: State, s: State, threads: seq<Pc>, i: nat, v: View, w: nat) returns (s': State)
    requires At(o, s, threads, i, Idle, v) && Resting(threads) && IsOpen(v.wrcs, w) && v.wrcs[w] == Linked(1, 1)
    ensures At(o, s', threads, i, Weak(FromWrc(w), WeakLoad), v.(wrcs := v.wrcs[w := Closed]))
  {
    hide Leads, RunWeak, RunDel, RunRef, RunInc, RunDec, RunPr;
    s' := DropStarts(o, s, threads, i, v, w);
    var ws := TakeHandle(v.wrcs, w);
    assert ws[w := Closed] == v.wrcs[w := Closed];
    s' := Goes(o, s', threads, i, Drop(w), v.(wrcs := ws), Weak(FromWrc(w), WeakLoad),
               v.(wrcs := v.wrcs[w := Closed]));
  }

  lemma DropStarts(o: State, s: State, threads: seq<Pc>, i: nat, v: View, w: nat) returns (s': State)
    requires At(o, s, threads, i, Idle, v) && Resting(threads) && IsOpen(v.wrcs, w) && v.wrcs[w] == Linked(1, 1)
    ensures At(o, s', threads, i, Drop(w), v.(wrcs := TakeHandle(v.wrcs, w)))
  {
    hide Leads, Weight, Exec;
    assert s.threads == threads && s.wrcs == v.wrcs;
    NobodyBusy(threads, w);
    s' := After(s, i, StartDropWeak(w));
    LeadsOn(o, s, i, StartDropWeak(w));
  }

  /** A WeakRefCounter that was closed gives back its shares; others are left. */
  lemma OneWptrLess(o: State, s: State, threads: seq<Pc>, i: nat, v: View, w: nat) returns (s': State)
    requires At(o, s, threads, i, Weak(FromWrc(w), WeakLoad), v) && v.weak >= 2 && v.refc >= 2
    ensures At(o, s', threads, i, Idle, v.(weak := v.weak - 1, refc := v.refc - 1))
  {
    hide Leads;
    var k, c := FromWrc(w), InWrcDelete(w);
    s' := WeakGoes(o, s, threads, i, k, WeakLoad, v, Weak(k, WeakSub), v.weak);
    s' := WeakGoes(o, s', threads, i, k, WeakSub, v, Ref(c, RefLoad), v.weak - 1);
    s' := ShareGoes(o, s', threads, i, v.(weak := v.weak - 1), w);
  }

  lemma ShareGoes(o: State, s: State, threads: seq<Pc>, i: nat, v: View, w: nat) returns (s': State)
    requires At(o, s, threads, i, Ref(InWrcDelete(w), RefLoad), v) && v.refc >= 2
    ensures At(o, s', threads, i, Idle, v.(refc := v.refc - 1))
  {
    hide Leads;
    var c := InWrcDelete(w);
    s' := RefGoes(o, s, threads, i, c, RefLoad, v, Ref(c, RefSub));
    s' := RefGoes(o, s', threads, i, c, RefSub, v, Idle);
  }

  /** WeakRefCounters that are not closed have one wptr each. */
  ghost predicate Singles(ws: seq<Wrc>) { forall w :: 0 <= w < |ws| ==> ws[w] == Closed || ws[w] == Linked(1, 1) }

  lemma {:induction false} SomeOpen(ws: seq<Wrc>) returns (w: nat)
    requires Sum(IsLinked, ws) > 0
    ensures IsOpen(ws, w)
  {
    if ws[0].Linked? {
      w := 0;
    } else {
      var v := SomeOpen(ws[1..]);
      w := v + 1;
    }
  }

  /** Thread 0 drops all wptrs but one, while more than one share of `weak` and of the RefCounter is left. */
  lemma {:induction false} WptrsLess(o: State, s: State, threads: seq<Pc>, v: View, least: nat, weak: int, refc: int)
    returns (s': State, v': View)
    requires At(o, s, threads, 0, Idle, v) && Resting(threads) && Singles(v.wrcs)
    requires least <= Sum(IsLinked, v.wrcs) && weak + least >= 1 && refc + least >= 1
    requires v.weak == weak + Sum(IsLinked, v.wrcs) && v.refc == refc + Sum(IsLinked, v.wrcs)
    ensures At(o, s', threads, 0, Idle, v') && Singles(v'.wrcs) && Sum(IsLinked, v'.wrcs) == least
    ensures v' == v.(weak := weak + least, refc := refc + least, wrcs := v'.wrcs)
    decreases Sum(IsLinked, v.wrcs) - least
  {
    hide At, Leads;
    if Sum(IsLinked, v.wrcs) == least {
      s', v' := s, v;
    } else {
      var w := SomeOpen(v.wrcs);
      SumUpdate(IsLinked, v.wrcs, w, Closed);
      var s1 := DropGoes(o, s, threads, 0, v, w);
      var v1 := v.(wrcs := v.wrcs[w := Closed]);
      var s2 := OneWptrLess(o, s1, threads, 0, v1, w);
      s', v' := WptrsLess(o, s2, threads, v1.(weak := v.weak - 1, refc := v.refc - 1), least, weak, refc);
    }
  }

  // ---- wptrs made too late: the object's share of the RefCounter is taken twice -----------------------------

  predicate Publishing(pc: Pc) { pc == New(NewCount) || pc == New(NewWeak) }

  ghost function IsPublishing(pc: Pc): int { OneIf(Publishing(pc)) }

  /** Steps to go before it is published. */
  ghost function PublishRank(pc: Pc): int { if pc == New(NewCount) then 2 else if pc == New(NewWeak) then 1 else 0 }

  /** `weak` has been 0 and the object's own share of `refc` is spent, but WeakRefCounters are still made. */
  ghost predicate Zombie(s: State) {
    && s.strong == 0 && !s.ext && s.sptrs == 0 && s.frees == 0 && s.touched && |s.threads| >= 1
    && (forall k :: 0 <= k < |s.threads| ==> s.threads[k].Idle? || Publishing(s.threads[k]))
    && Singles(s.wrcs)
    && s.weak == Linkeds(s) && s.refc == Linkeds(s) + Sum(IsPublishing, s.threads) && s.refc >= 1
  }

  lemma {:induction false} ZombieDoomed(o: State, s: State)
    requires Leads(o, s) && Zombie(s)
    ensures Doomed(o)
    decreases Sum(PublishRank, s.threads)
  {
    hide Leads, Doomed;
    SumCovers(PublishRank, s.threads);
    if i: nat :| i < |s.threads| && Publishing(s.threads[i]) {
      ZombiePublishes(s, i);
      LeadsOn(o, s, i, Run(true));
      ZombieDoomed(o, After(s, i, Run(true)));
    } else {
      SumZero(IsPublishing, s.threads);
      LastWptrs(o, s);
    }
  }

  lemma PublisherRuns(s: State, i: nat, p: NewPc)
    requires i < |s.threads| && s.threads[i] == New(p) && !p.NewRef?
    ensures var s' := After(s, i, Run(true));
      && s'.threads == s.threads[i := if p.NewWeak? then Idle else New(NewWeak)]
      && s'.weak == (if p.NewWeak? then s.weak + 1 else s.weak)
      && s'.wrcs == (if p.NewWeak? then s.wrcs + [Linked(1, 1)] else s.wrcs)
      && s'.ext == s.ext && s'.strong == s.strong && s'.refc == s.refc && s'.cb == s.cb && s'.frees == s.frees
      && s'.sptrs == s.sptrs && s'.touched == (s.touched || p.NewWeak?)
  {
    hide RunPc, Faults;
    assert RunPc(s, New(p), true) == RunNew(s, p) by { NewRuns(s, p); }
  }

  lemma NewRuns(s: State, p: NewPc)
    ensures RunPc(s, New(p), true) == RunNew(s, p)
  {
  }

  /** A WeakRefCounter comes nearer to being counted in `weak`. */
  lemma Publishes(s: State, i: nat)
    requires i < |s.threads| && Publishing(s.threads[i]) && Singles(s.wrcs)
    ensures var s', done := After(s, i, Run(true)), OneIf(s.threads[i] == New(NewWeak));
      && s'.threads == s.threads[i := if done == 1 then Idle else New(NewWeak)]
      && Seen(s') == Seen(s).(weak := s.weak + done, wrcs := s'.wrcs)
      && s'.sptrs == s.sptrs && s'.touched == (s.touched || done == 1)
      && Singles(s'.wrcs) && Linkeds(s') == Linkeds(s) + done
      && Sum(IsPublishing, s'.threads) == Sum(IsPublishing, s.threads) - done
      && Sum(PublishRank, s'.threads) == Sum(PublishRank, s.threads) - 1
  {
    hide After;
    PublisherRuns(s, i, s.threads[i].nw);
    var q := After(s, i, Run(true)).threads[i];
    SumUpdate(PublishRank, s.threads, i, q);
    SumUpdate(IsPublishing, s.threads, i, q);
    SumAppend(IsLinked, s.wrcs, Linked(1, 1));
  }

  lemma ZombiePublishes(s: State, i: nat)
    requires Zombie(s) && i < |s.threads| && Publishing(s.threads[i])
    ensures var s' := After(s, i, Run(true));
      Zombie(s') && Sum(PublishRank, s'.threads) < Sum(PublishRank, s.threads)
  {
    hide After, Singles, PublishRank, IsPublishing;
    Publishes(s, i);
  }

  /** When the last of these wptrs goes, the share of `refc` that was spent is taken again. */
  lemma LastWptrs(o: State, s: State)
    requires Leads(o, s) && Zombie(s) && Resting(s.threads) && Linkeds(s) >= 1
    ensures Doomed(o)
  {
    hide Leads, Doomed;
    var ts, v := s.threads, Seen(s);
    assert ts[0 := Idle] == ts;
    SumZero(IsPublishing, ts);
    var s1, v1 := WptrsLess(o, s, ts, v, 1, 0, 0);
    var w := SomeOpen(v1.wrcs);
    var s2 := DropGoes(o, s1, ts, 0, v1, w);
    LastShareTwice(o, s2, ts, 0, v1.(wrcs := v1.wrcs[w := Closed]), w);
  }

  /** The last of them takes `weak` to 0 a second time, deletes the RefCounter, and then goes on with it. */
  lemma LastShareTwice(o: State, s: State, threads: seq<Pc>, i: nat, v: View, w: nat)
    requires At(o, s, threads, i, Weak(FromWrc(w), WeakLoad), v)
    requires v.weak == v.refc == 1 && v.strong == 0 && !v.ext && v.frees == 0
    ensures Doomed(o)
  {
    hide Leads, Doomed;
    var k, c := FromWrc(w), InDecWeak(FromWrc(w));
    var s' := WeakGoes(o, s, threads, i, k, WeakLoad, v, Weak(k, WeakSub), 1);
    s' := WeakGoes(o, s', threads, i, k, WeakSub, v, Weak(k, WeakFlag), 0);
    s' := WeakGoes(o, s', threads, i, k, WeakFlag, v.(weak := 0), Weak(k, WeakStrong), 0);
    s' := WeakGoes(o, s', threads, i, k, WeakStrong, v.(weak := 0), Ref(c, RefLoad), 0);
    CounterTwice(o, s', threads, i, v.(weak := 0), w);
  }

  lemma CounterTwice(o: State, s: State, threads: seq<Pc>, i: nat, v: View, w: nat)
    requires At(o, s, threads, i, Ref(InDecWeak(FromWrc(w)), RefLoad), v) && v.refc == 1 && v.frees == 0
    ensures Doomed(o)
  {
    hide Leads, Doomed;
    var c := InDecWeak(FromWrc(w));
    var s' := RefGoes(o, s, threads, i, c, RefLoad, v, Ref(c, RefSub));
    s' := RefGoes(o, s', threads, i, c, RefSub, v, Ref(c, RefFree));
    s' := RefGoes(o, s', threads, i, c, RefFree, v.(refc := 0), Ref(InWrcDelete(w), RefLoad));
    assert s'.threads[i] == Ref(InWrcDelete(w), RefLoad);
    FaultsNow(o, s', i);
  }

  // ---- wptrs made too late: the object's share of the RefCounter is never given back -------------------------

  /** The object lived on `weak`, which has been 0; thread j is deleting it while WeakRefCounters are still made. */
  ghost predicate Wreck(s: State, j: nat, k: WeakCaller) {
    && j < |s.threads| && s.threads[j] == Del(ByWeak(k), DelFlag) && |s.threads| >= 2
    && (forall i :: 0 <= i < |s.threads| && i != j ==> s.threads[i].Idle? || Publishing(s.threads[i]))
    && (s.strong == BIAS || (s.ext && s.strong == 0))
    && s.sptrs == 0 && !s.cb && s.frees == 0 && s.touched
    && Singles(s.wrcs) && Linkeds(s) + Sum(IsPublishing, s.threads) >= 1
    && s.weak == Linkeds(s) && s.refc == 1 + WrcShare(k) + Linkeds(s) + Sum(IsPublishing, s.threads)
  }

  lemma {:induction false} WreckLeaks(o: State, s: State, j: nat, k: WeakCaller)
    requires Leads(o, s) && Wreck(s, j, k)
    ensures Harmed(o)
    decreases Sum(PublishRank, s.threads)
  {
    hide Leads, Harmed;
    SumCovers(PublishRank, s.threads);
    if i: nat :| i < |s.threads| && Publishing(s.threads[i]) {
      WreckPublishes(s, j, k, i);
      LeadsOn(o, s, i, Run(true));
      WreckLeaks(o, After(s, i, Run(true)), j, k);
    } else {
      SumZero(IsPublishing, s.threads);
      WptrPromoted(o, s, j, k);
    }
  }

  lemma WreckPublishes(s: State, j: nat, k: WeakCaller, i: nat)
    requires Wreck(s, j, k) && i < |s.threads| && Publishing(s.threads[i])
    ensures var s' := After(s, i, Run(true));
      Wreck(s', j, k) && Sum(PublishRank, s'.threads) < Sum(PublishRank, s.threads)
  {
    hide After, Singles, PublishRank, IsPublishing, WrcShare;
    Publishes(s, i);
  }

  /** All threads but j are idle, and j is not acquiring anything. */
  lemma OnlyBusy(ts: seq<Pc>, j: nat, k: WeakCaller)
    requires j < |ts| && ts[j] == Del(ByWeak(k), DelFlag) && Resting(ts[j := Idle])
    ensures Total(ts).busy == 1
  {
    NobodyBusy(ts[j := Idle], 0);
    assert ts[j := Idle][j := ts[j]] == ts;
    AddUpShift(Weight, ts[j := Idle], j, ts[j]);
  }

  /** Another thread promotes such a wptr; it gets no sptr, but its shares stay counted. */
  lemma WptrPromoted(o: State, s: State, j: nat, k: WeakCaller)
    requires Leads(o, s) && Wreck(s, j, k) && Sum(IsPublishing, s.threads) == 0
    requires forall i :: 0 <= i < |s.threads| ==> !Publishing(s.threads[i])
    ensures Harmed(o)
  {
    hide Leads, Harmed, Weight;
    var ts, v, i: nat := s.threads, Seen(s), if j == 0 then 1 else 0;
    assert Resting(ts[j := Idle]);
    OnlyBusy(ts, j, k);
    var w := SomeOpen(s.wrcs);
    LeadsOn(o, s, i, StartPromote(w));
    var s1 := After(s, i, StartPromote(w));
    var s2 := PromoteGoes(o, s1, ts, i, v, w);
    assert ts[i := Idle] == ts && ts[j := ts[j]] == ts;
    WreckDeleted(o, s2, ts, j, k, v.(strong := 1, weak := v.weak + 1));
  }

  lemma PromoteGoes(o: State, s: State, threads: seq<Pc>, i: nat, v: View, w: nat) returns (s': State)
    requires At(o, s, threads, i, Pr(w, PrLoad), v) && !v.cb
    requires v.strong == BIAS || (v.ext && v.strong == 0)
    ensures At(o, s', threads, i, Idle, v.(strong := 1, weak := v.weak + 1))
  {
    hide Leads;
    var v1 := v.(weak := v.weak + 1);
    s' := PrGoes(o, s, threads, i, w, PrLoad, v, Pr(w, PrWeak(v.strong)), v);
    if v.strong != BIAS {
      s' := PrGoes(o, s', threads, i, w, PrWeak(v.strong), v, Pr(w, PrFlag2(v.strong)), v1);
      s' := FromNothing(o, s', threads, i, v1, w);
    } else {
      s' := PrGoes(o, s', threads, i, w, PrWeak(v.strong), v, Pr(w, PrFlag1(v.strong)), v1);
      s' := FromBias(o, s', threads, i, v1, w);
    }
    s' := PrGoes(o, s', threads, i, w, PrPtr, v1.(strong := 1), Idle, v1.(strong := 1));
  }

  lemma FromNothing(o: State, s: State, threads: seq<Pc>, i: nat, v: View, w: nat) returns (s': State)
    requires At(o, s, threads, i, Pr(w, PrFlag2(v.strong)), v) && !v.cb && v.ext && v.strong == 0
    ensures At(o, s', threads, i, Pr(w, PrPtr), v.(strong := 1))
  {
    hide Leads;
    var v1 := v.(strong := 1);
    s' := PrGoes(o, s, threads, i, w, PrFlag2(v.strong), v, Pr(w, PrAdd), v);
    s' := PrGoes(o, s', threads, i, w, PrAdd, v, Pr(w, PrFlag3(v.strong, true)), v1);
    s' := PrGoes(o, s', threads, i, w, PrFlag3(v.strong, true), v1, Pr(w, PrPtr), v1);
  }

  lemma FromBias(o: State, s: State, threads: seq<Pc>, i: nat, v: View, w: nat) returns (s': State)
    requires At(o, s, threads, i, Pr(w, PrFlag1(v.strong)), v) && !v.cb && v.strong == BIAS
    ensures At(o, s', threads, i, Pr(w, PrPtr), v.(strong := 1))
  {
    hide Leads;
    var v1 := v.(strong := v.strong + 1);
    if v.ext {
      s' := PrGoes(o, s, threads, i, w, PrFlag1(v.strong), v, Pr(w, PrFlag2(v.strong)), v);
      s' := PrGoes(o, s', threads, i, w, PrFlag2(v.strong), v, Pr(w, PrAdd), v);
      s' := PrGoes(o, s', threads, i, w, PrAdd, v, Pr(w, PrUnbias), v1);
    } else {
      s' := PrGoes(o, s, threads, i, w, PrFlag1(v.strong), v, Pr(w, PrCas2(v.strong)), v);
      s' := PrGoes(o, s', threads, i, w, PrCas2(v.strong), v, Pr(w, PrUnbias), v1);
    }
    s' := PrGoes(o, s', threads, i, w, PrUnbias, v1, Pr(w, PrPtr), v.(strong := 1));
  }

  lemma PrGoes(o: State, s: State, threads: seq<Pc>, i: nat, w: nat, p: PrPc, v: View, pc': Pc, v': View)
    returns (s': State)
    requires At(o, s, threads, i, Pr(w, p), v) && !v.cb
    requires RunPr(s, w, p, true).1 == pc' && Seen(RunPr(s, w, p, true).0) == v'
    ensures At(o, s', threads, i, pc', v')
  {
    hide Leads;
    s' := Goes(o, s, threads, i, Pr(w, p), v, pc', v');
  }

  /** Then ~RefBase finds strong references, and leaves the RefCounter to them. */
  lemma WreckDeleted(o: State, s: State, threads: seq<Pc>, j: nat, k: WeakCaller, v: View)
    requires At(o, s, threads, j, Del(ByWeak(k), DelFlag), v) && Resting(threads[j := Idle])
    requires v.strong == 1 && v.frees == 0 && Singles(v.wrcs)
    requires v.weak == 1 + Sum(IsLinked, v.wrcs) && v.refc == 1 + WrcShare(k) + Sum(IsLinked, v.wrcs)
    ensures Harmed(o)
  {
    hide Leads, Harmed;
    SumCovers(IsLinked, v.wrcs);
    var s', d := s, ByWeak(k);
    if v.ext {
      s' := Goes(o, s', threads, j, Del(d, DelFlag), v, Del(d, DelWeak), v);
      s' := Goes(o, s', threads, j, Del(d, DelWeak), v, Del(d, DelStrong), v);
    } else {
      s' := Goes(o, s', threads, j, Del(d, DelFlag), v, Del(d, DelStrong), v);
    }
    s' := Goes(o, s', threads, j, Del(d, DelStrong), v, Return(k), v);
    if k.FromWrc? {
      s' := ShareGoes(o, s', threads, j, v, k.w);
    }
    var ts := threads[j := Idle];
    assert ts[0 := Idle] == ts;
    LeftOver(o, s', ts, v.(refc := 1 + Sum(IsLinked, v.wrcs)));
  }

  /** When all wptrs are gone, the RefCounter still has the object's share. */
  lemma LeftOver(o: State, s: State, threads: seq<Pc>, v: View)
    requires At(o, s, threads, 0, Idle, v) && Resting(threads) && v.frees == 0 && Singles(v.wrcs)
    requires v.weak == v.refc == 1 + Sum(IsLinked, v.wrcs)
    ensures Harmed(o)
  {
    SumCovers(IsLinked, v.wrcs);
    var s', v' := WptrsLess(o, s, threads, v, 0, 1, 1);
    SumCovers(IsLinked, v'.wrcs);
    forall w | 0 <= w < |v'.wrcs| ensures v'.wrcs[w] == Closed {
      assert IsLinked(v'.wrcs[w]) <= 0;
    }
    assert s'.threads == threads[0 := Idle] == threads;
    assert Leaks(s');
  }
}
