/**
  * Who waits for the lock can get it: from every state some continuation gives it to him. With write-first this
  * needs that no reader asks for a second read lock; two threads are enough to be stuck for good otherwise.
  */
module RwLockProgress {
  import opened Basics
  import opened Sums
  import opened RwLock

  /** In LockRead, or in LockWrite, and not through it yet. */
  predicate Reading(t: Thread) { t.pc.ReadOwner? || t.pc.ReadCount? || t.pc.ReadWaiting? || t.pc.ReadCas? }

  predicate Writing(t: Thread) {
    t.pc.WriteOwner? || t.pc.WriteInc? || t.pc.WriteCas? || t.pc.WriteDec? || t.pc.WriteSetOwner?
  }

  /** The call that t was in has come back with the lock. */
  predicate Granted(t: Thread, now: Thread) {
    now.pc.Idle? && if Reading(t) then now.shared + now.nested == t.shared + t.nested + 1 else now.writing
  }

  ghost predicate Gets(s: State, i: nat)
    requires i < |s.threads|
  {
    exists es, s' :: Reaches(s, es, s', false) && i < |s'.threads| && Granted(s.threads[i], s'.threads[i])
  }

  /** The same call, as far as Granted can tell. */
  predicate SameCall(t: Thread, u: Thread) {
    Reading(t) == Reading(u) && (Reading(t) ==> t.shared + t.nested == u.shared + u.nested)
  }

  lemma GetsBy(s: State, i: nat, k: nat, a: Action)
    requires i < |s.threads| && k < |s.threads| && MayCall(s.threads[k], a)
    requires SameCall(s.threads[i], After(s, k, a).threads[i]) && Gets(After(s, k, a), i)
    ensures Gets(s, i)
  {
    hide After, MayCall;
    var s1, e := After(s, k, a), Event(k, a);
    var es, s' :| Reaches(s1, es, s', false) && i < |s'.threads| && Granted(s1.threads[i], s'.threads[i]);
    assert ([e] + es)[0] == e && ([e] + es)[1..] == es;
    assert Reaches(s, [e] + es, s', false);
  }

  lemma GetsNow(s: State, i: nat)
    requires i < |s.threads| && !s.threads[i].pc.Idle?
    requires Granted(s.threads[i], After(s, i, Run(true)).threads[i])
    ensures Gets(s, i)
  {
    hide After;
    var s1, e := After(s, i, Run(true)), Event(i, Run(true));
    assert [e][1..] == [] && Reaches(s1, [], s1, false) && Reaches(s, [e], s1, false);
  }

  // ---- states in which nobody is stuck -----------------------------------------------------------------------

  /** With write-first, a thread that asks for a shared read has none; without, no reader minds waiting writers. */
  predicate Unnested(writeFirst: bool, t: Thread) {
    if writeFirst then Reading(t) && !t.writing ==> t.shared == 0 else !t.pc.ReadWaiting?
  }

  ghost predicate Good(s: State) {
    Inv(s) && forall k :: 0 <= k < |s.threads| ==> Unnested(s.writeFirst, s.threads[k])
  }

  /** With write-first, no holder of a shared read asks for another. */
  predicate Allowed(writeFirst: bool, t: Thread, a: Action) { writeFirst && a.LockRead? ==> t.shared == 0 }

  lemma GoodStep(s: State, k: nat, a: Action)
    requires Good(s) && k < |s.threads| && MayCall(s.threads[k], a) && Allowed(s.writeFirst, s.threads[k], a)
    ensures Good(After(s, k, a)) && After(s, k, a).writeFirst == s.writeFirst
  {
    StepKeeps(s, k, a);
    var s', t := After(s, k, a), s.threads[k];
    assert ThreadInv(t) && Unnested(s.writeFirst, t);
    forall j | 0 <= j < |s'.threads| ensures Unnested(s'.writeFirst, s'.threads[j]) {
      assert Unnested(s.writeFirst, s.threads[j]);
    }
  }

  // ---- thread i, once nothing stands in its way ---------------------------------------------------------------

  function ReaderSteps(pc: Pc, lockCount: int): nat {
    match pc
    case ReadCas(c) => if c == lockCount then 1 else 4
    case ReadWaiting(c) => if c == lockCount then 2 else 5
    case ReadCount => 3
    case _ => 6
  }

  lemma {:induction false} ReaderGets(s: State, i: nat)
    requires Good(s) && i < |s.threads| && Reading(s.threads[i])
    requires s.threads[i].writing || (s.lockCount != WRITE && (s.writeFirst ==> s.writeWaitCount == 0))
    ensures Gets(s, i)
    decreases ReaderSteps(s.threads[i].pc, s.lockCount)
  {
    var t := s.threads[i];
    assert ThreadInv(t) && OwnerInv(s, i) && Unnested(s.writeFirst, t);
    if Granted(t, After(s, i, Run(true)).threads[i]) {
      GetsNow(s, i);
    } else {
      GoodStep(s, i, Run(true));
      ReaderGets(After(s, i, Run(true)), i);
      GetsBy(s, i, i, Run(true));
    }
  }

  function WriterSteps(pc: Pc): nat {
    if pc.WriteOwner? then 5 else if pc.WriteInc? then 4 else if pc.WriteCas? then 3 else if pc.WriteDec? then 2 else 1
  }

  lemma {:induction false} WriterGets(s: State, i: nat)
    requires Good(s) && i < |s.threads| && Writing(s.threads[i])
    requires s.lockCount == FREE || s.threads[i].pc.WriteDec? || s.threads[i].pc.WriteSetOwner?
    ensures Gets(s, i)
    decreases WriterSteps(s.threads[i].pc)
  {
    var t := s.threads[i];
    assert ThreadInv(t) && OwnerInv(s, i);
    if t.pc.WriteSetOwner? {
      GetsNow(s, i);
    } else {
      GoodStep(s, i, Run(true));
      WriterGets(After(s, i, Run(true)), i);
      GetsBy(s, i, i, Run(true));
    }
  }

  // ---- clearing the way -----------------------------------------------------------------------------------------

  /** A thread that holds the lock or is registered for it. */
  predicate InTheWay(t: Thread) { Writes(t) == 1 || t.shared > 0 || t.pc.WriteCas? }

  function OneInTheWay(t: Thread): int { OneIf(InTheWay(t)) }

  /** What such a thread does to get out of the way. */
  function NextAction(t: Thread): Action {
    if !t.pc.Idle? then Run(true) else if t.writing && t.nested == 0 then UnLockWrite else UnLockRead
  }

  /** Steps until it has given everything back. */
  function StepsLeft(t: Thread, lockCount: int): int {
    if t.writing then
      3 * t.nested + (match t.pc
        case Idle => 6 case UnreadOwner => 5 case ReadOwner => 10
        case UnwriteOwner => 5 case UnwriteCheck => 4 case UnwriteClear => 3 case UnwriteStore => 2 case _ => 0)
    else
      3 * t.shared + (match t.pc
        case WriteCas => 9 case WriteDec => 8 case WriteSetOwner => 7
        case UnreadOwner => -1 case UnreadSub => -2
        case ReadCas(c) => if c == lockCount then 4 else 6
        case ReadCount => 5 case ReadOwner => 6 case _ => 0)
  }

  lemma ClearStep(s: State, j: nat)
    requires Good(s) && j < |s.threads| && InTheWay(s.threads[j])
    requires s.threads[j].pc.WriteCas? ==> s.lockCount == FREE
    ensures var t, a := s.threads[j], NextAction(s.threads[j]);
      && MayCall(t, a) && Allowed(s.writeFirst, t, a)
      && var s' := After(s, j, a);
         && !s'.threads[j].pc.WriteCas?
         && 0 <= StepsLeft(s'.threads[j], s'.lockCount) < StepsLeft(t, s.lockCount)
  {
    assert ThreadInv(s.threads[j]) && OwnerInv(s, j) && Unnested(s.writeFirst, s.threads[j]);
    SumCovers(Reads, s.threads);
    SumCovers(Writes, s.threads);
    hide Sum;
    var t := s.threads[j];
    if !t.pc.Idle? {
      ClearRun(s, j, t);
    }
  }

  /** A step of a thread that holds the lock or is registered for it brings it nearer to giving everything back. */
  lemma ClearRun(s: State, j: nat, t: Thread)
    requires !t.pc.Idle? && InTheWay(t) && ThreadInv(t) && Unnested(s.writeFirst, t)
    requires Owns(t) <==> s.writer == Some(j)
    requires t.pc.WriteCas? ==> s.lockCount == FREE
    requires s.lockCount == WRITE ==> Writes(t) == 1 || t.shared == 0
    requires Writes(t) == 1 ==> s.lockCount == WRITE
    ensures var (s1, t1) := Step(s, j, t, true);
      !t1.pc.WriteCas? && 0 <= StepsLeft(t1, s1.lockCount) < StepsLeft(t, s.lockCount)
  {
  }

  ghost function Others(s: State, j: nat): int
    requires j < |s.threads|
  {
    Sum(OneInTheWay, s.threads) - OneInTheWay(s.threads[j])
  }

  lemma OthersStay(s: State, j: nat, a: Action)
    requires j < |s.threads|
    ensures Others(After(s, j, a), j) == Others(s, j)
  {
    SumUpdate(OneInTheWay, s.threads, j, After(s, j, a).threads[j]);
  }

  /** Thread j gets out of the way, and then it goes on for thread i. */
  lemma {:induction false} ClearOne(s: State, i: nat, j: nat)
    requires Good(s) && i < |s.threads| && j < |s.threads| && i != j && (Reading(s.threads[i]) || Writing(s.threads[i]))
    requires s.threads[j].pc.WriteCas? ==> s.lockCount == FREE
    ensures Gets(s, i)
    decreases Others(s, j), (if InTheWay(s.threads[j]) then StepsLeft(s.threads[j], s.lockCount) else 0) + 1
  {
    SumCovers(OneInTheWay, s.threads);
    if InTheWay(s.threads[j]) {
      var a := NextAction(s.threads[j]);
      ClearStep(s, j);
      GoodStep(s, j, a);
      OthersStay(s, j, a);
      ClearOne(After(s, j, a), i, j);
      GetsBy(s, i, j, a);
    } else {
      EveryoneGets(s, i);
    }
  }

  /** First the writer goes, then, if they matter, the readers, and then the writers that wait. */
  lemma {:induction false} EveryoneGets(s: State, i: nat)
    requires Good(s) && i < |s.threads| && (Reading(s.threads[i]) || Writing(s.threads[i]))
    ensures Gets(s, i)
    decreases Sum(OneInTheWay, s.threads), 0
  {
    var t := s.threads[i];
    assert ThreadInv(t) && OwnerInv(s, i) && Unnested(s.writeFirst, t);
    SumCovers(OneInTheWay, s.threads);
    if t.writing {
      ReaderGets(s, i);
    } else if t.pc.WriteDec? || t.pc.WriteSetOwner? {
      WriterGets(s, i);
    } else if j: nat :| j < |s.threads| && j != i && Writes(s.threads[j]) == 1 {
      NotWaiting(s, j);
      ClearOne(s, i, j);
    } else {
      NoWriter(s);
      if Reading(t) && !s.writeFirst {
        ReaderGets(s, i);
      } else if j: nat :| j < |s.threads| && j != i && s.threads[j].shared > 0 {
        NotWaiting(s, j);
        ClearOne(s, i, j);
      } else {
        NoReader(s);
        if Writing(t) {
          WriterGets(s, i);
        } else if j: nat :| j < |s.threads| && j != i && s.threads[j].pc.WriteCas? {
          ClearOne(s, i, j);
        } else {
          NoneRegistered(s);
          ReaderGets(s, i);
        }
      }
    }
  }

  lemma NotWaiting(s: State, j: nat)
    requires Inv(s) && j < |s.threads| && (Writes(s.threads[j]) == 1 || s.threads[j].shared > 0)
    ensures !s.threads[j].pc.WriteCas?
  {
    assert ThreadInv(s.threads[j]);
  }

  lemma NoWriter(s: State)
    requires Inv(s) && forall k :: 0 <= k < |s.threads| ==> Writes(s.threads[k]) != 1
    ensures s.lockCount == Sum(Reads, s.threads) != WRITE
  {
    SumZero(Writes, s.threads);
    SumCovers(Reads, s.threads);
  }

  lemma NoReader(s: State)
    requires Inv(s) && s.lockCount == Sum(Reads, s.threads)
    requires forall k :: 0 <= k < |s.threads| ==> s.threads[k].shared <= 0
    ensures s.lockCount == FREE
  {
    forall k | 0 <= k < |s.threads| ensures Reads(s.threads[k]) == 0 {
      assert ThreadInv(s.threads[k]);
    }
    SumZero(Reads, s.threads);
  }

  lemma NoneRegistered(s: State)
    requires Inv(s) && forall k :: 0 <= k < |s.threads| ==> !s.threads[k].pc.WriteCas? && Writes(s.threads[k]) != 1
    ensures s.writeWaitCount == 0
  {
    SumZero(Registered, s.threads);
  }

  // ---- what the callers can rely on ---------------------------------------------------------------------------

  /** With write-first, no holder of a shared read ever asked for another one. */
  ghost predicate NoReadInRead(s: State, es: seq<Event>)
    decreases |es|
  {
    es == [] || (es[0].i < |s.threads| && Allowed(s.writeFirst, s.threads[es[0].i], es[0].a)
                 && NoReadInRead(After(s, es[0].i, es[0].a), es[1..]))
  }

  lemma {:induction false} GoodRuns(s: State, es: seq<Event>, s': State)
    requires Good(s) && Reaches(s, es, s', false) && NoReadInRead(s, es)
    ensures Good(s')
    decreases |es|
  {
    hide Good, After;
    if es != [] {
      GoodStep(s, es[0].i, es[0].a);
      GoodRuns(After(s, es[0].i, es[0].a), es[1..], s');
    }
  }

  lemma {:induction false} AlwaysAllowed(s: State, es: seq<Event>, s': State)
    requires !s.writeFirst && Reaches(s, es, s', false)
    ensures NoReadInRead(s, es)
    decreases |es|
  {
    if es != [] {
      AlwaysAllowed(After(s, es[0].i, es[0].a), es[1..], s');
    }
  }

  /** In every state of such a run, each thread in LockRead or LockWrite has a continuation that gives it the lock. */
  lemma WhoWaitsCanGet(s0: State, es: seq<Event>, s: State, i: nat)
    requires Init(s0) && Reaches(s0, es, s, false) && NoReadInRead(s0, es)
    requires i < |s.threads| && (Reading(s.threads[i]) || Writing(s.threads[i]))
    ensures Gets(s, i)
  {
    InitInv(s0);
    GoodRuns(s0, es, s);
    EveryoneGets(s, i);
  }

  // ---- a read in a read ------------------------------------------------------------------------------------------

  /** A reader at the gate that holds the lock already, and a writer that waits for it to let go. */
  ghost predicate Deadlocked(s: State, j: nat, k: nat) {
    && Inv(s) && s.writeFirst && j < |s.threads| && k < |s.threads|
    && s.threads[j].shared > 0 && (s.threads[j].pc.ReadCount? || s.threads[j].pc.ReadWaiting?)
    && s.threads[k].pc.WriteCas?
  }

  lemma DeadlockStays(s: State, j: nat, k: nat, i: nat, a: Action)
    requires Deadlocked(s, j, k) && i < |s.threads| && MayCall(s.threads[i], a)
    ensures Deadlocked(After(s, i, a), j, k)
  {
    StepKeeps(s, i, a);
    SumCovers(Reads, s.threads);
    SumCovers(Registered, s.threads);
    assert ThreadInv(s.threads[j]) && OwnerInv(s, j);
    assert Registered(s.threads[k]) == 1 && Reads(s.threads[j]) > 0;
  }

  lemma {:induction false} DeadlockedForGood(s: State, es: seq<Event>, s': State, j: nat, k: nat)
    requires Deadlocked(s, j, k) && Reaches(s, es, s', false)
    ensures Deadlocked(s', j, k)
    decreases |es|
  {
    hide Deadlocked, After;
    if es != [] {
      DeadlockStays(s, j, k, es[0].i, es[0].a);
      DeadlockedForGood(After(s, es[0].i, es[0].a), es[1..], s', j, k);
    }
  }

  /** Neither the reader nor the writer gets the lock, in any continuation. */
  lemma NeitherGets(s: State, j: nat, k: nat)
    requires Deadlocked(s, j, k)
    ensures !Gets(s, j) && !Gets(s, k)
  {
    forall es, s' | Reaches(s, es, s', false)
      ensures Deadlocked(s', j, k)
    {
      DeadlockedForGood(s, es, s', j, k);
    }
  }

  lemma {:induction false} ReachesOneMore(s0: State, es: seq<Event>, s: State, e: Event)
    requires Reaches(s0, es, s, false) && e.i < |s.threads| && MayCall(s.threads[e.i], e.a)
    ensures Reaches(s0, es + [e], After(s, e.i, e.a), false)
    decreases |es|
  {
    hide After, MayCall;
    if es == [] {
      var t := After(s, e.i, e.a);
      assert Reaches(t, [], t, false) && es + [e] == [e] && [e][1..] == [];
    } else {
      ReachesOneMore(After(s0, es[0].i, es[0].a), es[1..], s, e);
      assert (es + [e])[0] == es[0] && (es + [e])[1..] == es[1..] + [e];
    }
  }

  ghost predicate Comes(s0: State, s: State) {
    exists es :: Reaches(s0, es, s, false)
  }

  lemma Then(s0: State, s: State, i: nat, a: Action, t: State)
    requires Comes(s0, s) && i < |s.threads| && MayCall(s.threads[i], a) && After(s, i, a) == t
    ensures Comes(s0, t)
  {
    hide After, MayCall;
    var es :| Reaches(s0, es, s, false);
    ReachesOneMore(s0, es, s, Event(i, a));
  }

  /** A step of thread i that changes nothing but where it is. */
  lemma Moves(s0: State, s: State, i: nat, pc: Pc) returns (t: State)
    requires Comes(s0, s) && i < |s.threads| && !s.threads[i].pc.Idle?
    requires Step(s, i, s.threads[i], true) == (s, s.threads[i].(pc := pc))
    ensures Comes(s0, t) && t == s.(threads := s.threads[i := s.threads[i].(pc := pc)])
  {
    hide Comes, Step;
    t := s.(threads := s.threads[i := s.threads[i].(pc := pc)]);
    Then(s0, s, i, Run(true), t);
  }

  /** Thread i calls. */
  lemma Calls(s0: State, s: State, i: nat, a: Action, pc: Pc) returns (t: State)
    requires Comes(s0, s) && i < |s.threads| && !a.Run? && MayCall(s.threads[i], a) && Entry(a) == pc
    ensures Comes(s0, t) && t == s.(threads := s.threads[i := s.threads[i].(pc := pc)])
  {
    hide Comes;
    t := s.(threads := s.threads[i := s.threads[i].(pc := pc)]);
    Then(s0, s, i, a, t);
  }

  lemma ReadAlone(s: State) returns (t: State)
    requires Init(s) && s.threads != []
    ensures Comes(s, t) && t.threads == s.threads[0 := Thread(Idle, 1, false, 0)]
    ensures t.writeFirst == s.writeFirst && t.writer == None
  {
    assert Reaches(s, [], s, false);
    hide Comes;
    t := Calls(s, s, 0, LockRead, ReadOwner);
    t := Moves(s, t, 0, ReadCount);
    t := Moves(s, t, 0, if s.writeFirst then ReadWaiting(0) else ReadCas(0));
    if s.writeFirst {
      t := Moves(s, t, 0, ReadCas(0));
    }
    var u := t.(threads := t.threads[0 := Thread(Idle, 1, false, 0)], lockCount := 1, acquired := t.acquired + 1);
    Then(s, t, 0, Run(true), u);
    t := u;
    assert t.threads == s.threads[0 := Thread(Idle, 1, false, 0)];
  }

  lemma WaitBehind(s0: State, s: State) returns (t: State)
    requires Comes(s0, s) && |s.threads| >= 2 && s.threads[1] == Thread(Idle, 0, false, 0) && s.writer == None
    ensures Comes(s0, t) && t.writeFirst == s.writeFirst && t.writer == None
    ensures t.threads == s.threads[1 := Thread(WriteCas, 0, false, 0)]
  {
    hide Comes;
    t := Calls(s0, s, 1, LockWrite, WriteOwner);
    t := Moves(s0, t, 1, WriteInc);
    var u := t.(threads := t.threads[1 := Thread(WriteCas, 0, false, 0)], writeWaitCount := t.writeWaitCount + 1);
    Then(s0, t, 1, Run(true), u);
    t := u;
    assert t.threads == s.threads[1 := Thread(WriteCas, 0, false, 0)];
  }

  /** Thread 0 has a read lock, thread 1 registers for the write lock, and thread 0 asks for the read lock again. */
  lemma NestedReadDeadlocks(s0: State) returns (s: State)
    requires Init(s0) && s0.writeFirst && |s0.threads| >= 2
    ensures Comes(s0, s) && Deadlocked(s, 0, 1)
  {
    hide Comes;
    s := ReadAlone(s0);
    s := WaitBehind(s0, s);
    s := Calls(s0, s, 0, LockRead, ReadOwner);
    s := Moves(s0, s, 0, ReadCount);
    ComesInv(s0, s);
  }

  lemma ComesInv(s0: State, s: State)
    requires Init(s0) && Comes(s0, s)
    ensures Inv(s)
  {
    hide Inv, Init;
    assert Reachable(s);
    ReachableInv(s);
  }

  ghost predicate NobodyStuck(s: State) {
    forall i :: 0 <= i < |s.threads| && (Reading(s.threads[i]) || Writing(s.threads[i])) ==> Gets(s, i)
  }

  lemma ServesAll(s0: State, s: State)
    requires Init(s0) && !s0.writeFirst && Comes(s0, s)
    ensures NobodyStuck(s)
  {
    var es :| Reaches(s0, es, s, false);
    AlwaysAllowed(s0, es, s);
    forall i | 0 <= i < |s.threads| && (Reading(s.threads[i]) || Writing(s.threads[i]))
      ensures Gets(s, i)
    {
      WhoWaitsCanGet(s0, es, s, i);
    }
  }

  /**
    * With two threads or more: whoever waits can get the lock in every state, however calls are nested, if and only
    * if the lock is not write-first.
    */
  lemma ProgressExactly(s0: State)
    requires Init(s0) && |s0.threads| >= 2
    ensures !s0.writeFirst <==> forall s :: Comes(s0, s) ==> NobodyStuck(s)
  {
    if !s0.writeFirst {
      forall s | Comes(s0, s)
        ensures NobodyStuck(s)
      {
        ServesAll(s0, s);
      }
    } else {
      var s := NestedReadDeadlocks(s0);
      NeitherGets(s, 0, 1);
      assert Reading(s.threads[0]) && !NobodyStuck(s);
    }
  }
}
