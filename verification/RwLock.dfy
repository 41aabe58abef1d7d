/**
  * RWLock as a step machine: one atomic access of lockCount_, writeWaitCount_ or writeThreadID_
  * a step, spurious compare_exchange_weak failures included.
  */
module RwLock {
  import opened Basics
  import opened Sums

  const WRITE: int := -1  // LOCK_STATUS_WRITE
  const FREE: int := 0    // LOCK_STATUS_FREE

  datatype Pc =
    | Idle
    | ReadOwner | ReadCount | ReadWaiting(count: int) | ReadCas(count: int)  // LockRead
    | UnreadOwner | UnreadSub                                                // UnLockRead
    | WriteOwner | WriteInc | WriteCas | WriteDec | WriteSetOwner            // LockWrite
    | UnwriteOwner | UnwriteCheck | UnwriteClear | UnwriteStore              // UnLockWrite

  /** A thread: its shared reads, whether it holds the write lock, and the reads nested inside that. */
  datatype Thread = Thread(pc: Pc, shared: int, writing: bool, nested: int)

  datatype State = State(
    lockCount: int, writeWaitCount: int, writer: Option<nat>, writeFirst: bool,
    threads: seq<Thread>,
    acquired: int)  // shared read locks ever granted; read by no step

  datatype Action = Run(lucky: bool) | LockRead | UnLockRead | LockWrite | UnLockWrite

  /** The next step of thread i: the new state but for the thread, and the new thread. */
  function Step(s: State, i: nat, t: Thread, lucky: bool): (State, Thread) {
    var mine := s.writer == Some(i);
    match t.pc
    case Idle => (s, t)
    case ReadOwner => (s, if mine then t.(pc := Idle, nested := t.nested + 1) else t.(pc := ReadCount))
    case ReadCount =>
      (s, if s.lockCount == WRITE then t
          else t.(pc := if s.writeFirst then ReadWaiting(s.lockCount) else ReadCas(s.lockCount)))
    case ReadWaiting(c) => (s, t.(pc := if s.writeWaitCount > 0 then ReadCount else ReadCas(c)))
    case ReadCas(c) =>
      if lucky && s.lockCount == c
      then (s.(lockCount := c + 1, acquired := s.acquired + 1), t.(pc := Idle, shared := t.shared + 1))
      else (s, t.(pc := ReadCount))
    case UnreadOwner => (s, if mine then t.(pc := Idle, nested := t.nested - 1) else t.(pc := UnreadSub))
    case UnreadSub => (s.(lockCount := s.lockCount - 1), t.(pc := Idle, shared := t.shared - 1))
    case WriteOwner => (s, t.(pc := if mine then Idle else WriteInc))
    case WriteInc => (s.(writeWaitCount := s.writeWaitCount + 1), t.(pc := WriteCas))
    case WriteCas =>
      if lucky && s.lockCount == FREE then (s.(lockCount := WRITE), t.(pc := WriteDec)) else (s, t)
    case WriteDec => (s.(writeWaitCount := s.writeWaitCount - 1), t.(pc := WriteSetOwner))
    case WriteSetOwner => (s.(writer := Some(i)), t.(pc := Idle, writing := true))
    case UnwriteOwner => (s, t.(pc := if mine then UnwriteCheck else Idle))
    case UnwriteCheck => (s, t.(pc := if s.lockCount == WRITE then UnwriteClear else Idle))
    case UnwriteClear => (s.(writer := None), t.(pc := UnwriteStore))
    case UnwriteStore => (s.(lockCount := FREE), t.(pc := Idle, writing := false))
  }

  /** Calls are nested: a read inside a write is given back before the write, no write is asked for
      by a holder of the lock. */
  predicate MayCall(t: Thread, a: Action) {
    match a
    case Run(_) => !t.pc.Idle?
    case LockRead => t.pc.Idle?
    case UnLockRead => t.pc.Idle? && (if t.writing then t.nested > 0 else t.shared > 0)
    case LockWrite => t.pc.Idle? && !t.writing && t.shared == 0
    case UnLockWrite => t.pc.Idle? && t.writing && t.nested == 0
  }

  function Entry(a: Action): Pc {
    match a
    case LockRead => ReadOwner
    case UnLockRead => UnreadOwner
    case LockWrite => WriteOwner
    case _ => UnwriteOwner
  }

  function After(s: State, i: nat, a: Action): (s': State)
    requires i < |s.threads|
    ensures |s'.threads| == |s.threads|
  {
    var (s1, t1) := if a.Run? then Step(s, i, s.threads[i], a.lucky) else (s, s.threads[i].(pc := Entry(a)));
    s1.(threads := s.threads[i := t1])
  }

  ghost predicate Init(s: State) {
    && s.lockCount == FREE && s.writeWaitCount == 0 && s.writer == None && s.acquired == 0
    && forall i :: 0 <= i < |s.threads| ==> s.threads[i] == Thread(Idle, 0, false, 0)
  }

  datatype Event = Event(i: nat, a: Action)

  /** s' is reached from s by the events es; `registered` asks that a writer stay registered throughout. */
  ghost predicate Reaches(s: State, es: seq<Event>, s': State, registered: bool)
    decreases |es|
  {
    if es == [] then s == s'
    else
      && (registered ==> s.writeWaitCount > 0)
      && es[0].i < |s.threads| && MayCall(s.threads[es[0].i], es[0].a)
      && Reaches(After(s, es[0].i, es[0].a), es[1..], s', registered)
  }

  // ---- the invariant ------------------------------------------------------------------------

  function Reads(t: Thread): int { t.shared }

  /** Has set lockCount_ to WRITE and not back. */
  function Writes(t: Thread): int { OneIf(t.writing || t.pc.WriteDec? || t.pc.WriteSetOwner?) }

  /** A registered writer: between the two updates of writeWaitCount_. */
  function Registered(t: Thread): int { OneIf(t.pc.WriteCas? || t.pc.WriteDec?) }

  /** A reader past the gate: it has found no writer and goes for its compare-and-swap. */
  function PastGate(t: Thread): int { OneIf(t.pc.ReadCas?) }

  /** A thread whose id writeThreadID_ should be. */
  predicate Owns(t: Thread) { t.writing && !t.pc.UnwriteStore? }

  ghost predicate ThreadInv(t: Thread) {
    && t.shared >= 0 && t.nested >= 0
    && (t.writing ==> t.shared == 0) && (!t.writing ==> t.nested == 0)
    && match t.pc
       case Idle => true
       case ReadOwner => true
       case ReadCount => !t.writing
       case ReadWaiting(c) => !t.writing && c >= 0
       case ReadCas(c) => !t.writing && c >= 0
       case UnreadOwner => if t.writing then t.nested > 0 else t.shared > 0
       case UnreadSub => !t.writing && t.shared > 0
       case UnwriteOwner => t.writing && t.nested == 0
       case UnwriteCheck => t.writing && t.nested == 0
       case UnwriteClear => t.writing && t.nested == 0
       case UnwriteStore => t.writing && t.nested == 0
       case _ => !t.writing && t.shared == 0
  }

  /** lockCount_ and writeWaitCount_, given the sums over the threads. */
  ghost predicate Counts(s: State, shared: int, writes: int, registered: int) {
    && 0 <= writes <= 1 && (writes == 1 ==> shared == 0)
    && s.lockCount == (if writes == 1 then WRITE else shared)
    && s.writeWaitCount == registered
  }

  ghost predicate OwnerInv(s: State, i: nat)
    requires i < |s.threads|
  {
    Owns(s.threads[i]) <==> s.writer == Some(i)
  }

  ghost predicate Inv(s: State) {
    && Counts(s, Sum(Reads, s.threads), Sum(Writes, s.threads), Sum(Registered, s.threads))
    && (forall i :: 0 <= i < |s.threads| ==> ThreadInv(s.threads[i]) && OwnerInv(s, i))
    && (s.writer.Some? ==> s.writer.value < |s.threads|)
  }

  lemma CountsStep(s: State, i: nat, t: Thread, lucky: bool, shared: int, writes: int, registered: int)
    requires Counts(s, shared, writes, registered) && ThreadInv(t) && (Owns(t) <==> s.writer == Some(i))
    requires shared >= t.shared && writes >= Writes(t) && registered >= Registered(t)
    ensures var (s1, t1) := Step(s, i, t, lucky);
      && Counts(s1, shared - t.shared + t1.shared, writes - Writes(t) + Writes(t1),
                registered - Registered(t) + Registered(t1))
      && ThreadInv(t1) && (Owns(t1) <==> s1.writer == Some(i))
      && (s1.writer == s.writer || s1.writer == Some(i) || (s.writer == Some(i) && s1.writer == None))
      && (s1.writer != s.writer ==> Writes(t) == 1)
  {
  }

  lemma StepKeeps(s: State, i: nat, a: Action)
    requires Inv(s) && i < |s.threads| && MayCall(s.threads[i], a)
    ensures Inv(After(s, i, a))
  {
    hide Step, Writes, Registered;
    var s', t := After(s, i, a), s.threads[i];
    var t1 := s'.threads[i];
    assert ThreadInv(t) && OwnerInv(s, i);
    SumUpdate(Reads, s.threads, i, t1);
    SumUpdate(Writes, s.threads, i, t1);
    SumUpdate(Registered, s.threads, i, t1);
    SumsCover(s, i);
    if a.Run? {
      CountsStep(s, i, t, a.lucky, Sum(Reads, s.threads), Sum(Writes, s.threads), Sum(Registered, s.threads));
    } else {
      CallCounts(s, t, Entry(a));
    }
    forall k | 0 <= k < |s'.threads| ensures ThreadInv(s'.threads[k]) && OwnerInv(s', k) {
      assert ThreadInv(s.threads[k]) && OwnerInv(s, k);
      if k != i && Owns(s.threads[k]) && a.Run? {
        OneWriter(s, k, i);
        OwnerWrites(s.threads[k]);
      }
    }
  }

  lemma SumsCover(s: State, i: nat)
    requires i < |s.threads| && forall k :: 0 <= k < |s.threads| ==> ThreadInv(s.threads[k])
    ensures Sum(Reads, s.threads) >= s.threads[i].shared && Sum(Writes, s.threads) >= Writes(s.threads[i])
    ensures Sum(Registered, s.threads) >= Registered(s.threads[i])
  {
    SumCovers(Reads, s.threads);
    SumCovers(Writes, s.threads);
    SumCovers(Registered, s.threads);
  }

  /** The beginning of a call counts nothing yet. */
  lemma CallCounts(s: State, t: Thread, pc: Pc)
    requires t.pc.Idle? && (pc.ReadOwner? || pc.UnreadOwner? || pc.WriteOwner? || pc.UnwriteOwner?)
    ensures var t1 := t.(pc := pc); Reads(t1) == Reads(t) && Writes(t1) == Writes(t) && Registered(t1) == Registered(t)
  {
  }

  lemma OwnerWrites(t: Thread)
    ensures Reads(t) == t.shared && (Owns(t) ==> Writes(t) == 1)
  {
  }

  /** Two threads that both count in `Writes` are the same. */
  lemma OneWriter(s: State, k: nat, i: nat)
    requires Inv(s) && k < |s.threads| && i < |s.threads| && k != i
    ensures Writes(s.threads[k]) + Writes(s.threads[i]) <= 1
  {
    var t := s.threads[i].(pc := Idle, writing := false);
    SumUpdate(Writes, s.threads, i, t);
    SumCovers(Writes, s.threads[i := t]);
    assert s.threads[i := t][k] == s.threads[k];
  }

  lemma InitInv(s: State)
    requires Init(s)
    ensures Inv(s)
  {
    SumZero(Reads, s.threads);
    SumZero(Writes, s.threads);
    SumZero(Registered, s.threads);
  }

  lemma {:induction false} RunsKeep(s: State, es: seq<Event>, s': State, registered: bool)
    requires Inv(s) && Reaches(s, es, s', registered)
    ensures Inv(s')
    decreases |es|
  {
    if es != [] {
      StepKeeps(s, es[0].i, es[0].a);
      RunsKeep(After(s, es[0].i, es[0].a), es[1..], s', registered);
    }
  }

  ghost predicate Reachable(s: State) {
    exists s0, es :: Init(s0) && Reaches(s0, es, s, false)
  }

  lemma ReachableInv(s: State)
    requires Reachable(s)
    ensures Inv(s)
  {
    var s0, es :| Init(s0) && Reaches(s0, es, s, false);
    InitInv(s0);
    RunsKeep(s0, es, s, false);
  }

  // ---- what it guarantees -----------------------------------------------------------------------

  /** lockCount_ is WRITE exactly while one thread has the write lock (then nobody holds a shared
      read), and otherwise the number of shared reads; writeWaitCount_ counts the registered writers. */
  lemma CountsAreExact(s: State)
    requires Reachable(s)
    ensures s.lockCount == WRITE <==> Sum(Writes, s.threads) == 1
    ensures s.lockCount != WRITE ==> s.lockCount == Sum(Reads, s.threads) && Sum(Writes, s.threads) == 0
    ensures s.lockCount == WRITE ==> Sum(Reads, s.threads) == 0
    ensures s.writeWaitCount == Sum(Registered, s.threads)
  {
    ReachableInv(s);
    SumCovers(Reads, s.threads);
  }

  /** A thread that holds the write lock holds it alone, and writeThreadID_ is its id; a reader
      never shares the lock with a writer. */
  lemma MutualExclusion(s: State, i: nat, k: nat)
    requires Reachable(s) && i < |s.threads| && k < |s.threads| && i != k
    ensures s.threads[i].writing ==> !s.threads[k].writing && s.threads[k].shared == 0
    ensures s.threads[i].writing && s.threads[i].pc.Idle? ==> s.writer == Some(i)
    ensures s.writer == Some(i) ==> s.threads[i].writing
  {
    ReachableInv(s);
    OneWriter(s, k, i);
    SumCovers(Reads, s.threads);
    SumCovers(Writes, s.threads);
    assert ThreadInv(s.threads[k]) && OwnerInv(s, i);
  }

  /** In write-first mode no reader passes the gate while a writer is registered. */
  lemma GateStays(s: State, i: nat, a: Action)
    requires s.writeFirst && s.writeWaitCount > 0 && i < |s.threads| && MayCall(s.threads[i], a)
    ensures var s' := After(s, i, a);
      && s'.writeFirst
      && s'.acquired - s.acquired <= Sum(PastGate, s.threads) - Sum(PastGate, s'.threads)
      && Sum(PastGate, s'.threads) <= Sum(PastGate, s.threads)
  {
    SumUpdate(PastGate, s.threads, i, After(s, i, a).threads[i]);
  }

  /** Write-first means: however long a writer stays registered, the shared read locks granted
      meanwhile are at most the readers that were past the gate when it began. */
  lemma {:induction false} WriterOvertakenBoundedly(s: State, es: seq<Event>, s': State)
    requires s.writeFirst && Reaches(s, es, s', true)
    ensures s'.acquired - s.acquired <= Sum(PastGate, s.threads) - Sum(PastGate, s'.threads)
    ensures s'.acquired - s.acquired <= Sum(PastGate, s.threads)
    decreases |es|
  {
    SumCovers(PastGate, s'.threads);
    if es != [] {
      GateStays(s, es[0].i, es[0].a);
      WriterOvertakenBoundedly(After(s, es[0].i, es[0].a), es[1..], s');
    }
  }

  // ---- a call does its work --------------------------------------------------------------------------

  /** What a call is to leave in the hands of its thread. */
  function Granted(t: Thread, a: Action): Thread {
    match a
    case LockRead => if t.writing then t.(nested := t.nested + 1) else t.(shared := t.shared + 1)
    case UnLockRead => if t.writing then t.(nested := t.nested - 1) else t.(shared := t.shared - 1)
    case LockWrite => t.(writing := true)
    case UnLockWrite => t.(writing := false)
    case Run(_) => t
  }

  /** The call that a thread is in. */
  function CallAt(pc: Pc): Action {
    match pc
    case Idle => Run(true)
    case ReadOwner | ReadCount | ReadWaiting(_) | ReadCas(_) => LockRead
    case UnreadOwner | UnreadSub => UnLockRead
    case WriteOwner | WriteInc | WriteCas | WriteDec | WriteSetOwner => LockWrite
    case UnwriteOwner | UnwriteCheck | UnwriteClear | UnwriteStore => UnLockWrite
  }

  /** A step goes on with the call, and the thread holds what it held; or the call is over and has given its due. */
  ghost predicate GoesOn(t: Thread, t1: Thread) {
    if t1.pc.Idle? then t1 == Granted(t, CallAt(t.pc)).(pc := Idle)
    else CallAt(t1.pc) == CallAt(t.pc) && t1 == t.(pc := t1.pc)
  }

  lemma StepGoesOn(s: State, i: nat, lucky: bool)
    requires Inv(s) && i < |s.threads| && !s.threads[i].pc.Idle?
    ensures GoesOn(s.threads[i], After(s, i, Run(lucky)).threads[i])
  {
    SumsCover(s, i);
    SumCovers(Reads, s.threads);
    assert ThreadInv(s.threads[i]) && OwnerInv(s, i);
  }

  /** Thread i begins no call in this run; it only goes on with the one it is in. */
  ghost predicate BeginsNone(es: seq<Event>, i: nat) { forall k :: 0 <= k < |es| && es[k].i == i ==> es[k].a.Run? }

  lemma BeginsNoneLater(es: seq<Event>, i: nat)
    requires BeginsNone(es, i) && es != []
    ensures BeginsNone(es[1..], i) && (es[0].i == i ==> es[0].a.Run?)
  {
    assert forall k :: 0 <= k < |es| - 1 ==> es[1..][k] == es[k + 1];
  }

  lemma {:induction false} CallGoesOn(s: State, es: seq<Event>, s': State, i: nat)
    requires Inv(s) && Reaches(s, es, s', false) && BeginsNone(es, i) && i < |s.threads|
    ensures i < |s'.threads|
    ensures s.threads[i].pc.Idle? ==> s'.threads[i] == s.threads[i]
    ensures !s.threads[i].pc.Idle? ==> GoesOn(s.threads[i], s'.threads[i])
    decreases |es|
  {
    hide Inv, BeginsNone, CallAt, Granted, Step;
    if es != [] {
      var e, s1 := es[0], After(s, es[0].i, es[0].a);
      BeginsNoneLater(es, i);
      StepKeeps(s, e.i, e.a);
      CallGoesOn(s1, es[1..], s', i);
      if e.i == i {
        StepGoesOn(s, i, e.a.lucky);
        GoesOnTwice(s.threads[i], s1.threads[i], s'.threads[i]);
      } else {
        assert s1.threads[i] == s.threads[i];
      }
    }
  }

  lemma GoesOnTwice(t: Thread, t1: Thread, t2: Thread)
    requires !t.pc.Idle? && GoesOn(t, t1) && (if t1.pc.Idle? then t2 == t1 else GoesOn(t1, t2))
    ensures GoesOn(t, t2)
  {
  }

  /**
    * Whatever the others do, LockRead is back only with one shared read more, or one nested read for the writer;
    * LockWrite only with the write lock; and an unlock only after giving back just that. Until then the thread has
    * what it had.
    */
  lemma CallsDoTheirWork(s: State, i: nat, a: Action, es: seq<Event>, s': State)
    requires Reachable(s) && i < |s.threads| && MayCall(s.threads[i], a) && !a.Run?
    requires Reaches(After(s, i, a), es, s', false) && BeginsNone(es, i)
    ensures i < |s'.threads|
    ensures var t, t' := s.threads[i], s'.threads[i];
      if !t'.pc.Idle? then t' == t.(pc := t'.pc)
      else
        match a
        case LockRead => t' == if t.writing then t.(nested := t.nested + 1) else t.(shared := t.shared + 1)
        case UnLockRead => t' == if t.writing then t.(nested := t.nested - 1) else t.(shared := t.shared - 1)
        case LockWrite => t' == t.(writing := true)
        case _ => t' == t.(writing := false)
  {
    hide Inv, Reachable, BeginsNone, Step;
    ReachableInv(s);
    StepKeeps(s, i, a);
    CallGoesOn(After(s, i, a), es, s', i);
  }

  /** Thread i runs n steps. */
  ghost function Runs(s: State, i: nat, n: nat): (s': State)
    requires i < |s.threads|
    ensures |s'.threads| == |s.threads|
    decreases n
  {
    if n == 0 then s else Runs(After(s, i, Run(true)), i, n - 1)
  }

  /** LockWrite by the holder changes nothing. */
  lemma NestedWriteNoted(s: State, i: nat)
    requires i < |s.threads| && s.threads[i].pc.Idle? && s.writer == Some(i)
    ensures Runs(After(s, i, LockWrite), i, 1) == s
  {
    var c := After(s, i, LockWrite);
    assert Runs(c, i, 1) == Runs(After(c, i, Run(true)), i, 0);
    assert After(c, i, Run(true)).threads == s.threads;
  }

  lemma UnlockFrees(s: State, i: nat)
    requires i < |s.threads| && s.threads[i].pc.Idle? && s.writer == Some(i) && s.lockCount == WRITE
    ensures Runs(After(s, i, UnLockWrite), i, 4).lockCount == FREE
  {
    hide Runs;
    var u0 := After(s, i, UnLockWrite);
    var u1 := After(u0, i, Run(true));
    var u2 := After(u1, i, Run(true));
    var u3 := After(u2, i, Run(true));
    RunsOn(u0, i, 3);
    RunsOn(u1, i, 2);
    RunsOn(u2, i, 1);
    RunsOn(u3, i, 0);
    assert u1.threads[i].pc == UnwriteCheck && u2.threads[i].pc == UnwriteClear && u3.threads[i].pc == UnwriteStore;
  }

  lemma RunsOn(s: State, i: nat, n: nat)
    requires i < |s.threads|
    ensures Runs(s, i, n + 1) == Runs(After(s, i, Run(true)), i, n) && Runs(s, i, 0) == s
    ensures n == 0 ==> Runs(s, i, 1) == After(s, i, Run(true))
  {
  }

  /** Why a write must not nest in a write: LockWrite by the holder changes nothing, so the first of
      its two UnLockWrite calls already frees the lock. */
  lemma NestedWriteReleasesEarly(s: State, i: nat)
    requires Reachable(s) && i < |s.threads| && s.threads[i].pc.Idle? && s.threads[i].writing
    ensures var again := Runs(After(s, i, LockWrite), i, 1);
      again == s && Runs(After(again, i, UnLockWrite), i, 4).lockCount == FREE
  {
    hide Reachable, Runs, After;
    ReachableInv(s);
    assert OwnerInv(s, i);
    SumCovers(Writes, s.threads);
    NestedWriteNoted(s, i);
    UnlockFrees(s, i);
  }
}
