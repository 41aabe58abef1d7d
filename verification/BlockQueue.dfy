/**
  * SafeBlockQueue as a monitor: a step is one stay of a thread inside the mutex, from entering it, or from
  * being let in again after a wait, until it leaves or waits. Waiters can wake up without being notified.
  */
module BlockQueue {
  import opened Basics
  import opened Monitors

  /** What the last call gave back: an element went in, one came out, or the call that may not wait was refused. */
  datatype Answer<T> = NoCall | Done | Got(elem: T) | Refused

  /** A thread outside the queue, waiting in vain so far, or woken and about to enter the mutex again. */
  datatype Thread<T> = Idle(answer: Answer<T>) | PushWaits(x: T) | PushWoken(x: T) | PopWaits | PopWoken

  datatype State<T> = State(
    maxSize: nat, queue: seq<T>, threads: seq<Thread<T>>,
    pushed: seq<T>, popped: seq<T>)  // everything ever pushed and popped; read by no step

  datatype Action<T> = Push(x: T) | Pop | PushNoWait(x: T) | PopNotWait | Resume | WakeUp

  /** Thread i acts; whom is the waiter that its notify_one picks, if there is one to pick. */
  datatype Event<T> = Event(i: nat, a: Action<T>, whom: Option<nat>)

  function At<T>(t: Thread<T>): Stand {
    match t
    case Idle(_) => Elsewhere
    case PushWaits(_) => PutWaits
    case PushWoken(_) => PutWoken
    case PopWaits => GetWaits
    case PopWoken => GetWoken
  }

  function Wake<T>(t: Thread<T>): Thread<T> {
    match t
    case PushWaits(x) => PushWoken(x)
    case PopWaits => PopWoken
    case _ => t
  }

  predicate Full<T>(s: State<T>) { |s.queue| >= s.maxSize }

  /** Inside the mutex: wait if the queue is full and one may wait, otherwise push. */
  function PushStep<T>(s: State<T>, i: nat, x: T, patient: bool, whom: Option<nat>): State<T>
    requires i < |s.threads|
  {
    if Full(s) then s.(threads := s.threads[i := if patient then PushWaits(x) else Idle(Refused)])
    else
      s.(queue := s.queue + [x], threads := Notify(Wake, s.threads[i := Idle(Done)], whom), pushed := s.pushed + [x])
  }

  function PopStep<T>(s: State<T>, i: nat, patient: bool, whom: Option<nat>): State<T>
    requires i < |s.threads|
  {
    if s.queue == [] then s.(threads := s.threads[i := if patient then PopWaits else Idle(Refused)])
    else
      s.(queue := s.queue[1..], threads := Notify(Wake, s.threads[i := Idle(Got(s.queue[0]))], whom),
         popped := s.popped + [s.queue[0]])
  }

  predicate MayAct<T>(s: State<T>, e: Event<T>) {
    && e.i < |s.threads|
    && var t := s.threads[e.i];
    && (match e.a
        case Resume => t.PushWoken? || t.PopWoken?
        case WakeUp => t.PushWaits? || t.PopWaits?
        case _ => t.Idle?)
    && MayNotify(At, s.threads[e.i := Idle(NoCall)], e.a.Pop? || e.a.PopNotWait? || t.PopWoken?, e.whom)
  }

  function After<T>(s: State<T>, e: Event<T>): State<T>
    requires MayAct(s, e)
  {
    var t := s.threads[e.i];
    match e.a
    case Push(x) => PushStep(s, e.i, x, true, e.whom)
    case Pop => PopStep(s, e.i, true, e.whom)
    case PushNoWait(x) => PushStep(s, e.i, x, false, e.whom)
    case PopNotWait => PopStep(s, e.i, false, e.whom)
    case Resume => if t.PushWoken? then PushStep(s, e.i, t.x, true, e.whom) else PopStep(s, e.i, true, e.whom)
    case WakeUp => s.(threads := s.threads[e.i := Wake(t)])
  }

  ghost predicate Reaches<T>(s: State<T>, es: seq<Event<T>>, s': State<T>)
    decreases |es|
  {
    if es == [] then s == s' else MayAct(s, es[0]) && Reaches(After(s, es[0]), es[1..], s')
  }

  ghost predicate Init<T>(s: State<T>) {
    && s.queue == s.pushed == s.popped == []
    && forall k :: 0 <= k < |s.threads| ==> s.threads[k].Idle?
  }

  // ---- the invariant -------------------------------------------------------------------------------

  /** No wake-up is lost: whoever still waits could not go on even after all who have been woken. */
  ghost predicate NoneLost(free: int, items: int, n: Tally) {
    && (n.putWaits > 0 ==> free <= n.putWoken)
    && (n.getWaits > 0 ==> items <= n.getWoken)
  }

  ghost predicate Inv<T>(s: State<T>) {
    && |s.queue| <= s.maxSize
    && s.pushed == s.popped + s.queue
    && NoneLost(s.maxSize - |s.queue|, |s.queue|, Count(At, s.threads))
  }

  lemma PushKeeps<T>(s: State<T>, i: nat, x: T, patient: bool, whom: Option<nat>)
    requires Inv(s) && i < |s.threads| && (s.threads[i].Idle? || s.threads[i].PushWoken?)
    requires MayNotify(At, s.threads[i := Idle(NoCall)], false, whom)
    requires s.threads[i].PushWoken? ==> patient
    ensures Inv(PushStep(s, i, x, patient, whom))
  {
    hide Count, MayNotify, Notify;
    CountBounds(At, s.threads);
    CountUpdate(At, s.threads, i, if patient then PushWaits(x) else Idle(Refused));
    CountUpdate(At, s.threads, i, Idle(Done));
    CountBounds(At, s.threads[i := Idle(Done)]);
    SameWaiters(At, s.threads, i, Idle(NoCall), Idle(Done), false, whom);
    Notified(At, Wake, s.threads[i := Idle(Done)], false, whom);
    assert s.pushed + [x] == s.popped + (s.queue + [x]);
  }

  lemma PopKeeps<T>(s: State<T>, i: nat, patient: bool, whom: Option<nat>)
    requires Inv(s) && i < |s.threads| && (s.threads[i].Idle? || s.threads[i].PopWoken?)
    requires MayNotify(At, s.threads[i := Idle(NoCall)], true, whom)
    requires s.threads[i].PopWoken? ==> patient
    ensures Inv(PopStep(s, i, patient, whom))
  {
    hide Count, MayNotify, Notify;
    CountBounds(At, s.threads);
    var refused := if patient then PopWaits else Idle(Refused);
    CountUpdate(At, s.threads, i, refused);
    CountBounds(At, s.threads[i := refused]);
    if s.queue != [] {
      var back := Idle(Got(s.queue[0]));
      CountUpdate(At, s.threads, i, back);
      CountBounds(At, s.threads[i := back]);
      SameWaiters(At, s.threads, i, Idle(NoCall), back, true, whom);
      Notified(At, Wake, s.threads[i := back], true, whom);
      assert s.queue == [s.queue[0]] + s.queue[1..];
      assert s.popped + s.queue == (s.popped + [s.queue[0]]) + s.queue[1..];
    }
  }

  lemma StepKeeps<T>(s: State<T>, e: Event<T>)
    requires Inv(s) && MayAct(s, e)
    ensures Inv(After(s, e))
  {
    var t := s.threads[e.i];
    match e.a
    case Push(x) => PushKeeps(s, e.i, x, true, e.whom);
    case Pop => PopKeeps(s, e.i, true, e.whom);
    case PushNoWait(x) => PushKeeps(s, e.i, x, false, e.whom);
    case PopNotWait => PopKeeps(s, e.i, false, e.whom);
    case Resume =>
      if t.PushWoken? {
        PushKeeps(s, e.i, t.x, true, e.whom);
      } else {
        PopKeeps(s, e.i, true, e.whom);
      }
    case WakeUp =>
      CountUpdate(At, s.threads, e.i, Wake(t));
      CountBounds(At, s.threads);
  }

  lemma {:induction false} RunsKeep<T>(s: State<T>, es: seq<Event<T>>, s': State<T>)
    requires Inv(s) && Reaches(s, es, s')
    ensures Inv(s')
    decreases |es|
  {
    if es != [] {
      StepKeeps(s, es[0]);
      RunsKeep(After(s, es[0]), es[1..], s');
    }
  }

  lemma InitInv<T>(s: State<T>)
    requires Init(s)
    ensures Inv(s)
  {
    NobodyWaits(At, s.threads, true);
    NobodyWaits(At, s.threads, false);
  }

  ghost predicate Reachable<T(!new)>(s: State<T>) { exists s0: State<T>, es :: Init(s0) && Reaches(s0, es, s) }

  lemma ReachableInv<T(!new)>(s: State<T>)
    requires Reachable(s)
    ensures Inv(s)
  {
    var s0: State<T>, es :| Init(s0) && Reaches(s0, es, s);
    InitInv(s0);
    RunsKeep(s0, es, s);
  }

  // ---- what the queue promises ---------------------------------------------------------------------------

  /** First in, first out, and never more than the capacity. */
  lemma Fifo<T(!new)>(s: State<T>)
    requires Reachable(s)
    ensures s.pushed == s.popped + s.queue && |s.queue| <= s.maxSize
    ensures s.popped <= s.pushed
  {
    ReachableInv(s);
  }

  /** A thread that could go on but still waits is never forgotten: another one has been woken to take its turn. */
  lemma NoLostWakeup<T(!new)>(s: State<T>, i: nat)
    requires Reachable(s) && i < |s.threads|
    ensures s.threads[i].PushWaits? ==> s.maxSize - |s.queue| <= Count(At, s.threads).putWoken
    ensures s.threads[i].PopWaits? ==> |s.queue| <= Count(At, s.threads).getWoken
    ensures s.threads[i].PushWaits? && !Full(s) ==> exists k :: 0 <= k < |s.threads| && s.threads[k].PushWoken?
    ensures s.threads[i].PopWaits? && s.queue != [] ==> exists k :: 0 <= k < |s.threads| && s.threads[k].PopWoken?
  {
    ReachableInv(s);
    CountBounds(At, s.threads);
    SomebodyWoken(At, s.threads);
  }

  /** With room for at least one element, pushers and poppers never all wait for each other. */
  lemma NotAllStuck<T(!new)>(s: State<T>, i: nat, j: nat)
    requires Reachable(s) && s.maxSize > 0 && i < |s.threads| && j < |s.threads|
    requires s.threads[i].PushWaits? && s.threads[j].PopWaits?
    ensures exists k :: 0 <= k < |s.threads| && (s.threads[k].PushWoken? || s.threads[k].PopWoken?)
  {
    NoLostWakeup(s, i);
    NoLostWakeup(s, j);
  }

  // ---- a call does its work, and does it once ------------------------------------------------------------------

  /** What a thread itself has put in and taken out in a run. */
  datatype Moves<T> = Moves(pushed: seq<T>, popped: seq<T>)

  ghost function Moved<T>(s: State<T>, es: seq<Event<T>>, i: nat): Moves<T>
    decreases |es|
  {
    if es == [] || !MayAct(s, es[0]) then Moves([], [])
    else
      var s', later := After(s, es[0]), Moved(After(s, es[0]), es[1..], i);
      if es[0].i != i then later
      else Moves(Appended(s.pushed, s'.pushed) + later.pushed, Appended(s.popped, s'.popped) + later.popped)
  }

  /** Thread i begins no call in this run; it only goes on with the one it is in. */
  ghost predicate BeginsNone<T>(es: seq<Event<T>>, i: nat) {
    forall k :: 0 <= k < |es| && es[k].i == i ==> es[k].a.Resume? || es[k].a.WakeUp?
  }

  lemma BeginsNoneLater<T>(es: seq<Event<T>>, i: nat)
    requires BeginsNone(es, i) && es != []
    ensures BeginsNone(es[1..], i) && (es[0].i == i ==> es[0].a.Resume? || es[0].a.WakeUp?)
  {
    assert forall k :: 0 <= k < |es| - 1 ==> es[1..][k] == es[k + 1];
  }

  /** Outside a call a thread moves nothing and keeps the answer of its last call. */
  lemma {:induction false} IdleMovesNothing<T>(s: State<T>, es: seq<Event<T>>, s': State<T>, i: nat)
    requires Reaches(s, es, s') && BeginsNone(es, i) && i < |s.threads| && s.threads[i].Idle?
    ensures Moved(s, es, i) == Moves([], []) && i < |s'.threads| && s'.threads[i] == s.threads[i]
    decreases |es|
  {
    hide BeginsNone;
    if es != [] {
      BeginsNoneLater(es, i);
      assert After(s, es[0]).threads[i] == s.threads[i];
      IdleMovesNothing(After(s, es[0]), es[1..], s', i);
    }
  }

  /** What is due of a call: the thread is back and has moved it, or is still in the call and has moved nothing. */
  ghost predicate PushedOnce<T>(t: Thread<T>, x: T, moved: Moves<T>) {
    || (t == Idle(Done) && moved == Moves([x], []))
    || ((t == PushWaits(x) || t == PushWoken(x)) && moved == Moves([], []))
  }

  ghost predicate PoppedOnce<T>(t: Thread<T>, moved: Moves<T>) {
    || (t.Idle? && t.answer.Got? && moved == Moves([], [t.answer.elem]))
    || ((t.PopWaits? || t.PopWoken?) && moved == Moves([], []))
  }

  lemma {:induction false} PushGoesOn<T>(s: State<T>, es: seq<Event<T>>, s': State<T>, i: nat, x: T)
    requires Reaches(s, es, s') && BeginsNone(es, i) && i < |s.threads|
    requires s.threads[i] == PushWaits(x) || s.threads[i] == PushWoken(x)
    ensures i < |s'.threads| && PushedOnce(s'.threads[i], x, Moved(s, es, i))
    decreases |es|
  {
    hide BeginsNone;
    if es != [] {
      BeginsNoneLater(es, i);
      var t := After(s, es[0]);
      if t.threads[i].Idle? {
        assert t.pushed == s.pushed + [x] && t.popped == s.popped;
        IdleMovesNothing(t, es[1..], s', i);
      } else {
        PushGoesOn(t, es[1..], s', i, x);
      }
    }
  }

  lemma {:induction false} PopGoesOn<T>(s: State<T>, es: seq<Event<T>>, s': State<T>, i: nat)
    requires Reaches(s, es, s') && BeginsNone(es, i)
    requires i < |s.threads| && (s.threads[i].PopWaits? || s.threads[i].PopWoken?)
    ensures i < |s'.threads| && PoppedOnce(s'.threads[i], Moved(s, es, i))
    decreases |es|
  {
    hide BeginsNone;
    if es != [] {
      BeginsNoneLater(es, i);
      var t := After(s, es[0]);
      if t.threads[i].Idle? {
        assert s.queue != [] && t.popped == s.popped + [s.queue[0]] && t.pushed == s.pushed;
        IdleMovesNothing(t, es[1..], s', i);
      } else {
        PopGoesOn(t, es[1..], s', i);
      }
    }
  }

  lemma BeginsCall<T>(s: State<T>, e: Event<T>, es: seq<Event<T>>)
    requires MayAct(s, e)
    ensures var s', later := After(s, e), Moved(After(s, e), es, e.i);
      Moved(s, [e] + es, e.i)
        == Moves(Appended(s.pushed, s'.pushed) + later.pushed, Appended(s.popped, s'.popped) + later.popped)
  {
    assert ([e] + es)[0] == e && ([e] + es)[1..] == es;
  }

  /**
    * Whatever the others do: a thread that has called Push(x) is back only after exactly one append, of its own x;
    * one that has called Pop is back only after exactly one removal, with that element. The calls that may not wait
    * are back at once, and have done it if and only if there was room, or an element.
    */
  lemma CallsDoTheirWork<T>(s: State<T>, e: Event<T>, es: seq<Event<T>>, s': State<T>)
    requires MayAct(s, e) && s.threads[e.i].Idle? && Reaches(After(s, e), es, s') && BeginsNone(es, e.i)
    ensures e.i < |s'.threads|
    ensures var t, moved := s'.threads[e.i], Moved(s, [e] + es, e.i);
      match e.a
      case Push(x) => PushedOnce(t, x, moved)
      case Pop => PoppedOnce(t, moved)
      case PushNoWait(x) =>
        if |s.queue| < s.maxSize then t == Idle(Done) && moved == Moves([x], [])
        else t == Idle(Refused) && moved == Moves([], [])
      case PopNotWait =>
        if s.queue != [] then t == Idle(Got(s.queue[0])) && moved == Moves([], [s.queue[0]])
        else t == Idle(Refused) && moved == Moves([], [])
      case _ => false
  {
    hide BeginsNone, Reaches;
    var t := After(s, e);
    BeginsCall(s, e, es);
    if t.threads[e.i].Idle? {
      IdleMovesNothing(t, es, s', e.i);
    } else if e.a.Push? {
      PushGoesOn(t, es, s', e.i, e.a.x);
    } else {
      PopGoesOn(t, es, s', e.i);
    }
  }

  /** Every thread has a step of its own: one that waits may wake up, one that is woken may go on. */
  lemma EveryoneMayGoOn<T>(s: State<T>, i: nat, a: Action<T>) returns (whom: Option<nat>)
    requires i < |s.threads|
    requires if a.Resume? then s.threads[i].PushWoken? || s.threads[i].PopWoken?
             else if a.WakeUp? then s.threads[i].PushWaits? || s.threads[i].PopWaits? else s.threads[i].Idle?
    ensures MayAct(s, Event(i, a, whom))
    ensures a.WakeUp? ==> At(After(s, Event(i, a, whom)).threads[i]) == Woken(At(s.threads[i]))
  {
    whom := SomeWaiter(At, s.threads[i := Idle(NoCall)], a.Pop? || a.PopNotWait? || s.threads[i].PopWoken?);
  }
}
