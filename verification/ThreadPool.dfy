/**
  * A started ThreadPool as a monitor. A step is one stay inside the mutex, from entering it, or from being let in
  * again after a wait, until leaving it or waiting; or a worker's look at running_ between two tasks; or a task.
  */
module ThreadPool {
  import opened Basics
  import opened Monitors

  /** Who calls AddTask: a client of the pool, or a task that a worker runs. */
  datatype Caller<T> = Outside | InTask(task: T)

  datatype Thread<T> =
    | Client
    | Looping | Taking | TakeWaits | TakeWoken | Busy(task: T) | Exited    // a worker
    | AddWaits(f: T, who: Caller<T>) | AddWoken(f: T, who: Caller<T>)        // in AddTask

  datatype State<T> = State(
    maxTaskNum: nat, running: bool, tasks: seq<T>, threads: seq<Thread<T>>,
    added: seq<T>, taken: seq<T>)  // everything ever added and taken; read by no step

  datatype Action<T> = AddTask(f: T) | Resume | WakeUp | Work | Stop

  datatype Event<T> = Event(i: nat, a: Action<T>, whom: Option<nat>)

  function At<T>(t: Thread<T>): Stand {
    match t
    case AddWaits(_, _) => PutWaits
    case AddWoken(_, _) => PutWoken
    case TakeWaits => GetWaits
    case TakeWoken => GetWoken
    case _ => Elsewhere
  }

  function Wake<T>(t: Thread<T>): Thread<T> {
    match t
    case AddWaits(f, who) => AddWoken(f, who)
    case TakeWaits => TakeWoken
    case _ => t
  }

  /** notify_all on hasTaskToDo_. */
  function NotifyWorkers<T>(threads: seq<Thread<T>>): (r: seq<Thread<T>>)
    ensures |r| == |threads|
  {
    if threads == [] then []
    else [if threads[0].TakeWaits? then TakeWoken else threads[0]] + NotifyWorkers(threads[1..])
  }

  predicate Overloaded<T>(s: State<T>) { s.maxTaskNum > 0 && |s.tasks| >= s.maxTaskNum }

  /** Back from AddTask. */
  function Home<T>(who: Caller<T>): Thread<T> { if who.Outside? then Client else Busy(who.task) }

  function CallerOf<T>(t: Thread<T>): Caller<T> { if t.Busy? then InTask(t.task) else Outside }

  /** AddTask inside the mutex. */
  function AddStep<T>(s: State<T>, i: nat, f: T, who: Caller<T>, whom: Option<nat>): State<T>
    requires i < |s.threads|
  {
    if Overloaded(s) then s.(threads := s.threads[i := AddWaits(f, who)])
    else s.(tasks := s.tasks + [f], threads := Notify(Wake, s.threads[i := Home(who)], whom), added := s.added + [f])
  }

  /** ScheduleTask inside the mutex: without a task the worker goes back to its loop. */
  function TakeStep<T>(s: State<T>, i: nat, whom: Option<nat>): State<T>
    requires i < |s.threads|
  {
    if s.tasks == [] then s.(threads := s.threads[i := if s.running then TakeWaits else Looping])
    else
      var threads := s.threads[i := Busy(s.tasks[0])];
      s.(tasks := s.tasks[1..], threads := if s.maxTaskNum > 0 then Notify(Wake, threads, whom) else threads,
         taken := s.taken + [s.tasks[0]])
  }

  predicate Adds<T>(t: Thread<T>, a: Action<T>) { a.AddTask? || t.AddWoken? }

  predicate MayAct<T>(s: State<T>, e: Event<T>) {
    && e.i < |s.threads|
    && var t := s.threads[e.i];
    && (match e.a
        case AddTask(_) => t.Client? || t.Busy?
        case Stop => t.Client?
        case Resume => t.AddWoken? || t.TakeWoken?
        case WakeUp => t.AddWaits? || t.TakeWaits?
        case Work => t.Looping? || t.Taking? || t.Busy?)
    && MayNotify(At, s.threads[e.i := Looping], !Adds(t, e.a), e.whom)
  }

  function After<T>(s: State<T>, e: Event<T>): State<T>
    requires MayAct(s, e)
  {
    var t := s.threads[e.i];
    match e.a
    case AddTask(f) => AddStep(s, e.i, f, CallerOf(t), e.whom)
    case Resume => if t.AddWoken? then AddStep(s, e.i, t.f, t.who, e.whom) else TakeStep(s, e.i, e.whom)
    case WakeUp => s.(threads := s.threads[e.i := Wake(t)])
    case Stop => s.(running := false, threads := NotifyWorkers(s.threads))
    case Work =>
      if t.Taking? then TakeStep(s, e.i, e.whom)
      else s.(threads := s.threads[e.i := if t.Busy? then Looping else if s.running then Taking else Exited])
  }

  ghost predicate Reaches<T>(s: State<T>, es: seq<Event<T>>, s': State<T>)
    decreases |es|
  {
    if es == [] then s == s' else MayAct(s, es[0]) && Reaches(After(s, es[0]), es[1..], s')
  }

  ghost predicate Init<T>(s: State<T>) {
    && s.running && s.tasks == s.added == s.taken == []
    && forall k :: 0 <= k < |s.threads| ==> s.threads[k].Client? || s.threads[k].Looping?
  }

  // ---- the invariant --------------------------------------------------------------------------------

  /** Who waits could not go on even after all who have been woken; a stopped pool has no waiting worker. */
  ghost predicate Inv<T>(s: State<T>) {
    var n := Count(At, s.threads);
    && s.added == s.taken + s.tasks
    && (s.maxTaskNum > 0 ==> |s.tasks| <= s.maxTaskNum)
    && (n.putWaits > 0 ==> s.maxTaskNum > 0 && s.maxTaskNum - |s.tasks| <= n.putWoken)
    && (n.getWaits > 0 ==> s.running && |s.tasks| <= n.getWoken)
  }

  lemma {:induction false} NotifiedWorkers<T>(threads: seq<Thread<T>>)
    ensures forall k :: 0 <= k < |threads| ==>
      NotifyWorkers(threads)[k] == if threads[k].TakeWaits? then TakeWoken else threads[k]
  {
    if threads != [] {
      NotifiedWorkers(threads[1..]);
      assert NotifyWorkers(threads)[1..] == NotifyWorkers(threads[1..]);
    }
  }

  lemma {:induction false} AllNotified<T>(threads: seq<Thread<T>>)
    ensures var n, n' := Count(At, threads), Count(At, NotifyWorkers(threads));
      n'.getWaits == 0 && n'.putWaits == n.putWaits && n'.putWoken == n.putWoken
  {
    if threads == [] {
    } else {
      hide Count;
      var now := NotifyWorkers(threads);
      assert now[1..] == NotifyWorkers(threads[1..]);
      assert At(now[0]) == if threads[0].TakeWaits? then GetWoken else At(threads[0]);
      hide NotifyWorkers;
      AllNotified(threads[1..]);
      CountFirst(At, threads);
      CountFirst(At, now);
    }
  }

  lemma AddKeeps<T>(s: State<T>, i: nat, f: T, who: Caller<T>, whom: Option<nat>)
    requires Inv(s) && i < |s.threads| && (s.threads[i].Client? || s.threads[i].Busy? || s.threads[i].AddWoken?)
    requires MayNotify(At, s.threads[i := Looping], false, whom)
    ensures Inv(AddStep(s, i, f, who, whom))
  {
    hide Count, MayNotify, Notify;
    CountBounds(At, s.threads);
    if Overloaded(s) {
      CountUpdate(At, s.threads, i, AddWaits(f, who));
      CountBounds(At, s.threads[i := AddWaits(f, who)]);
    } else {
      var home: Thread<T> := Home(who);
      SameWaiters(At, s.threads, i, Looping, home, false, whom);
      CountUpdate(At, s.threads, i, home);
      CountBounds(At, s.threads[i := home]);
      Notified(At, Wake, s.threads[i := home], false, whom);
      assert s.added + [f] == s.taken + (s.tasks + [f]);
    }
  }

  lemma TakeKeeps<T>(s: State<T>, i: nat, whom: Option<nat>)
    requires Inv(s) && i < |s.threads| && (s.threads[i].Taking? || s.threads[i].TakeWoken?)
    requires MayNotify(At, s.threads[i := Looping], true, whom)
    ensures Inv(TakeStep(s, i, whom))
  {
    hide Count, MayNotify, Notify;
    CountBounds(At, s.threads);
    if s.tasks == [] {
      var t := if s.running then TakeWaits else Looping;
      CountUpdate(At, s.threads, i, t);
      CountBounds(At, s.threads[i := t]);
    } else {
      var busy := Busy(s.tasks[0]);
      SameWaiters(At, s.threads, i, Looping, busy, true, whom);
      CountUpdate(At, s.threads, i, busy);
      CountBounds(At, s.threads[i := busy]);
      Notified(At, Wake, s.threads[i := busy], true, whom);
      assert s.tasks == [s.tasks[0]] + s.tasks[1..];
      assert s.taken + s.tasks == (s.taken + [s.tasks[0]]) + s.tasks[1..];
    }
  }

  lemma StepKeeps<T>(s: State<T>, e: Event<T>)
    requires Inv(s) && MayAct(s, e)
    ensures Inv(After(s, e))
  {
    var t := s.threads[e.i];
    CountBounds(At, s.threads);
    match e.a
    case AddTask(f) => AddKeeps(s, e.i, f, CallerOf(t), e.whom);
    case Resume =>
      if t.AddWoken? {
        AddKeeps(s, e.i, t.f, t.who, e.whom);
      } else {
        TakeKeeps(s, e.i, e.whom);
      }
    case WakeUp => CountUpdate(At, s.threads, e.i, Wake(t));
    case Stop => AllNotified(s.threads);
    case Work =>
      if t.Taking? {
        TakeKeeps(s, e.i, e.whom);
      } else {
        CountUpdate(At, s.threads, e.i, if t.Busy? then Looping else if s.running then Taking else Exited);
      }
  }

  lemma {:induction false} RunsKeep<T>(s: State<T>, es: seq<Event<T>>, s': State<T>)
    requires Inv(s) && Reaches(s, es, s')
    ensures Inv(s')
    decreases |es|
  {
    if es != [] {
      StepKeeps(s, es[0]);
      RunsKeep(After(s, es[0]), es[1..], s');
    }
  }

  ghost predicate Reachable<T(!new)>(s: State<T>) { exists s0: State<T>, es :: Init(s0) && Reaches(s0, es, s) }

  lemma ReachableInv<T(!new)>(s: State<T>)
    requires Reachable(s)
    ensures Inv(s)
  {
    var s0: State<T>, es :| Init(s0) && Reaches(s0, es, s);
    NobodyWaits(At, s0.threads, true);
    NobodyWaits(At, s0.threads, false);
    RunsKeep(s0, es, s);
  }

  // ---- what the pool promises ----------------------------------------------------------------------------

  /** Tasks are taken in the order in which they were added, each is taken or still queued, and the limit holds. */
  lemma TasksInOrder<T(!new)>(s: State<T>)
    requires Reachable(s)
    ensures s.added == s.taken + s.tasks && (s.maxTaskNum > 0 ==> |s.tasks| <= s.maxTaskNum)
  {
    ReachableInv(s);
  }

  /** A worker that waits while there are tasks, or a caller that waits while there is room, has a woken one ahead. */
  lemma NoLostWakeup<T(!new)>(s: State<T>, i: nat)
    requires Reachable(s) && i < |s.threads|
    ensures s.threads[i].TakeWaits? ==> s.running && |s.tasks| <= Count(At, s.threads).getWoken
    ensures s.threads[i].AddWaits? ==> s.maxTaskNum > 0 && s.maxTaskNum - |s.tasks| <= Count(At, s.threads).putWoken
    ensures s.threads[i].TakeWaits? && s.tasks != [] ==> exists k :: 0 <= k < |s.threads| && s.threads[k].TakeWoken?
    ensures s.threads[i].AddWaits? && !Overloaded(s) ==> exists k :: 0 <= k < |s.threads| && s.threads[k].AddWoken?
  {
    ReachableInv(s);
    CountBounds(At, s.threads);
    SomebodyWoken(At, s.threads);
  }

  /** After Stop no worker waits for a task. */
  lemma StoppedNobodyWaits<T(!new)>(s: State<T>, i: nat)
    requires Reachable(s) && !s.running && i < |s.threads|
    ensures !s.threads[i].TakeWaits?
  {
    NoLostWakeup(s, i);
  }

  // ---- every task taken is run, by one worker, once ------------------------------------------------------------

  /** The task that a worker is at, be it that the task is adding another one just now. */
  function RunsTask<T>(t: Thread<T>): Option<T> {
    match t
    case Busy(x) => Some(x)
    case AddWaits(_, InTask(x)) => Some(x)
    case AddWoken(_, InTask(x)) => Some(x)
    case _ => None
  }

  /** The tasks that the steps of a run begin: somebody had none before such a step and has one after it. */
  ghost function Begun<T>(s: State<T>, es: seq<Event<T>>): seq<T>
    decreases |es|
  {
    if es == [] || !MayAct(s, es[0]) || |After(s, es[0]).threads| <= es[0].i then []
    else
      var was, now := RunsTask(s.threads[es[0].i]), RunsTask(After(s, es[0]).threads[es[0].i]);
      (if was.None? && now.Some? then [now.value] else []) + Begun(After(s, es[0]), es[1..])
  }

  /** The others' steps do nothing to a thread, except that they may notify it. */
  lemma OthersOnlyNotify<T>(s: State<T>, e: Event<T>, i: nat)
    requires MayAct(s, e) && i < |s.threads| && i != e.i
    ensures |After(s, e).threads| == |s.threads|
    ensures After(s, e).threads[i] == s.threads[i] || After(s, e).threads[i] == Wake(s.threads[i])
  {
    hide MayNotify, NotifyWorkers, Overloaded, Home, CallerOf, At;
    if e.a.Stop? {
      NotifiedWorkers(s.threads);
    }
  }

  /** Nobody else's step gives a thread a task or takes its task away, and it drops a task only by finishing it. */
  lemma TaskStaysWithItsWorker<T>(s: State<T>, e: Event<T>, i: nat)
    requires MayAct(s, e) && i < |s.threads|
    ensures |After(s, e).threads| == |s.threads|
    ensures var was, now := RunsTask(s.threads[i]), RunsTask(After(s, e).threads[i]);
      && (i != e.i ==> now == was)
      && (was.Some? ==> now == was || (now.None? && e.a.Work? && s.threads[i] == Busy(was.value)))
      && (was.None? && now.Some? ==> After(s, e).taken == s.taken + [now.value])
      && (i == e.i && !(was.None? && now.Some?) ==> After(s, e).taken == s.taken)
  {
    if i == e.i {
      TaskOfItsOwnStep(s, e);
    } else {
      hide After, MayAct;
      OthersOnlyNotify(s, e, i);
    }
  }

  lemma TaskOfItsOwnStep<T>(s: State<T>, e: Event<T>)
    requires MayAct(s, e)
    ensures |After(s, e).threads| == |s.threads|
    ensures var was, now := RunsTask(s.threads[e.i]), RunsTask(After(s, e).threads[e.i]);
      && (was.Some? ==> now == was || (now.None? && e.a.Work? && s.threads[e.i] == Busy(was.value)))
      && (was.None? && now.Some? ==> After(s, e).taken == s.taken + [now.value])
      && (!(was.None? && now.Some?) ==> After(s, e).taken == s.taken)
  {
    hide MayNotify, NotifyWorkers, Overloaded, At;
    if e.a.Stop? {
      NotifiedWorkers(s.threads);
    }
  }

  /** What is taken from the queue is what workers begin to run, in the same order and nothing twice. */
  lemma {:induction false} EachTakenTaskIsRun<T>(s: State<T>, es: seq<Event<T>>, s': State<T>)
    requires Reaches(s, es, s')
    ensures s'.taken == s.taken + Begun(s, es)
    decreases |es|
  {
    hide After, RunsTask;
    if es != [] {
      TaskStaysWithItsWorker(s, es[0], es[0].i);
      EachTakenTaskIsRun(After(s, es[0]), es[1..], s');
    }
  }

  /** ScheduleTask comes back with the first task, or without one if and only if the pool is stopped and empty. */
  lemma ScheduleTaskComesBack<T>(s: State<T>, e: Event<T>)
    requires MayAct(s, e) && (s.threads[e.i].Taking? || s.threads[e.i].TakeWoken?)
    ensures var t := After(s, e).threads[e.i];
      && (t.Busy? <==> s.tasks != [])
      && (t.Busy? ==> After(s, e).taken == s.taken + [t.task] && [t.task] + After(s, e).tasks == s.tasks)
      && (t.Looping? <==> s.tasks == [] && !s.running)
      && (t.TakeWaits? <==> s.tasks == [] && s.running)
  {
  }

  /** A worker leaves its loop for good only after Stop, and only between two tasks. */
  lemma WorkersStayWhileRunning<T>(s: State<T>, e: Event<T>, i: nat)
    requires MayAct(s, e) && i < |s.threads|
    ensures |After(s, e).threads| == |s.threads|
    ensures var was, now := s.threads[i], After(s, e).threads[i];
      && (now.Exited? && !was.Exited? ==> was.Looping? && !s.running)
      && (was.Looping? && i == e.i ==> (now.Taking? <==> s.running) && (now.Exited? <==> !s.running))
      && (was.Exited? ==> now.Exited?)
  {
    hide MayNotify, NotifyWorkers, Overloaded;
    if i != e.i {
      hide After, MayAct;
      OthersOnlyNotify(s, e, i);
    } else if e.a.Stop? {
      NotifiedWorkers(s.threads);
    }
  }

  // ---- AddTask adds its task, once -----------------------------------------------------------------------------

  /** What thread i itself has added in a run. */
  ghost function AddedBy<T>(s: State<T>, es: seq<Event<T>>, i: nat): seq<T>
    decreases |es|
  {
    if es == [] || !MayAct(s, es[0]) then []
    else
      (if es[0].i == i then Appended(s.added, After(s, es[0]).added) else []) + AddedBy(After(s, es[0]), es[1..], i)
  }

  /** Thread i begins nothing in this run; it only goes on with the call it is in. */
  ghost predicate BeginsNone<T>(es: seq<Event<T>>, i: nat) {
    forall k :: 0 <= k < |es| && es[k].i == i ==> es[k].a.Resume? || es[k].a.WakeUp?
  }

  lemma BeginsNoneLater<T>(es: seq<Event<T>>, i: nat)
    requires BeginsNone(es, i) && es != []
    ensures BeginsNone(es[1..], i) && (es[0].i == i ==> es[0].a.Resume? || es[0].a.WakeUp?)
  {
    assert forall k :: 0 <= k < |es| - 1 ==> es[1..][k] == es[k + 1];
  }

  lemma {:induction false} OutsideAddsNothing<T>(s: State<T>, es: seq<Event<T>>, s': State<T>, i: nat)
    requires Reaches(s, es, s') && BeginsNone(es, i) && i < |s.threads| && (s.threads[i].Client? || s.threads[i].Busy?)
    ensures AddedBy(s, es, i) == [] && i < |s'.threads| && s'.threads[i] == s.threads[i]
    decreases |es|
  {
    hide BeginsNone;
    if es != [] {
      hide After;
      BeginsNoneLater(es, i);
      assert es[0].i != i;
      OthersOnlyNotify(s, es[0], i);
      OutsideAddsNothing(After(s, es[0]), es[1..], s', i);
    }
  }

  /** Back where it called from and f is added; or still in the call, for f, and nothing is added. */
  ghost predicate AddedOnce<T>(t: Thread<T>, caller: Thread<T>, f: T, added: seq<T>) {
    || (t == caller && added == [f])
    || (Adding(t) && t.f == f && RunsTask(t) == RunsTask(caller) && added == [])
  }

  lemma AddingStep<T>(s: State<T>, e: Event<T>, i: nat, caller: Thread<T>)
    requires MayAct(s, e) && i < |s.threads| && (caller.Client? || caller.Busy?)
    requires Adding(s.threads[i]) && RunsTask(s.threads[i]) == RunsTask(caller)
    ensures |After(s, e).threads| == |s.threads|
    ensures var t, s' := s.threads[i], After(s, e);
      || (Adding(s'.threads[i]) && s'.threads[i].f == t.f && RunsTask(s'.threads[i]) == RunsTask(t)
          && (i == e.i ==> s'.added == s.added))
      || (i == e.i && s'.threads[i] == caller && s'.added == s.added + [t.f])
  {
    hide MayNotify;
    if i != e.i {
      hide After, MayAct;
      OthersOnlyNotify(s, e, i);
    }
  }

  lemma {:induction false} AddGoesOn<T>(s: State<T>, es: seq<Event<T>>, s': State<T>, i: nat, caller: Thread<T>)
    requires Reaches(s, es, s') && BeginsNone(es, i) && i < |s.threads| && (caller.Client? || caller.Busy?)
    requires Adding(s.threads[i]) && RunsTask(s.threads[i]) == RunsTask(caller)
    ensures i < |s'.threads| && AddedOnce(s'.threads[i], caller, s.threads[i].f, AddedBy(s, es, i))
    decreases |es|
  {
    hide BeginsNone, After, MayAct, RunsTask;
    if es != [] {
      BeginsNoneLater(es, i);
      AddingStep(s, es[0], i, caller);
      if Adding(After(s, es[0]).threads[i]) {
        AddGoesOn(After(s, es[0]), es[1..], s', i, caller);
      } else {
        OutsideAddsNothing(After(s, es[0]), es[1..], s', i);
      }
    }
  }

  /** Whatever the others do, AddTask(f) is back, where it was called, only after exactly one append, of its own f. */
  lemma AddTaskDoesItsWork<T>(s: State<T>, e: Event<T>, es: seq<Event<T>>, s': State<T>)
    requires MayAct(s, e) && e.a.AddTask? && Reaches(After(s, e), es, s') && BeginsNone(es, e.i)
    ensures e.i < |s'.threads| && AddedOnce(s'.threads[e.i], s.threads[e.i], e.a.f, AddedBy(s, [e] + es, e.i))
  {
    hide BeginsNone, Reaches;
    var t := After(s, e);
    assert ([e] + es)[0] == e && ([e] + es)[1..] == es;
    if Adding(t.threads[e.i]) {
      AddGoesOn(t, es, s', e.i, s.threads[e.i]);
    } else {
      OutsideAddsNothing(t, es, s', e.i);
    }
  }

  /** Every thread has a step of its own, one that waits too, as it may wake up, but not a worker that is gone. */
  lemma EveryoneMayGoOn<T>(s: State<T>, i: nat, a: Action<T>) returns (whom: Option<nat>)
    requires i < |s.threads|
    requires var t := s.threads[i];
      match a
      case AddTask(_) => t.Client? || t.Busy?
      case Stop => t.Client?
      case Resume => t.AddWoken? || t.TakeWoken?
      case WakeUp => t.AddWaits? || t.TakeWaits?
      case Work => t.Looping? || t.Taking? || t.Busy?
    ensures MayAct(s, Event(i, a, whom))
    ensures a.WakeUp? ==> At(After(s, Event(i, a, whom)).threads[i]) == Woken(At(s.threads[i]))
  {
    whom := SomeWaiter(At, s.threads[i := Looping], !Adds(s.threads[i], a));
  }

  // ---- tasks that are never taken -----------------------------------------------------------------------------

  /** Some continuation takes a task. */
  ghost predicate TakesMore<T(!new)>(s: State<T>) { exists es, s' :: Reaches(s, es, s') && s'.taken != s.taken }

  ghost predicate NoTaker<T>(s: State<T>) {
    !s.running && forall k :: 0 <= k < |s.threads| ==> !CanTake(s.threads[k], false)
  }

  lemma NoTakerStep<T>(s: State<T>, e: Event<T>)
    requires NoTaker(s) && MayAct(s, e)
    ensures NoTaker(After(s, e)) && After(s, e).taken == s.taken
  {
    NotifiedWorkers(s.threads);
  }

  lemma {:induction false} NoneTaken<T>(s: State<T>, es: seq<Event<T>>, s': State<T>)
    requires NoTaker(s) && Reaches(s, es, s')
    ensures s'.taken == s.taken
    decreases |es|
  {
    hide NoTaker, MayAct, After;
    if es != [] {
      NoTakerStep(s, es[0]);
      NoneTaken(After(s, es[0]), es[1..], s');
    }
  }

  lemma OneTaken<T(!new)>(s: State<T>, k: nat)
    requires k < |s.threads| && (s.threads[k].Taking? || s.threads[k].TakeWoken?) && s.tasks != []
    ensures TakesMore(s)
  {
    var whom := SomeWaiter(At, s.threads[k := Looping], true);
    var e: Event<T> := Event(k, if s.threads[k].Taking? then Work else Resume, whom);
    var s' := After(s, e);
    assert |s'.taken| == |s.taken| + 1;
    assert [e][1..] == [] && Reaches(s', [], s') && Reaches(s, [e], s');
  }

  /** After Stop the tasks still queued are all dropped if and only if no worker is in ScheduleTask any more. */
  lemma QueueIsDroppedExactly<T(!new)>(s: State<T>)
    requires Reachable(s) && !s.running && s.tasks != []
    ensures !TakesMore(s) <==> forall k :: 0 <= k < |s.threads| ==> !CanTake(s.threads[k], false)
  {
    if k: nat :| k < |s.threads| && CanTake(s.threads[k], false) {
      StoppedNobodyWaits(s, k);
      OneTaken(s, k);
    } else {
      forall es, s' | Reaches(s, es, s') ensures s'.taken == s.taken {
        NoneTaken(s, es, s');
      }
    }
  }

  // ---- callers of AddTask that never come back ---------------------------------------------------------------

  predicate Adding<T>(t: Thread<T>) { t.AddWaits? || t.AddWoken? }

  /** A worker that will still take a task: once the pool is stopped, only one that is in ScheduleTask. */
  predicate CanTake<T>(t: Thread<T>, running: bool) {
    t.Taking? || t.TakeWaits? || t.TakeWoken? || (running && (t.Looping? || t.Busy?))
  }

  /** The queue is full and nobody will take anything from it. */
  ghost predicate Stuck<T>(s: State<T>) {
    Overloaded(s) && forall k :: 0 <= k < |s.threads| ==> !CanTake(s.threads[k], s.running)
  }

  lemma StuckStep<T>(s: State<T>, e: Event<T>, i: nat)
    requires Stuck(s) && MayAct(s, e) && i < |s.threads| && Adding(s.threads[i])
    ensures var s' := After(s, e); Stuck(s') && i < |s'.threads| && Adding(s'.threads[i])
  {
    NotifiedWorkers(s.threads);
  }

  /** Then a caller in AddTask stays there, whatever happens; in particular Stop does not wake it. */
  lemma {:induction false} AddersStayBlocked<T>(s: State<T>, es: seq<Event<T>>, s': State<T>, i: nat)
    requires Stuck(s) && Reaches(s, es, s') && i < |s.threads| && Adding(s.threads[i])
    ensures Stuck(s') && i < |s'.threads| && Adding(s'.threads[i])
    decreases |es|
  {
    hide Stuck, MayAct, After;
    if es != [] {
      StuckStep(s, es[0], i);
      AddersStayBlocked(After(s, es[0]), es[1..], s', i);
    }
  }

  /** In some continuation thread i is no longer in AddTask. */
  ghost predicate ComesBack<T(!new)>(s: State<T>, i: nat) {
    exists es, s' :: Reaches(s, es, s') && i < |s'.threads| && !Adding(s'.threads[i])
  }

  lemma ComesBackBy<T(!new)>(s: State<T>, e: Event<T>, i: nat)
    requires MayAct(s, e) && ComesBack(After(s, e), i)
    ensures ComesBack(s, i)
  {
    hide MayAct, After;
    var es, s' :| Reaches(After(s, e), es, s') && i < |s'.threads| && !Adding(s'.threads[i]);
    assert ([e] + es)[0] == e && ([e] + es)[1..] == es;
    assert Reaches(s, [e] + es, s');
  }

  /** With room in the queue, the caller comes back as soon as it looks. */
  lemma RoomLetsBack<T(!new)>(s: State<T>, i: nat)
    requires i < |s.threads| && Adding(s.threads[i]) && !Overloaded(s)
    ensures ComesBack(s, i)
  {
    if s.threads[i].AddWoken? {
      WokenComesBack(s, i);
    } else {
      var whom := SomeWaiter(At, s.threads[i := Looping], true);
      var e: Event<T> := Event(i, WakeUp, whom);
      WokenComesBack(After(s, e), i);
      ComesBackBy(s, e, i);
    }
  }

  lemma WokenComesBack<T(!new)>(s: State<T>, i: nat)
    requires i < |s.threads| && s.threads[i].AddWoken? && !Overloaded(s)
    ensures ComesBack(s, i)
  {
    var whom := SomeWaiter(At, s.threads[i := Looping], false);
    var e: Event<T> := Event(i, Resume, whom);
    var s' := After(s, e);
    assert !Adding(s'.threads[i]) by { HomeIsNotAdding(s.threads, i, s.threads[i].who, whom); }
    assert Reaches(s', [], s');
    ComesBackBy(s, e, i);
  }

  lemma HomeIsNotAdding<T>(threads: seq<Thread<T>>, i: nat, who: Caller<T>, whom: Option<nat>)
    requires i < |threads|
    ensures !Adding(Notify(Wake, threads[i := Home(who)], whom)[i])
  {
  }

  /** One task taken makes room. */
  lemma TakingLetsBack<T(!new)>(s: State<T>, i: nat, j: nat)
    requires Inv(s) && i < |s.threads| && j < |s.threads| && Adding(s.threads[i])
    requires Overloaded(s) && (s.threads[j].Taking? || s.threads[j].TakeWoken?)
    ensures ComesBack(s, i)
  {
    var whom := SomeWaiter(At, s.threads[j := Looping], true);
    var e: Event<T> := Event(j, if s.threads[j].Taking? then Work else Resume, whom);
    var s' := After(s, e);
    assert !Overloaded(s') && i < |s'.threads| && Adding(s'.threads[i]);
    RoomLetsBack(s', i);
    ComesBackBy(s, e, i);
  }

  lemma WorkerLetsBack<T(!new)>(s: State<T>, i: nat, j: nat)
    requires Inv(s) && i < |s.threads| && j < |s.threads| && Adding(s.threads[i])
    requires Overloaded(s) && CanTake(s.threads[j], s.running)
    ensures ComesBack(s, i)
    decreases var t := s.threads[j]; if t.Busy? then 2 else if t.Looping? || t.TakeWaits? then 1 else 0
  {
    var t := s.threads[j];
    if t.Taking? || t.TakeWoken? {
      TakingLetsBack(s, i, j);
    } else {
      var whom := SomeWaiter(At, s.threads[j := Looping], true);
      var e: Event<T> := Event(j, if t.TakeWaits? then WakeUp else Work, whom);
      StepKeeps(s, e);
      WorkerLetsBack(After(s, e), i, j);
      ComesBackBy(s, e, i);
    }
  }

  /** A caller in AddTask never comes back, in any continuation, if and only if the pool is stuck. */
  lemma BlockedForeverExactly<T(!new)>(s: State<T>, i: nat)
    requires Reachable(s) && i < |s.threads| && Adding(s.threads[i])
    ensures !ComesBack(s, i) <==> Stuck(s)
  {
    ReachableInv(s);
    if Stuck(s) {
      forall es, s' | Reaches(s, es, s') ensures i < |s'.threads| && Adding(s'.threads[i]) {
        AddersStayBlocked(s, es, s', i);
      }
    } else if !Overloaded(s) {
      RoomLetsBack(s, i);
    } else {
      var j: nat :| j < |s.threads| && CanTake(s.threads[j], s.running);
      WorkerLetsBack(s, i, j);
    }
  }

  // ---- what keeps the callers out of it -----------------------------------------------------------------------

  /** Nobody in AddTask, and from now on AddTask is called only when there is room. */
  ghost predicate CalledWithRoom<T>(s: State<T>, es: seq<Event<T>>)
    decreases |es|
  {
    es == [] || (MayAct(s, es[0]) && (es[0].a.AddTask? ==> !Overloaded(s)) && CalledWithRoom(After(s, es[0]), es[1..]))
  }

  ghost predicate NobodyIn<T>(threads: seq<Thread<T>>) { forall k :: 0 <= k < |threads| ==> !Adding(threads[k]) }

  ghost predicate NobodyAdds<T>(s: State<T>) { NobodyIn(s.threads) }

  lemma NotifyAddsNobody<T>(threads: seq<Thread<T>>, i: nat, t: Thread<T>, whom: Option<nat>)
    requires i < |threads| && !Adding(t) && NobodyIn(threads)
    ensures NobodyIn(threads[i := t]) && NobodyIn(Notify(Wake, threads[i := t], whom))
  {
  }

  lemma NobodyAddsStep<T>(s: State<T>, e: Event<T>)
    requires NobodyAdds(s) && MayAct(s, e) && (e.a.AddTask? ==> !Overloaded(s))
    ensures NobodyAdds(After(s, e))
  {
    hide Notify, MayNotify, NotifyWorkers, Adding;
    var t := s.threads[e.i];
    assert !t.AddWaits? && !t.AddWoken? by { AddingSays(t); }
    AddingSays(Home(CallerOf(t)));
    match e.a
    case AddTask(_) => NotifyAddsNobody(s.threads, e.i, Home(CallerOf(t)), e.whom);
    case Stop => StopAddsNobody(s.threads);
    case WakeUp => AddingSays(Wake(t)); NotifyAddsNobody(s.threads, e.i, Wake(t), None);
    case _ =>
      var next: Thread<T> := if t.Busy? then Looping else if t.Looping? then (if s.running then Taking else Exited)
        else if s.tasks == [] then (if s.running then TakeWaits else Looping) else Busy(s.tasks[0]);
      AddingSays(next);
      NotifyAddsNobody(s.threads, e.i, next, e.whom);
  }

  lemma AddingSays<T>(t: Thread<T>)
    ensures Adding(t) <==> t.AddWaits? || t.AddWoken?
  {
  }

  lemma StopAddsNobody<T>(threads: seq<Thread<T>>)
    requires NobodyIn(threads)
    ensures NobodyIn(NotifyWorkers(threads))
  {
    NotifiedWorkers(threads);
  }

  /** If nobody was in AddTask, at Stop say, and it is called only when there is room, nobody is ever blocked in it. */
  lemma {:induction false} NobodyIsBlocked<T>(s: State<T>, es: seq<Event<T>>, s': State<T>)
    requires NobodyAdds(s) && CalledWithRoom(s, es) && Reaches(s, es, s')
    ensures NobodyAdds(s')
    decreases |es|
  {
    hide NobodyAdds, MayAct, After;
    if es != [] {
      NobodyAddsStep(s, es[0]);
      NobodyIsBlocked(After(s, es[0]), es[1..], s');
    }
  }

  /** Without a limit nobody is ever in AddTask outside the mutex. */
  lemma {:induction false} UnlimitedIsNeverFull<T>(s: State<T>, es: seq<Event<T>>, s': State<T>)
    requires NobodyAdds(s) && s.maxTaskNum == 0 && Reaches(s, es, s')
    ensures NobodyAdds(s')
    decreases |es|
  {
    hide NobodyAdds, MayAct;
    if es != [] {
      NobodyAddsStep(s, es[0]);
      UnlimitedIsNeverFull(After(s, es[0]), es[1..], s');
    }
  }

  /** While the pool runs no worker has exited. */
  ghost predicate NoneExited<T>(s: State<T>) {
    s.running ==> forall k :: 0 <= k < |s.threads| ==> !s.threads[k].Exited?
  }

  lemma NoneExitedStep<T>(s: State<T>, e: Event<T>)
    requires NoneExited(s) && MayAct(s, e)
    ensures NoneExited(After(s, e))
  {
  }

  lemma {:induction false} NoneExitedRuns<T>(s: State<T>, es: seq<Event<T>>, s': State<T>)
    requires NoneExited(s) && Reaches(s, es, s')
    ensures NoneExited(s')
    decreases |es|
  {
    hide NoneExited, MayAct, After;
    if es != [] {
      NoneExitedStep(s, es[0]);
      NoneExitedRuns(After(s, es[0]), es[1..], s');
    }
  }

  /** A running pool is stuck if and only if its queue is full and every worker is in AddTask itself. */
  lemma RunningPoolStuckExactly<T(!new)>(s: State<T>)
    requires Reachable(s) && s.running
    ensures Stuck(s) <==>
      (Overloaded(s) && forall k :: 0 <= k < |s.threads| && !s.threads[k].Client? ==> Adding(s.threads[k]))
  {
    var s0: State<T>, es :| Init(s0) && Reaches(s0, es, s);
    NoneExitedRuns(s0, es, s);
  }

  // ---- and it can come to that -------------------------------------------------------------------------------

  lemma {:induction false} ReachesOneMore<T>(s0: State<T>, es: seq<Event<T>>, s: State<T>, e: Event<T>)
    requires Reaches(s0, es, s) && MayAct(s, e)
    ensures Reaches(s0, es + [e], After(s, e))
    decreases |es|
  {
    hide MayAct, After;
    if es == [] {
      assert Reaches(After(s, e), [], After(s, e)) && es + [e] == [e] && [e][1..] == [];
    } else {
      ReachesOneMore(After(s0, es[0]), es[1..], s, e);
      assert (es + [e])[0] == es[0] && (es + [e])[1..] == es[1..] + [e];
    }
  }

  /** The next state of a run, given as t. */
  lemma Then<T(!new)>(s: State<T>, e: Event<T>, t: State<T>)
    requires Reachable(s) && MayAct(s, e) && After(s, e) == t
    ensures Reachable(t)
  {
    hide MayAct, After;
    var s0: State<T>, es :| Init(s0) && Reaches(s0, es, s);
    ReachesOneMore(s0, es, s, e);
  }

  lemma StartReachable<T(!new)>(s: State<T>)
    requires Init(s)
    ensures Reachable(s)
  {
    assert Reaches(s, [], s);
  }

  /** Client i stops the pool while no worker waits for a task. */
  lemma Stops<T(!new)>(s: State<T>, i: nat, whom: Option<nat>) returns (t: State<T>)
    requires Reachable(s) && i < |s.threads| && s.threads[i].Client?
    requires MayNotify(At, s.threads[i := Looping], true, whom)
    requires forall k :: 0 <= k < |s.threads| ==> !s.threads[k].TakeWaits?
    ensures t == s.(running := false) && Reachable(t)
  {
    hide Reachable, MayNotify;
    t := s.(running := false);
    NotifiedWorkers(s.threads);
    assert NotifyWorkers(s.threads) == s.threads;
    Then(s, Event(i, Stop, whom), t);
  }

  /** A task is added, and Stop comes before the worker looks: it is never taken. */
  lemma QueuedTaskIsDropped<T(!new)>(f: T) returns (s: State<T>)
    ensures Reachable(s) && !s.running && s.tasks == [f] && s.taken == [] && !TakesMore(s)
  {
    hide Reachable, TakesMore;
    s := State(0, true, [], [Client, Looping], [], []);
    StartReachable(s);
    s := AddsTo(s, 0, f, State(0, true, [f], [Client, Looping], [f], []));
    s := Stops(s, 0, None);
    QueueIsDroppedExactly(s);
  }

  /** A full queue, a second caller, and Stop before the worker looks. */
  lemma StoppedPoolCanBeStuck<T(!new)>(f: T) returns (s: State<T>)
    ensures Reachable(s) && !s.running && Stuck(s) && |s.threads| > 1 && s.threads[1].AddWaits?
  {
    hide Reachable;
    s := State(1, true, [], [Client, Client, Looping], [], []);
    StartReachable(s);
    s := AddsTo(s, 0, f, State(1, true, [f], [Client, Client, Looping], [f], []));
    s := AddsTo(s, 1, f, State(1, true, [f], [Client, AddWaits(f, Outside), Looping], [f], []));
    s := Stops(s, 0, Some(1));
  }

  /** Nobody waits for a task when thread i adds one. */
  lemma AddsTo<T(!new)>(s: State<T>, i: nat, f: T, t: State<T>) returns (t': State<T>)
    requires Reachable(s) && i < |s.threads| && (s.threads[i].Client? || s.threads[i].Busy?)
    requires MayNotify(At, s.threads[i := Looping], false, None) && t == AddStep(s, i, f, CallerOf(s.threads[i]), None)
    ensures t' == t && Reachable(t')
  {
    hide Reachable, AddStep, MayNotify;
    var e: Event<T> := Event(i, AddTask(f), None);
    Then(s, e, t);
    t' := t;
  }

  /** A full queue, and the only worker's task adds one more: the pool runs and is stuck. */
  lemma RunningPoolCanBeStuck<T(!new)>(f: T) returns (s: State<T>)
    ensures Reachable(s) && s.running && Stuck(s) && |s.threads| > 1 && s.threads[1] == AddWaits(f, InTask(f))
  {
    hide Reachable;
    s := State(1, true, [], [Client, Looping], [], []);
    StartReachable(s);
    s := AddsTo(s, 0, f, State(1, true, [f], [Client, Looping], [f], []));
    s := WorksTo(s, 1, State(1, true, [f], [Client, Taking], [f], []));
    s := WorksTo(s, 1, State(1, true, [], [Client, Busy(f)], [f], [f]));
    s := AddsTo(s, 0, f, State(1, true, [f], [Client, Busy(f)], [f, f], [f]));
    s := AddsTo(s, 1, f, State(1, true, [f], [Client, AddWaits(f, InTask(f))], [f, f], [f]));
  }

  /** Nobody is in AddTask when worker i takes a step. */
  lemma WorksTo<T(!new)>(s: State<T>, i: nat, t: State<T>) returns (t': State<T>)
    requires Reachable(s) && i < |s.threads| && (s.threads[i].Looping? || s.threads[i].Taking?) && s.running
    requires MayNotify(At, s.threads[i := Looping], true, None)
    requires t == if s.threads[i].Taking? then TakeStep(s, i, None) else s.(threads := s.threads[i := Taking])
    ensures t' == t && Reachable(t')
  {
    hide Reachable, TakeStep, MayNotify;
    var e: Event<T> := Event(i, Work, None);
    Then(s, e, t);
    t' := t;
  }
}
