/**
  * Whole runs of a timer. OnTimer is two sections: it collects the ids of the one-shots that have gone off, and
  * erases them after their callbacks, when any number of other sections may have come between.
  */
module TimerRuns {
  import opened TimerTables
  import opened Timers

  /** One section each: Fire is the first of OnTimer, and Erase the second for the k-th call that waits for it. */
  datatype Command =
    | Register(interval: nat, once: bool, scheduled: bool)
    | Unregister(id: nat)
    | Fire(fd: int)
    | Erase(k: nat)

  /** Ids that OnTimer has collected and not erased yet. */
  datatype Pending = Pending(interval: nat, ids: seq<nat>)

  /** What a section did: issued an id, collected ids, or something that is of no matter here. */
  datatype Outcome = Issued(id: nat, interval: nat, once: bool) | Collected(p: Pending) | Other

  predicate Matches(c: Command, o: Outcome) {
    match c
    case Register(i, once, _) => o.Issued? && o.interval == i && o.once == once
    case Fire(_) => o.Collected?
    case _ => o.Other?
  }

  /** An id that p waits for is by now that of a periodic entry of the interval. */
  predicate GoneToPeriodic(entries: map<nat, Entry>, p: Pending) {
    exists id :: id in p.ids && id in entries && entries[id].interval == p.interval && !entries[id].once
  }

  /** An id was issued to a periodic entry of an interval after it had been collected for the interval. */
  ghost predicate Reissued(log: seq<Outcome>) {
    exists i, j :: 0 <= i < j < |log| && IsReissue(log[i], log[j])
  }

  predicate IsReissue(a: Outcome, b: Outcome) {
    a.Collected? && b.Issued? && !b.once && b.interval == a.p.interval && b.id in a.p.ids
  }

  lemma OnceNoneShares(entries: map<nat, Entry>, p: Pending)
    requires !GoneToPeriodic(entries, p)
    ensures NoneShares(entries, p.interval, Used(entries, p.interval, p.ids))
  {
  }

  /** Every pending erase has been collected; and without a reissue none of its ids is that of a periodic entry. */
  ghost predicate Waiting(entries: map<nat, Entry>, pending: seq<Pending>, log: seq<Outcome>) {
    && (forall k :: 0 <= k < |pending| ==> Collected(pending[k]) in log)
    && (!Reissued(log) ==> forall k :: 0 <= k < |pending| ==> !GoneToPeriodic(entries, pending[k]))
  }

  lemma LogGrows(log: seq<Outcome>, o: Outcome)
    ensures Reissued(log) ==> Reissued(log + [o])
    ensures forall a :: a in log && IsReissue(a, o) ==> Reissued(log + [o])
  {
    var log' := log + [o];
    if Reissued(log) {
      var i, j :| 0 <= i < j < |log| && IsReissue(log[i], log[j]);
      assert IsReissue(log'[i], log'[j]);
    }
    forall a | a in log && IsReissue(a, o) ensures Reissued(log') {
      var i :| 0 <= i < |log| && log[i] == a;
      assert IsReissue(log'[i], log'[|log|]);
    }
  }

  lemma WaitingAfterRegister(entries: map<nat, Entry>, pending: seq<Pending>, log: seq<Outcome>, e: Entry)
    requires Waiting(entries, pending, log) && e.timerId !in entries
    ensures Waiting(entries[e.timerId := e], pending, log + [Issued(e.timerId, e.interval, e.once)])
  {
    var o := Issued(e.timerId, e.interval, e.once);
    LogGrows(log, o);
    hide Reissued;
    if !Reissued(log + [o]) {
      forall k | 0 <= k < |pending| ensures !GoneToPeriodic(entries[e.timerId := e], pending[k]) {
        assert !GoneToPeriodic(entries, pending[k]) && !IsReissue(Collected(pending[k]), o);
      }
    }
  }

  lemma WaitingAfterLess(entries: map<nat, Entry>, pending: seq<Pending>, log: seq<Outcome>, gone: set<nat>, o: Outcome,
                         pending': seq<Pending>)
    requires Waiting(entries, pending, log) && forall k :: 0 <= k < |pending'| ==> pending'[k] in pending
    ensures Waiting(entries - gone, pending', log + [o])
  {
    LogGrows(log, o);
    hide Reissued;
    forall k | 0 <= k < |pending'|
      ensures Collected(pending'[k]) in log && (!Reissued(log + [o]) ==> !GoneToPeriodic(entries - gone, pending'[k]))
    {
      var j :| 0 <= j < |pending| && pending[j] == pending'[k];
    }
  }

  lemma WaitingAfterFire(entries: map<nat, Entry>, pending: seq<Pending>, log: seq<Outcome>, p: Pending)
    requires Waiting(entries, pending, log) && !GoneToPeriodic(entries, p)
    ensures Waiting(entries, pending + [p], log + [Collected(p)])
  {
    LogGrows(log, Collected(p));
    hide Reissued, GoneToPeriodic;
    assert (log + [Collected(p)])[|log|] == Collected(p);
  }

  /** The descriptors of the timers that run; the system hands out another one. */
  function FdsIn(handlers: seq<Handler>): set<int> { set k | 0 <= k < |handlers| :: handlers[k].fd }

  lemma NotLive(handlers: seq<Handler>, live: map<int, Live>, fd: int)
    requires Running(handlers, live) && fd !in FdsIn(handlers)
    ensures fd !in live
  {
  }

  ghost predicate AllMatch(commands: seq<Command>, log: seq<Outcome>) {
    |log| <= |commands| && forall n :: 0 <= n < |log| ==> Matches(commands[n], log[n])
  }

  lemma MatchOn(commands: seq<Command>, log: seq<Outcome>, o: Outcome)
    requires AllMatch(commands, log) && |log| < |commands| && Matches(commands[|log|], o)
    ensures AllMatch(commands, log + [o])
  {
  }

  /** What keeps c from being a section that ends well: a reissued id, or no id at all. */
  ghost predicate Stops(t: Timer, c: Command, pending: seq<Pending>, log: seq<Outcome>)
    reads t
  {
    match c
    case Erase(k) => k < |pending| && GoneToPeriodic(t.timerToEntries, pending[k]) && Reissued(log)
    case Register(_, _, _) => NoIdFree(t)
    case _ => false
  }

  /**
    * Any sections in any order keep the tables in agreement. The run stops before an erase if one of its ids has gone
    * to a periodic entry of the interval meanwhile, and that takes an id that was issued anew; or if no id is free.
    */
  method Run(t: Timer, commands: seq<Command>, newFd: set<int> -> int)
    returns (log: seq<Outcome>, pending: seq<Pending>)
    requires t.Valid() && forall fds: set<int> :: newFd(fds) >= 0 && newFd(fds) !in fds
    modifies t
    ensures t.Valid() && AllMatch(commands, log)
    ensures |log| < |commands| ==> Stops(t, commands[|log|], pending, log)
  {
    log, pending := [], [];
    while |log| < |commands|
      invariant t.Valid() && Waiting(t.timerToEntries, pending, log) && AllMatch(commands, log)
      decreases |commands| - |log|
    {
      hide Waiting, Reissued, Agree, Running, GoneToPeriodic, Stops, AllMatch, Matches;
      var o, stop;
      o, pending, stop := Step(t, commands[|log|], newFd, pending, log);
      if stop {
        return;
      }
      MatchOn(commands, log, o);
      log := log + [o];
    }
  }

  method Step(t: Timer, c: Command, newFd: set<int> -> int, pending: seq<Pending>, ghost log: seq<Outcome>)
    returns (o: Outcome, pending': seq<Pending>, stop: bool)
    requires t.Valid() && Waiting(t.timerToEntries, pending, log)
    requires forall fds: set<int> :: newFd(fds) >= 0 && newFd(fds) !in fds
    modifies t
    ensures t.Valid()
    ensures if stop then pending' == pending && Stops(t, c, pending, log)
            else Matches(c, o) && Waiting(t.timerToEntries, pending', log + [o])
  {
    hide Waiting, Reissued, Agree, Running, GoneToPeriodic;
    o, pending', stop := Other, pending, false;
    match c {
      case Register(interval, once, scheduled) =>
        if NoIdFree(t) {
          stop := true;
        } else {
          o := RegisterOnce(t, interval, once, scheduled, newFd, pending, log);
        }
      case Unregister(id) =>
        WaitingAfterLess(t.timerToEntries, pending, log, {id}, Other, pending);
        t.Unregister(id);
      case Fire(fd) =>
        var p := FireOnce(t, fd);
        WaitingAfterFire(t.timerToEntries, pending, log, p);
        o, pending' := Collected(p), pending + [p];
      case Erase(k) =>
        pending', stop := EraseOnce(t, k, pending, log);
    }
  }

  method EraseOnce(t: Timer, k: nat, pending: seq<Pending>, ghost log: seq<Outcome>)
    returns (pending': seq<Pending>, stop: bool)
    requires t.Valid() && Waiting(t.timerToEntries, pending, log)
    modifies t
    ensures t.Valid()
    ensures if stop then pending' == pending && Stops(t, Erase(k), pending, log)
            else Waiting(t.timerToEntries, pending', log + [Other])
  {
    hide Waiting, Reissued, Agree, Running, GoneToPeriodic;
    if k >= |pending| {
      WaitingAfterLess(t.timerToEntries, pending, log, {}, Other, pending);
      assert t.timerToEntries - {} == t.timerToEntries;
      return pending, false;
    }
    var p := pending[k];
    if GoneToPeriodic(t.timerToEntries, p) {
      StoppedByReissue(t.timerToEntries, pending, log, k);
      return pending, true;
    }
    pending' := pending[..k] + pending[k + 1..];
    WaitingAfterLess(t.timerToEntries, pending, log, Used(t.timerToEntries, p.interval, p.ids), Other, pending');
    OnceNoneShares(t.timerToEntries, p);
    t.EraseUnusedTimerId(p.interval, p.ids);
    stop := false;
  }

  /** All ids are in use: the search of Register would not end. */
  predicate NoIdFree(t: Timer)
    reads t
  {
    |t.timerToEntries| >= UINT32_MAX - 2
  }

  lemma StoppedByReissue(entries: map<nat, Entry>, pending: seq<Pending>, log: seq<Outcome>, k: nat)
    requires Waiting(entries, pending, log) && k < |pending| && GoneToPeriodic(entries, pending[k])
    ensures Reissued(log)
  {
  }

  method RegisterOnce(t: Timer, interval: nat, once: bool, scheduled: bool, newFd: set<int> -> int,
                      ghost pending: seq<Pending>, ghost log: seq<Outcome>)
    returns (o: Outcome)
    requires t.Valid() && !NoIdFree(t) && forall fds: set<int> :: newFd(fds) >= 0 && newFd(fds) !in fds
    requires Waiting(t.timerToEntries, pending, log)
    modifies t
    ensures t.Valid() && o.Issued? && o.interval == interval && o.once == once
    ensures Waiting(t.timerToEntries, pending, log + [o])
  {
    hide Waiting, Agree;
    var fd := newFd(FdsIn(t.handlers));
    NotLive(t.handlers, t.live, fd);
    ghost var entries := t.timerToEntries;
    var id := t.Register(interval, once, scheduled, fd);
    o := Issued(id, interval, once);
    if id == DEAL_FAILED {
      WaitingAfterLess(entries, pending, log, {}, o, pending);
      assert entries - {} == entries;
    } else {
      var e := t.timerToEntries[id];
      WaitingAfterRegister(entries, pending, log, e);
    }
  }

  method FireOnce(t: Timer, fd: int) returns (p: Pending)
    requires t.Valid()
    modifies t
    ensures t.Valid() && t.timerToEntries == old(t.timerToEntries) && !GoneToPeriodic(t.timerToEntries, p)
  {
    var interval, due, ids := t.OnTimer(fd);
    p := Pending(interval, ids);
    hide Agree, Running;
    forall id | id in ids && id in t.timerToEntries && t.timerToEntries[id].interval == interval
      ensures t.timerToEntries[id].once
    {
      var e :| e in due && e.once && e.timerId == id;
    }
  }

  /** The counter comes round: entries come and go until the next id is 1 again. */
  method GoRound(t: Timer)
    requires t.Valid() && t.timerToEntries == map[]
    modifies t
    ensures t.Valid() && t.timerToEntries == map[] && t.timerId == UINT32_MAX
  {
    while t.timerId < UINT32_MAX
      invariant t.Valid() && t.timerToEntries == map[]
      decreases UINT32_MAX - t.timerId
    {
      NothingRuns(t);
      var id := t.Register(20, true, true, 5);
      t.Unregister(id);
    }
  }

  lemma NothingRuns(t: Timer)
    requires t.Valid() && t.timerToEntries == map[]
    ensures t.live == map[]
  {
    assert forall fd :: fd in t.live ==> ListOf(t.intervalToTimers, t.live[fd].interval) != [];
    hide Backed, Recorded, Needed, Running;
    forall i ensures ListOf(t.intervalToTimers, i) == [] {
      NoList(t.timerToEntries, t.intervalToTimers, i);
    }
  }

  lemma NoList(entries: map<nat, Entry>, lists: map<nat, seq<Entry>>, i: nat)
    requires Indexed(entries, lists) && entries == map[]
    ensures ListOf(lists, i) == []
  {
    var l := ListOf(lists, i);
    assert i in lists ==> GoodList(entries, i, lists[i]);
    if l != [] {
      SomeMember(l);
    }
  }

  lemma SomeMember<T(!new)>(s: seq<T>)
    requires s != []
    ensures exists x :: x in s
  {
    assert s[0] in s;
  }

  /** A one-shot of interval 10 goes off, and is unregistered before its id is erased. */
  method CollectAndUnregister(t: Timer) returns (ids: seq<nat>)
    requires t.Valid() && t.timerToEntries == map[] && t.timerId == 1
    modifies t
    ensures t.Valid() && t.timerToEntries == map[] && 1 in ids && 2 !in ids
  {
    NothingRuns(t);
    var id := t.Register(10, true, true, 5);
    OnRecord(t, 5);
    hide Agree, Running;
    var interval, due;
    interval, due, ids := t.OnTimer(5);
    assert interval == 10 && t.timerToEntries[1] in due;
    t.Unregister(id);
    assert t.timerToEntries == map[];
  }

  lemma OnRecord(t: Timer, fd: int)
    requires t.Valid() && fd in t.live
    ensures fd in t.timers && t.timers[fd] == t.live[fd].interval
  {
  }

  /** One more periodic entry of interval 10. */
  method Periodic(t: Timer, newFd: int)
    requires t.Valid() && |t.timerToEntries| < 2 && GetValidId(t.timerId) !in t.timerToEntries
    requires newFd >= 0 && newFd !in t.live
    modifies t
    ensures t.Valid() && t.timerToEntries.Keys == old(t.timerToEntries).Keys + {GetValidId(old(t.timerId))}
    ensures t.timerId == GetValidId(old(t.timerId)) + 1 && t.live.Keys <= old(t.live).Keys + {newFd}
    ensures forall id :: id in t.timerToEntries && id !in old(t.timerToEntries) ==>
      t.timerToEntries[id].interval == 10 && !t.timerToEntries[id].once
    ensures forall id :: id in old(t.timerToEntries) ==>
      id in t.timerToEntries && t.timerToEntries[id] == old(t.timerToEntries)[id]
  {
    hide Agree, Running;
    var id := t.Register(10, false, true, newFd);
  }

  /** Two periodic entries of interval 10 get the ids 1 and 2, and share a timer. */
  method TwoPeriodic(t: Timer)
    requires t.Valid() && t.timerToEntries == map[] && t.timerId == UINT32_MAX
    modifies t
    ensures t.Valid() && t.timerToEntries.Keys == {1, 2}
    ensures forall id :: id in t.timerToEntries ==> t.timerToEntries[id].interval == 10 && !t.timerToEntries[id].once
  {
    NothingRuns(t);
    hide Agree, Running;
    Periodic(t, 5);
    assert t.timerToEntries.Keys == {1};
    assert |t.timerToEntries| == |t.timerToEntries.Keys|;
    Periodic(t, 6);
  }

  /**
    * By the time of the erase the counter has come round, and the id of the one-shot is that of a periodic entry, which
    * shares its timer with another one. The erase stops the timer that the other one still needs.
    */
  method ReissuedIdBreaks() returns (t: Timer)
    ensures fresh(t) && !t.Valid() && 2 in t.timerToEntries
  {
    t := new Timer();
    var ids := CollectAndUnregister(t);
    GoRound(t);
    TwoPeriodic(t);
    Shared(t.timerToEntries, ids);
    hide Agree, Running, NoneShares;
    t.EraseUnusedTimerId(10, ids);
  }

  lemma Shared(entries: map<nat, Entry>, ids: seq<nat>)
    requires entries.Keys == {1, 2} && 1 in ids && 2 !in ids
    requires forall id :: id in entries ==> entries[id].interval == 10 && !entries[id].once
    ensures !NoneShares(entries, 10, Used(entries, 10, ids)) && 2 !in Used(entries, 10, ids)
  {
    assert 1 in Used(entries, 10, ids) && 1 in entries && 2 in entries;
  }
}
