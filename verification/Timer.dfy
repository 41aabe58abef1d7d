/** The timer: each method is one section under its mutex, or one call of the reactor from such a section. */
module Timers {
  import opened Sequences
  import opened TimerTables

  datatype Handler = Handler(fd: int, interval: nat, once: bool)

  /** The reactor's handlers, one for each running timer. */
  ghost predicate Running(handlers: seq<Handler>, live: map<int, Live>) {
    && (forall k :: 0 <= k < |handlers| ==> Runs(live, handlers[k]))
    && (forall fd :: fd in live ==> exists k :: 0 <= k < |handlers| && handlers[k].fd == fd)
    && (forall j, k :: 0 <= j < k < |handlers| ==> handlers[j].fd != handlers[k].fd)
  }

  ghost predicate Runs(live: map<int, Live>, h: Handler) {
    h.fd >= 0 && h.fd in live && live[h.fd] == Live(h.interval, h.once)
  }

  lemma RunningAdd(handlers: seq<Handler>, live: map<int, Live>, h: Handler)
    requires Running(handlers, live) && h.fd >= 0 && h.fd !in live
    ensures Running(handlers + [h], live[h.fd := Live(h.interval, h.once)])
  {
    var handlers', live' := handlers + [h], live[h.fd := Live(h.interval, h.once)];
    forall fd | fd in live'
      ensures exists k :: 0 <= k < |handlers'| && handlers'[k].fd == fd
    {
      if fd == h.fd {
        assert handlers'[|handlers|].fd == fd;
      } else {
        var k :| 0 <= k < |handlers| && handlers[k].fd == fd;
        assert handlers'[k].fd == fd;
      }
    }
    assert forall k :: 0 <= k < |handlers| ==> Runs(live, handlers[k]);
  }

  lemma StillRuns(live: map<int, Live>, h: Handler, fd: int)
    requires Runs(live, h) && h.fd != fd
    ensures Runs(live - {fd}, h)
  {
  }

  lemma RunningLess(handlers: seq<Handler>, live: map<int, Live>, k: nat)
    requires Running(handlers, live) && k < |handlers|
    ensures Running(handlers[..k] + handlers[k + 1..], live - {handlers[k].fd})
  {
    hide Runs;
    var handlers', live' := handlers[..k] + handlers[k + 1..], live - {handlers[k].fd};
    assert forall j :: 0 <= j < |handlers'| ==> handlers'[j] == handlers[if j < k then j else j + 1];
    forall fd | fd in live'
      ensures exists j :: 0 <= j < |handlers'| && handlers'[j].fd == fd
    {
      var j :| 0 <= j < |handlers| && handlers[j].fd == fd;
      assert handlers'[if j < k then j else j - 1].fd == fd;
    }
    forall j | 0 <= j < |handlers'|
      ensures Runs(live', handlers'[j])
    {
      var h := handlers[if j < k then j else j + 1];
      assert Runs(live, h) && h.fd != handlers[k].fd;
      StillRuns(live, h, handlers[k].fd);
    }
  }

  class Timer {
    /** The next candidate id. The counter is one for all timers: here no other timer's Register moves it meanwhile. */
    var timerId: nat
    var intervalToTimers: map<nat, seq<Entry>>
    var timerToEntries: map<nat, Entry>
    var timers: map<int, nat>
    /** The reactor's list of timer handlers. */
    var handlers: seq<Handler>
    ghost var live: map<int, Live>

    ghost predicate Valid()
      reads this
    {
      && Agree(timerToEntries, intervalToTimers, timers, live)
      && Running(handlers, live)
      && 1 <= timerId <= UINT32_MAX
    }

    constructor ()
      ensures Valid() && timerToEntries == map[] && live == map[] && timerId == 1
    {
      timerId, intervalToTimers, timerToEntries, timers, handlers, live := 1, map[], map[], map[], [], map[];
    }

    // ---- the reactor ------------------------------------------------------------------------------------

    method CancelTimer(fd: int)
      requires Running(handlers, live)
      modifies this`handlers, this`live
      ensures Running(handlers, live) && live == old(live) - {fd}
    {
      var k := 0;
      while k < |handlers|
        invariant 0 <= k <= |handlers| && forall j :: 0 <= j < k ==> handlers[j].fd != fd
      {
        if handlers[k].fd == fd {
          RunningLess(handlers, live, k);
          handlers, live := handlers[..k] + handlers[k + 1..], live - {fd};
          return;
        }
        k := k + 1;
      }
      assert fd !in live;
    }

    /** fd is what the system hands out for the new timer: a descriptor that is not open. */
    method ScheduleTimer(interval: nat, once: bool, fd: int)
      requires Running(handlers, live) && fd >= 0 && fd !in live
      modifies this`handlers, this`live
      ensures Running(handlers, live) && live == old(live)[fd := Live(interval, once)]
    {
      RunningAdd(handlers, live, Handler(fd, interval, once));
      handlers, live := handlers + [Handler(fd, interval, once)], live[fd := Live(interval, once)];
    }

    // ---- the timer --------------------------------------------------------------------------------------

    /** Cancel whatever is on record for the interval; the records stay. */
    method DoUnregister(interval: nat)
      requires Running(handlers, live)
      modifies this`handlers, this`live
      ensures Running(handlers, live) && live == old(live) - OfInterval(timers, interval)
    {
      hide Running, OfInterval;
      ghost var done: set<int> := {};
      var left := timers.Keys;
      PassedNone(timers, interval);
      assert live - done == live;
      while true
        invariant Running(handlers, live) && live == old(live) - done
        invariant Passed(timers, interval, left, done)
        decreases |left|
      {
        if fd: int :| fd in left {
          PassedStep(timers, interval, left, done, fd);
          if timers[fd] == interval {
            CancelTimer(fd);
            done := done + {fd};
          }
          left := left - {fd};
        } else {
          break;
        }
      }
      assert done == OfInterval(timers, interval) by { PassedAll(timers, interval, left, done); }
    }

    /** The descriptor that the periodic entries of the interval share. */
    method GetTimerFd(interval: nat) returns (fd: int)
      requires Valid()
      ensures fd == INVALID_TIMER_FD ==>
        forall id :: id in timerToEntries && timerToEntries[id].interval == interval ==> timerToEntries[id].once
      ensures fd != INVALID_TIMER_FD ==>
        exists id :: id in timerToEntries && timerToEntries[id] == Entry(id, interval, false, fd)
    {
      if interval !in intervalToTimers {
        assert forall id :: id in timerToEntries ==>
          timerToEntries[id] in ListOf(intervalToTimers, timerToEntries[id].interval);
        return INVALID_TIMER_FD;
      }
      var list := intervalToTimers[interval];
      assert GoodList(timerToEntries, interval, list);
      hide GoodList, Backed, Recorded, Needed, Running;
      var k := 0;
      while k < |list|
        invariant 0 <= k <= |list| && forall j :: 0 <= j < k ==> list[j].once
      {
        if !list[k].once {
          FromList(timerToEntries, interval, list, k);
          return list[k].timerFd;
        }
        k := k + 1;
      }
      assert forall id :: id in timerToEntries ==>
        timerToEntries[id] in ListOf(intervalToTimers, timerToEntries[id].interval);
      return INVALID_TIMER_FD;
    }

    /** The search for an id: round the valid ones from the last one on. It ends because one of them is free. */
    method NextId() returns (id: nat)
      requires 1 <= timerId <= UINT32_MAX && |timerToEntries| < UINT32_MAX - 2
      modifies this`timerId
      ensures NextFree(old(timerId), id, timerToEntries.Keys) && timerId == id + 1
      ensures GetValidId(old(timerId)) !in timerToEntries ==> id == GetValidId(old(timerId))
    {
      ghost var free := SomeIdIsFree(timerToEntries.Keys);
      PassesNone(timerId, timerToEntries.Keys);
      timerId := GetValidId(timerId);
      while timerId in timerToEntries
        invariant AllPassed(old(timerId), timerId, timerToEntries.Keys)
        invariant GetValidId(old(timerId)) !in timerToEntries ==> timerId == GetValidId(old(timerId))
        decreases Ahead(timerId, free)
      {
        PassesUsed(old(timerId), timerId, timerToEntries.Keys, free);
        timerId := timerId + 1;
        timerId := GetValidId(timerId);
      }
      id := timerId;
      timerId := timerId + 1;
    }

    /** scheduled and newFd say what the system does if it is asked for a timer. */
    method Register(interval: nat, once: bool, scheduled: bool, newFd: int) returns (id: nat)
      requires Valid() && |timerToEntries| < UINT32_MAX - 2
      requires scheduled ==> newFd >= 0 && newFd !in live
      modifies this
      ensures Valid()
      ensures scheduled ==> id != DEAL_FAILED
      ensures id == DEAL_FAILED ==> !scheduled && timerToEntries == old(timerToEntries) && live == old(live)
                                    && intervalToTimers == old(intervalToTimers)
      ensures id == DEAL_FAILED ==> timerId == old(timerId)
      ensures id != DEAL_FAILED ==> NextFree(old(timerId), id, old(timerToEntries).Keys) && timerId == id + 1
      ensures id != DEAL_FAILED && GetValidId(old(timerId)) !in old(timerToEntries) ==> id == GetValidId(old(timerId))
      ensures id != DEAL_FAILED ==> exists fd :: var e := Entry(id, interval, once, fd);
        && timerToEntries == old(timerToEntries)[id := e]
        && intervalToTimers == old(intervalToTimers)[interval := ListOf(old(intervalToTimers), interval) + [e]]
        && (if fd in old(live) then live == old(live) else fd == newFd && live == old(live)[fd := Live(interval, once)])
      ensures once && scheduled ==> newFd in live && newFd !in old(live)
    {
      hide Indexed, Backed, Recorded, Needed, Running, GoodList;
      var fd := INVALID_TIMER_FD;
      if !once {
        fd := GetTimerFd(interval);
      }
      var isNew := fd == INVALID_TIMER_FD;
      if isNew {
        if !scheduled {
          return DEAL_FAILED;
        }
        fd := newFd;
        ScheduleTimer(interval, once, fd);
        timers := timers[fd := interval];
      }
      id := NextId();
      var e := Entry(id, interval, once, fd);
      EntryAdded(old(timerToEntries), old(intervalToTimers), old(timers), old(live), e, isNew);
      var list := if interval in intervalToTimers then intervalToTimers[interval] else [];
      intervalToTimers := intervalToTimers[interval := list + [e]];
      timerToEntries := timerToEntries[id := e];
    }

    /** Entry k of its list goes, with its timer if that is its own, and with the whole interval if it was the last. */
    method Discard(i: nat, k: nat)
      requires Valid() && i in intervalToTimers && k < |intervalToTimers[i]|
      modifies `intervalToTimers, `timerToEntries, `timers, `handlers, `live
      ensures Valid()
      ensures var e, left := old(intervalToTimers)[i][k], Less(old(intervalToTimers)[i], k);
        && timerToEntries == old(timerToEntries) - {e.timerId} && timers == old(timers) - OwnTimer(e)
        && intervalToTimers == (if left == [] then old(intervalToTimers) - {i} else old(intervalToTimers)[i := left])
        && live == old(live) - OwnTimer(e) - if left == [] then OfInterval(timers, i) else {}
    {
      hide Indexed, Backed, Recorded, Needed, Running, GoodList;
      var e := intervalToTimers[i][k];
      var left := intervalToTimers[i][..k] + intervalToTimers[i][k + 1..];
      if left == [] {
        LastEntryLeaves(timerToEntries, intervalToTimers, timers, live, i, k);
      } else {
        EntryLeaves(timerToEntries, intervalToTimers, timers, live, i, k);
      }
      if e.once {
        CancelTimer(e.timerFd);
        timers := timers - {e.timerFd};
      } else {
        assert live - OwnTimer(e) == live && timers - OwnTimer(e) == timers;
      }
      intervalToTimers := intervalToTimers[i := left];
      if |left| == 0 {
        EmptiedOrNot(old(intervalToTimers), i);
        intervalToTimers := intervalToTimers - {i};
        DoUnregister(i);
      }
      timerToEntries := timerToEntries - {e.timerId};
    }

    method Unregister(timerId: nat)
      requires Valid()
      modifies `intervalToTimers, `timerToEntries, `timers, `handlers, `live
      ensures Valid() && timerToEntries == old(timerToEntries) - {timerId}
      ensures timerId !in old(timerToEntries) ==> live == old(live) && intervalToTimers == old(intervalToTimers)
      ensures timerId in old(timerToEntries) ==>
        var e := old(timerToEntries)[timerId];
        live == old(live) - OwnTimer(e) - if e.interval in intervalToTimers then {} else OfInterval(timers, e.interval)
    {
      hide Indexed, Backed, Recorded, Needed, Running, GoodList, OfInterval, OwnTimer;
      if timerId !in timerToEntries {
        return;
      }
      var e := timerToEntries[timerId];
      ghost var at := Listed(timerToEntries, intervalToTimers, timerId);
      var k := FindId(intervalToTimers[e.interval], timerId, at);
      SameEntry(timerToEntries, intervalToTimers, timerId, k);
      Discard(e.interval, k);
    }

    /** Entry k of its list goes, and the timer that it uses, whoever else uses it. */
    method EraseEntry(i: nat, k: nat)
      requires Running(handlers, live) && i in intervalToTimers && k < |intervalToTimers[i]|
      modifies `intervalToTimers, `timerToEntries, `timers, `handlers, `live
      ensures Running(handlers, live)
      ensures var e := old(intervalToTimers)[i][k];
        && timerToEntries == old(timerToEntries) - {e.timerId} && timers == old(timers) - {e.timerFd}
        && live == old(live) - {e.timerFd}
        && intervalToTimers == old(intervalToTimers)[i := Less(old(intervalToTimers)[i], k)]
    {
      hide Running;
      var e := intervalToTimers[i][k];
      CancelTimer(e.timerFd);
      timers := timers - {e.timerFd};
      intervalToTimers := intervalToTimers[i := intervalToTimers[i][..k] + intervalToTimers[i][k + 1..]];
      timerToEntries := timerToEntries - {e.timerId};
    }

    /** The walk of EraseUnusedTimerId has come to entry k, and the entries that are gone were among the ids. */
    ghost predicate Erasing(entries0: map<nat, Entry>, lists: map<nat, seq<Entry>>, timers0: map<int, nat>,
                            live0: map<int, Live>, interval: nat, unusedIds: seq<nat>, gone: set<nat>, k: nat)
      reads `intervalToTimers, `timerToEntries, `timers, `live
    {
      && interval in intervalToTimers && k <= |intervalToTimers[interval]|
      && intervalToTimers == lists[interval := intervalToTimers[interval]]
      && LeftOf(entries0, lists, interval, gone, intervalToTimers[interval])
      && (forall j :: 0 <= j < k ==> intervalToTimers[interval][j].timerId !in unusedIds)
      && timerToEntries == entries0 - gone && gone <= Used(entries0, interval, unusedIds)
      && timers == timers0 - FdsOf(entries0, gone) && live == live0 - FdsOf(entries0, gone)
    }

    /** One entry more. */
    method EraseUsed(interval: nat, k: nat, ghost entries0: map<nat, Entry>, ghost lists: map<nat, seq<Entry>>,
                     ghost timers0: map<int, nat>, ghost live0: map<int, Live>, ghost unusedIds: seq<nat>,
                     ghost gone: set<nat>)
      returns (ghost gone': set<nat>)
      requires Running(handlers, live) && Erasing(entries0, lists, timers0, live0, interval, unusedIds, gone, k)
      requires k < |intervalToTimers[interval]| && intervalToTimers[interval][k].timerId in unusedIds
      modifies `intervalToTimers, `timerToEntries, `timers, `handlers, `live
      ensures Running(handlers, live) && Erasing(entries0, lists, timers0, live0, interval, unusedIds, gone', k)
      ensures gone' != {} && |intervalToTimers[interval]| == |old(intervalToTimers[interval])| - 1
    {
      hide Running, GoodList, LeftOf, FdsOf;
      var e := intervalToTimers[interval][k];
      LeftStep(entries0, lists, interval, gone, intervalToTimers[interval], k);
      TakenTwice(timers0, FdsOf(entries0, gone), e.timerFd);
      TakenTwice(live0, FdsOf(entries0, gone), e.timerFd);
      gone' := gone + {e.timerId};
      EraseEntry(interval, k);
    }

    /**
      * The entries of the interval among the ids go, with whatever timers they use, and with the last entry all that
      * is on record for the interval. OnTimer passes the ids of one-shots; if by now one is that of a periodic entry,
      * the timer that it shares stops, and the others are left without.
      */
    method EraseUnusedTimerId(interval: nat, unusedIds: seq<nat>)
      requires Valid()
      modifies `intervalToTimers, `timerToEntries, `timers, `handlers, `live
      ensures var gone := Used(old(timerToEntries), interval, unusedIds);
        && timerToEntries == old(timerToEntries) - gone && timers == old(timers) - FdsOf(old(timerToEntries), gone)
        && live == old(live) - FdsOf(old(timerToEntries), gone)
                   - (if interval in intervalToTimers then {} else OfInterval(timers, interval))
        && (interval !in intervalToTimers <==>
            gone != {} && forall id :: id in timerToEntries ==> timerToEntries[id].interval != interval)
        && (Valid() <==> NoneShares(old(timerToEntries), interval, gone))
    {
      hide Indexed, Backed, Recorded, Needed, Running, GoodList, LeftOf, FdsOf, NoneShares, OfInterval;
      TouchList(timerToEntries, intervalToTimers, timers, live, interval);
      if interval !in intervalToTimers {
        intervalToTimers := intervalToTimers[interval := []];
      }
      ghost var lists, gone: set<nat> := intervalToTimers, {};
      NoneGoneYet(timerToEntries, lists, interval);
      NothingTaken(timers);
      NothingTaken(live);
      var k := 0;
      while k < |intervalToTimers[interval]|
        invariant Running(handlers, live)
        invariant Erasing(old(timerToEntries), lists, old(timers), old(live), interval, unusedIds, gone, k)
        invariant if gone == {} then intervalToTimers == lists else intervalToTimers[interval] != []
        decreases |intervalToTimers[interval]| - k
      {
        if intervalToTimers[interval][k].timerId !in unusedIds {
          k := k + 1;
          continue;
        }
        gone := EraseUsed(interval, k, old(timerToEntries), lists, old(timers), old(live), unusedIds, gone);
        var left := intervalToTimers[interval];
        if |left| == 0 {
          AllErased(old(timerToEntries), lists, interval, gone, left, unusedIds);
          ErasedAgreeExactly(old(timerToEntries), lists, old(timers), old(live), interval, gone, left);
          EmptiedOrNot(lists, interval);
          assert left == [] && intervalToTimers == lists[interval := []];
          intervalToTimers := intervalToTimers - {interval};
          assert intervalToTimers == ListsLeft(lists, interval, left);
          DoUnregister(interval);
          return;
        }
      }
      ghost var left := intervalToTimers[interval];
      AllErased(old(timerToEntries), lists, interval, gone, left, unusedIds);
      if gone != {} {
        ErasedAgreeExactly(old(timerToEntries), lists, old(timers), old(live), interval, gone, left);
        NothingTaken(live);
      } else {
        assert timers == old(timers) && live == old(live) && timerToEntries == old(timerToEntries);
      }
    }

    /** The first section of OnTimer: whose callbacks are due, and which ids are then used up. */
    method OnTimer(timerFd: int) returns (interval: nat, due: seq<Entry>, onceIdsUnused: seq<nat>)
      requires Valid()
      modifies `timers, `intervalToTimers
      ensures Valid() && (timerFd in old(timers) ==> interval == old(timers)[timerFd])
      ensures forall e :: e in due <==>
        e.interval == interval && e.timerFd == timerFd && e.timerId in timerToEntries && timerToEntries[e.timerId] == e
      ensures forall id :: id in onceIdsUnused <==> exists e :: e in due && e.once && e.timerId == id
      ensures interval in intervalToTimers && exists places :: InOrderOf(due, intervalToTimers[interval], places)
    {
      hide Indexed, Backed, Recorded, Needed, Running, GoodList;
      LookupKeeps(timerToEntries, intervalToTimers, timers, live, timerFd);
      if timerFd !in timers {
        timers := timers[timerFd := 0];
      }
      interval := timers[timerFd];
      if interval !in intervalToTimers {
        intervalToTimers := intervalToTimers[interval := []];
      }
      var entryList := intervalToTimers[interval];
      due, onceIdsUnused := [], [];
      var k := 0;
      ghost var places: seq<nat> := [];
      while k < |entryList|
        invariant 0 <= k <= |entryList|
        invariant InOrderOf(due, entryList, places) && forall j :: 0 <= j < |places| ==> places[j] < k
        invariant forall e :: e in due <==> e in entryList[..k] && e.timerFd == timerFd
        invariant forall id :: id in onceIdsUnused <==> exists e :: e in due && e.once && e.timerId == id
      {
        var e := entryList[k];
        if e.timerFd == timerFd {
          due, places := due + [e], places + [k];
          if e.once {
            onceIdsUnused := onceIdsUnused + [e.timerId];
          }
        }
        k := k + 1;
      }
      assert entryList[..k] == entryList && InOrderOf(due, intervalToTimers[interval], places);
      ListedExactly(timerToEntries, intervalToTimers, interval);
    }
  }

  /** An entry stands in the list of its interval. */
  lemma Listed(entries: map<nat, Entry>, lists: map<nat, seq<Entry>>, id: nat) returns (at: nat)
    requires Indexed(entries, lists) && id in entries
    ensures entries[id].interval in lists && at < |lists[entries[id].interval]|
    ensures lists[entries[id].interval][at].timerId == id
  {
    assert entries[id] in ListOf(lists, entries[id].interval);
    at := Position(lists[entries[id].interval], entries[id]);
  }

  lemma SameEntry(entries: map<nat, Entry>, lists: map<nat, seq<Entry>>, id: nat, k: nat)
    requires Indexed(entries, lists) && id in entries && entries[id].interval in lists
    requires k < |lists[entries[id].interval]| && lists[entries[id].interval][k].timerId == id
    ensures lists[entries[id].interval][k] == entries[id]
  {
    FromList(entries, entries[id].interval, lists[entries[id].interval], k);
  }

  /** The first entry with that id; there is one, at `at`. */
  method FindId(list: seq<Entry>, timerId: nat, ghost at: nat) returns (k: nat)
    requires at < |list| && list[at].timerId == timerId
    ensures k <= at && list[k].timerId == timerId
  {
    k := 0;
    while list[k].timerId != timerId
      invariant 0 <= k <= at
      decreases at - k
    {
      k := k + 1;
    }
  }

  lemma FromList(entries: map<nat, Entry>, i: nat, list: seq<Entry>, k: nat)
    requires GoodList(entries, i, list) && k < |list|
    ensures list[k].interval == i && list[k].timerId in entries && entries[list[k].timerId] == list[k]
  {
    assert list[k] in list;
  }

  /** The entries of the interval among ids. */
  ghost function Used(entries: map<nat, Entry>, interval: nat, ids: seq<nat>): set<nat> {
    set id | id in ids && id in entries && entries[id].interval == interval
  }

  lemma AllErased(entries: map<nat, Entry>, lists: map<nat, seq<Entry>>, i: nat, gone: set<nat>, left: seq<Entry>,
                  ids: seq<nat>)
    requires Indexed(entries, lists) && LeftOf(entries, lists, i, gone, left) && gone <= Used(entries, i, ids)
    requires forall k :: 0 <= k < |left| ==> left[k].timerId !in ids
    ensures gone == Used(entries, i, ids)
    ensures left == [] <==> forall id :: id in entries - gone ==> entries[id].interval != i
  {
    forall id | id in entries && entries[id].interval == i && id !in gone
      ensures entries[id] in left && id !in ids
    {
      assert entries[id] in ListOf(lists, entries[id].interval);
    }
    forall k | 0 <= k < |left|
      ensures left[k].timerId in entries - gone && entries[left[k].timerId].interval == i
    {
      FromList(entries - gone, i, left, k);
    }
    if left != [] {
      assert left[0].timerId in entries - gone;
    }
  }

  lemma NothingTaken<K, V>(m: map<K, V>)
    ensures m - {} == m
  {
  }

  lemma TakenTwice<K, V>(m: map<K, V>, a: set<K>, k: K)
    ensures m - a - {k} == m - (a + {k})
  {
  }

  /** Of the records that are not left, done are those of the interval. */
  ghost predicate Passed(timers: map<int, nat>, interval: nat, left: set<int>, done: set<int>) {
    left <= timers.Keys && done == set fd | fd in OfInterval(timers, interval) && fd !in left
  }

  lemma PassedStep(timers: map<int, nat>, interval: nat, left: set<int>, done: set<int>, fd: int)
    requires Passed(timers, interval, left, done) && fd in left
    ensures Passed(timers, interval, left - {fd}, if timers[fd] == interval then done + {fd} else done)
  {
  }

  lemma PassedAll(timers: map<int, nat>, interval: nat, left: set<int>, done: set<int>)
    requires Passed(timers, interval, left, done) && forall fd :: fd !in left
    ensures done == OfInterval(timers, interval)
  {
    forall fd | fd in OfInterval(timers, interval)
      ensures fd in done
    {
      assert fd !in left;
    }
  }

  lemma PassedNone(timers: map<int, nat>, interval: nat)
    ensures Passed(timers, interval, timers.Keys, {})
  {
  }

  lemma TouchList(entries: map<nat, Entry>, lists: map<nat, seq<Entry>>, timers: map<int, nat>,
                  live: map<int, Live>, i: nat)
    requires Agree(entries, lists, timers, live)
    ensures Agree(entries, if i in lists then lists else lists[i := []], timers, live)
  {
    var lists' := if i in lists then lists else lists[i := []];
    assert forall j :: ListOf(lists', j) == ListOf(lists, j);
    hide Backed, Recorded;
    assert Needed(entries, lists', live);
    hide Needed, ListOf;
    assert i !in lists ==> GoodList(entries, i, []);
    hide GoodList;
  }

  lemma ListedExactly(entries: map<nat, Entry>, lists: map<nat, seq<Entry>>, i: nat)
    requires Indexed(entries, lists) && i in lists
    ensures forall e :: e in lists[i] <==> e.interval == i && e.timerId in entries && entries[e.timerId] == e
  {
    assert GoodList(entries, i, lists[i]);
    assert forall id :: id in entries ==> entries[id] in ListOf(lists, entries[id].interval);
  }
}
