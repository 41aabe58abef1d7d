/** The tables of the timer as values: what they must agree on, and how each change keeps them in agreement. */
module TimerTables {
  const UINT32_MAX: nat := 0xFFFF_FFFF
  /** The error code that Register returns, and that is therefore no id. */
  const DEAL_FAILED: nat := 0x1000B
  const INVALID_TIMER_FD: int := -1

  datatype Entry = Entry(timerId: nat, interval: nat, once: bool, timerFd: int)

  /** A timer that the system runs. */
  datatype Live = Live(interval: nat, once: bool)

  predicate ValidId(id: nat) { 1 <= id < UINT32_MAX && id != DEAL_FAILED }

  ghost function ListOf(lists: map<nat, seq<Entry>>, i: nat): seq<Entry> { if i in lists then lists[i] else [] }

  /** A list of entries of interval i that the id map holds as well, with different ids. */
  ghost predicate GoodList(entries: map<nat, Entry>, i: nat, list: seq<Entry>) {
    && (forall e :: e in list ==> e.interval == i && e.timerId in entries && entries[e.timerId] == e)
    && (forall j, k :: 0 <= j < k < |list| ==> list[j].timerId != list[k].timerId)
  }

  /** The id map and the interval lists hold the same entries, each exactly once. */
  ghost predicate Indexed(entries: map<nat, Entry>, lists: map<nat, seq<Entry>>) {
    && (forall id :: id in entries ==> entries[id].timerId == id && ValidId(id))
    && (forall id :: id in entries ==> entries[id] in ListOf(lists, entries[id].interval))
    && (forall i :: i in lists ==> GoodList(entries, i, lists[i]))
  }

  ghost predicate RunsFor(live: map<int, Live>, e: Entry) {
    e.timerFd in live && live[e.timerFd] == Live(e.interval, e.once)
  }

  ghost predicate Compatible(a: Entry, b: Entry) {
    if a.once || b.once then a.timerFd != b.timerFd else a.interval == b.interval ==> a.timerFd == b.timerFd
  }

  /** Every entry has a running timer of its interval and kind; periodic ones share it, one-shots do not. */
  ghost predicate Backed(entries: map<nat, Entry>, live: map<int, Live>) {
    && (forall id :: id in entries ==> RunsFor(live, entries[id]))
    && (forall a, b :: a in entries && b in entries && a != b ==> Compatible(entries[a], entries[b]))
  }

  /** Every running timer is on record with its interval. */
  ghost predicate Recorded(timers: map<int, nat>, live: map<int, Live>) {
    forall fd :: fd in live ==> fd in timers && timers[fd] == live[fd].interval
  }

  /** An interval without entries has no running timer, and a one-shot timer has its entry. */
  ghost predicate Needed(entries: map<nat, Entry>, lists: map<nat, seq<Entry>>, live: map<int, Live>) {
    && (forall fd :: fd in live ==> ListOf(lists, live[fd].interval) != [])
    && (forall fd :: fd in live && live[fd].once ==> exists id :: id in entries && entries[id].timerFd == fd)
  }

  ghost predicate Agree(entries: map<nat, Entry>, lists: map<nat, seq<Entry>>, timers: map<int, nat>,
                        live: map<int, Live>)
  {
    Indexed(entries, lists) && Backed(entries, live) && Recorded(timers, live) && Needed(entries, lists, live)
  }

  // ---- the id allocator --------------------------------------------------------------------------------

  function GetValidId(timerId: nat): nat {
    if timerId == DEAL_FAILED then timerId + 1
    else if timerId == UINT32_MAX then 1
    else timerId
  }

  /** How far it is from one candidate to another, going round. */
  function Ahead(from: nat, to: nat): int {
    if from <= to then to - from else UINT32_MAX - from + to
  }

  /** The first valid id that is not in use, going round from a candidate. */
  ghost predicate NextFree(from: nat, id: nat, used: set<nat>) {
    ValidId(id) && id !in used && forall x :: ValidId(x) && x !in used ==> Ahead(from, id) <= Ahead(from, x)
  }

  /** Every valid id that the search has passed, on its way from `from` to id, is in use. */
  ghost predicate AllPassed(from: nat, id: nat, used: set<nat>) {
    ValidId(id) && forall x :: ValidId(x) && Ahead(from, x) < Ahead(from, id) ==> x in used
  }

  /** GetValidId skips no valid id. */
  lemma PassesNone(from: nat, used: set<nat>)
    requires 1 <= from <= UINT32_MAX
    ensures AllPassed(from, GetValidId(from), used)
  {
  }

  lemma PassesUsed(from: nat, id: nat, used: set<nat>, free: nat)
    requires 1 <= from <= UINT32_MAX && AllPassed(from, id, used) && id in used && ValidId(free) && free !in used
    ensures AllPassed(from, GetValidId(id + 1), used)
  {
    assert Ahead(from, id) < Ahead(from, free);
  }

  predicate UpTo(x: nat, n: nat) { 1 <= x <= n }

  lemma {:induction false} RangeSize(n: nat)
    ensures |set x: nat | 1 <= x <= n && UpTo(x, n)| == n
  {
    var s := set x: nat | 1 <= x <= n && UpTo(x, n);
    if n == 0 {
      assert s == {};
    } else {
      RangeSize(n - 1);
      var m := n - 1;
      assert s == (set x: nat | 1 <= x <= m && UpTo(x, m)) + {n};
    }
  }

  /** While there are fewer entries than valid ids, some valid id is free. */
  lemma SomeIdIsFree(used: set<nat>) returns (free: nat)
    requires |used| < UINT32_MAX - 2
    ensures ValidId(free) && free !in used
  {
    var n := UINT32_MAX - 1;
    var all := set x: nat | 1 <= x <= n && UpTo(x, n);
    RangeSize(n);
    if all <= used + {DEAL_FAILED} {
      SubsetSize(all, used + {DEAL_FAILED});
    }
    free :| free in all && free !in used + {DEAL_FAILED};
  }

  lemma {:induction false} SubsetSize<T>(a: set<T>, b: set<T>)
    requires a <= b
    ensures |a| <= |b|
  {
    if a != {} {
      var x :| x in a;
      SubsetSize(a - {x}, b - {x});
    }
  }

  // ---- what the operations do to the tables ------------------------------------------------------------

  lemma GoodListOther(entries: map<nat, Entry>, i: nat, list: seq<Entry>, e: Entry)
    requires GoodList(entries, i, list)
    ensures e.timerId !in entries ==> GoodList(entries[e.timerId := e], i, list)
    ensures e.timerId in entries && entries[e.timerId].interval != i ==> GoodList(entries - {e.timerId}, i, list)
  {
  }

  lemma GoodListLess(entries: map<nat, Entry>, i: nat, list: seq<Entry>, k: nat)
    requires GoodList(entries, i, list) && k < |list|
    ensures list[k].interval == i && list[k].timerId in entries && entries[list[k].timerId] == list[k]
    ensures GoodList(entries - {list[k].timerId}, i, Less(list, k))
    ensures forall e :: e in Less(list, k) <==> e in list && e.timerId != list[k].timerId
  {
    assert list[k] in list;
    LessMembers(list, k);
    hide Less;
  }

  lemma GoodListAdd(entries: map<nat, Entry>, e: Entry, list: seq<Entry>)
    requires GoodList(entries, e.interval, list) && e.timerId !in entries
    ensures GoodList(entries[e.timerId := e], e.interval, list + [e])
  {
    forall j, k | 0 <= j < k < |list + [e]|
      ensures (list + [e])[j].timerId != (list + [e])[k].timerId
    {
      assert list[j] in list && (k < |list| ==> list[k] in list);
    }
  }

  lemma IndexedAdd(entries: map<nat, Entry>, lists: map<nat, seq<Entry>>, e: Entry)
    requires Indexed(entries, lists) && e.timerId !in entries && ValidId(e.timerId)
    ensures Indexed(entries[e.timerId := e], lists[e.interval := ListOf(lists, e.interval) + [e]])
  {
    var list := ListOf(lists, e.interval);
    var entries', lists' := entries[e.timerId := e], lists[e.interval := list + [e]];
    assert GoodList(entries, e.interval, list);
    hide GoodList, ListOf;
    GoodListAdd(entries, e, list);
    forall i | i in lists'
      ensures GoodList(entries', i, lists'[i])
    {
      if i != e.interval {
        GoodListOther(entries, i, lists[i], e);
      }
    }
    ListedAdd(entries, lists, e);
  }

  lemma ListedAdd(entries: map<nat, Entry>, lists: map<nat, seq<Entry>>, e: Entry)
    requires forall id :: id in entries ==> entries[id] in ListOf(lists, entries[id].interval)
    ensures var entries', lists' := entries[e.timerId := e], lists[e.interval := ListOf(lists, e.interval) + [e]];
      forall id :: id in entries' ==> entries'[id] in ListOf(lists', entries'[id].interval)
  {
    var list := ListOf(lists, e.interval);
    assert (list + [e])[|list|] == e;
    assert forall x :: x in list ==> x in list + [e];
  }

  /** A new timer for e, which no periodic entry of its interval could share. */
  lemma BackedByNew(entries: map<nat, Entry>, live: map<int, Live>, e: Entry)
    requires Backed(entries, live) && e.timerId !in entries && e.timerFd !in live
    requires !e.once ==> forall id :: id in entries && entries[id].interval == e.interval ==> entries[id].once
    ensures Backed(entries[e.timerId := e], live[e.timerFd := Live(e.interval, e.once)])
  {
  }

  /** The timer of the periodic entry x serves e as well. */
  lemma BackedByOld(entries: map<nat, Entry>, live: map<int, Live>, e: Entry, x: nat)
    requires Backed(entries, live) && e.timerId !in entries && x in entries
    requires !e.once && !entries[x].once && e.interval == entries[x].interval && e.timerFd == entries[x].timerFd
    ensures Backed(entries[e.timerId := e], live)
  {
    assert forall a :: a in entries && a != x ==>
      Compatible(entries[x], entries[a]) && Compatible(entries[a], entries[x]);
  }

  lemma NeededAdd(entries: map<nat, Entry>, lists: map<nat, seq<Entry>>, live: map<int, Live>, e: Entry)
    requires Needed(entries, lists, live) && e.timerId !in entries
    ensures var entries', lists' := entries[e.timerId := e], lists[e.interval := ListOf(lists, e.interval) + [e]];
      && Needed(entries', lists', live)
      && (e.timerFd !in live ==> Needed(entries', lists', live[e.timerFd := Live(e.interval, e.once)]))
  {
    var entries' := entries[e.timerId := e];
    forall fd | fd in live && live[fd].once
      ensures exists id :: id in entries' && entries'[id].timerFd == fd
    {
      var id :| id in entries && entries[id].timerFd == fd;
      assert entries'[id].timerFd == fd;
    }
    assert entries'[e.timerId].timerFd == e.timerFd;
  }

  /** A new entry: on a new timer, or on that of another periodic entry of its interval. */
  lemma EntryAdded(entries: map<nat, Entry>, lists: map<nat, seq<Entry>>, timers: map<int, nat>, live: map<int, Live>,
                   e: Entry, isNew: bool)
    requires Agree(entries, lists, timers, live) && e.timerId !in entries && ValidId(e.timerId)
    requires isNew ==> e.timerFd !in live
    requires isNew && !e.once ==> forall id :: id in entries && entries[id].interval == e.interval ==> entries[id].once
    requires !isNew ==> !e.once && exists id :: id in entries && entries[id] == Entry(id, e.interval, false, e.timerFd)
    ensures Agree(entries[e.timerId := e], lists[e.interval := ListOf(lists, e.interval) + [e]],
                  if isNew then timers[e.timerFd := e.interval] else timers,
                  if isNew then live[e.timerFd := Live(e.interval, e.once)] else live)
    ensures !isNew ==> e.timerFd in live
  {
    if !isNew {
      var id :| id in entries && entries[id] == Entry(id, e.interval, false, e.timerFd);
      BackedByOld(entries, live, e, id);
      assert RunsFor(live, entries[id]);
    } else {
      BackedByNew(entries, live, e);
    }
    hide Indexed, Backed, Needed;
    IndexedAdd(entries, lists, e);
    NeededAdd(entries, lists, live, e);
  }

  ghost function Less<T>(s: seq<T>, k: nat): seq<T>
    requires k < |s|
  {
    s[..k] + s[k + 1..]
  }

  lemma LessMembers(list: seq<Entry>, k: nat)
    requires k < |list| && forall i, j :: 0 <= i < j < |list| ==> list[i].timerId != list[j].timerId
    ensures forall e :: e in Less(list, k) <==> e in list && e.timerId != list[k].timerId
    ensures forall i, j :: 0 <= i < j < |Less(list, k)| ==> Less(list, k)[i].timerId != Less(list, k)[j].timerId
  {
    var r := Less(list, k);
    assert forall j :: 0 <= j < |r| ==> r[j] == list[if j < k then j else j + 1];
    forall e | e in list && e.timerId != list[k].timerId
      ensures e in r
    {
      var j :| 0 <= j < |list| && list[j] == e;
      assert r[if j < k then j else j - 1] == e;
    }
  }

  lemma IndexedLess(entries: map<nat, Entry>, lists: map<nat, seq<Entry>>, i: nat, k: nat)
    requires Indexed(entries, lists) && i in lists && k < |lists[i]|
    ensures Indexed(entries - {lists[i][k].timerId}, lists[i := Less(lists[i], k)])
  {
    var e, list := lists[i][k], lists[i];
    hide GoodList, Less;
    GoodListLess(entries, i, list, k);
    var entries', lists' := entries - {e.timerId}, lists[i := Less(list, k)];
    forall id | id in entries'
      ensures entries'[id] in ListOf(lists', entries'[id].interval)
    {
      assert entries[id] in ListOf(lists, entries[id].interval);
    }
    forall j | j in lists'
      ensures GoodList(entries', j, lists'[j])
    {
      if j != i {
        GoodListOther(entries, j, lists[j], e);
      }
    }
  }

  /** A list that has become empty can go. */
  lemma IndexedWithout(entries: map<nat, Entry>, lists: map<nat, seq<Entry>>, i: nat)
    requires Indexed(entries, lists) && i in lists && lists[i] == []
    ensures Indexed(entries, lists - {i})
  {
    forall id | id in entries
      ensures entries[id] in ListOf(lists - {i}, entries[id].interval)
    {
      assert entries[id] in ListOf(lists, entries[id].interval);
    }
    forall j | j in lists - {i}
      ensures GoodList(entries, j, (lists - {i})[j])
    {
      assert GoodList(entries, j, lists[j]);
    }
  }

  /** Other entries keep their timers when those in gone stop, if none of the entries that stay uses one of them. */
  lemma BackedLess(entries: map<nat, Entry>, live: map<int, Live>, id: nat, gone: set<int>)
    requires Backed(entries, live) && id in entries
    requires forall x :: x in entries && x != id ==> entries[x].timerFd !in gone
    ensures Backed(entries - {id}, live - gone)
  {
  }

  /** The descriptors on record for interval i. */
  ghost function OfInterval(timers: map<int, nat>, i: nat): set<int> { set fd | fd in timers && timers[fd] == i }

  /** The descriptors that stop when e leaves. */
  ghost function OwnTimer(e: Entry): set<int> { if e.once then {e.timerFd} else {} }

  lemma OnceHasEntry(entries: map<nat, Entry>, live: map<int, Live>, e: Entry, gone: set<int>)
    requires Backed(entries, live) && e.timerId in entries && entries[e.timerId] == e && OwnTimer(e) <= gone
    requires forall fd :: fd in live && live[fd].once ==> exists id :: id in entries && entries[id].timerFd == fd
    ensures var entries', live' := entries - {e.timerId}, live - gone;
      forall fd :: fd in live' && live'[fd].once ==> exists id :: id in entries' && entries'[id].timerFd == fd
  {
    var entries', live' := entries - {e.timerId}, live - gone;
    forall fd | fd in live' && live'[fd].once
      ensures exists id :: id in entries' && entries'[id].timerFd == fd
    {
      var id :| id in entries && entries[id].timerFd == fd;
      assert RunsFor(live, e);
      assert id != e.timerId && entries'[id].timerFd == fd;
    }
  }

  /** After e has left, every interval for which something runs still has entries. */
  lemma NeededLess(entries: map<nat, Entry>, lists: map<nat, seq<Entry>>, live: map<int, Live>, e: Entry,
                   lists': map<nat, seq<Entry>>, gone: set<int>)
    requires Backed(entries, live) && Needed(entries, lists, live)
    requires e.timerId in entries && entries[e.timerId] == e && OwnTimer(e) <= gone
    requires forall i :: i != e.interval ==> ListOf(lists', i) == ListOf(lists, i)
    requires ListOf(lists', e.interval) == [] ==>
      forall fd :: fd in live && fd !in gone ==> live[fd].interval != e.interval
    ensures Needed(entries - {e.timerId}, lists', live - gone)
  {
    OnceHasEntry(entries, live, e, gone);
  }

  lemma RecordedLess(timers: map<int, nat>, live: map<int, Live>, own: set<int>, gone: set<int>)
    requires Recorded(timers, live) && own <= gone
    ensures Recorded(timers - own, live - gone)
  {
  }

  /** The timers of the other entries: never e's own one-shot, and none of e's interval if e was the last there. */
  lemma OthersRun(entries: map<nat, Entry>, lists: map<nat, seq<Entry>>, timers: map<int, nat>, live: map<int, Live>,
                  e: Entry, x: nat)
    requires Agree(entries, lists, timers, live) && e.timerId in entries && entries[e.timerId] == e
    requires x in entries && x != e.timerId
    ensures entries[x].timerFd !in OwnTimer(e)
    ensures entries[x].interval != e.interval ==> entries[x].timerFd !in OfInterval(timers - OwnTimer(e), e.interval)
  {
    hide Indexed, Needed;
    assert Compatible(e, entries[x]) && RunsFor(live, entries[x]);
  }

  /** An entry leaves that is not the last of its interval; its timer stops if it is a one-shot. */
  lemma EntryLeaves(entries: map<nat, Entry>, lists: map<nat, seq<Entry>>, timers: map<int, nat>, live: map<int, Live>,
                    i: nat, k: nat)
    requires Agree(entries, lists, timers, live) && i in lists && k < |lists[i]| && Less(lists[i], k) != []
    ensures var e := lists[i][k];
      Agree(entries - {e.timerId}, lists[i := Less(lists[i], k)], timers - OwnTimer(e), live - OwnTimer(e))
  {
    var e := lists[i][k];
    hide GoodList, Backed, Recorded, Needed, Less, OwnTimer;
    GoodListLess(entries, i, lists[i], k);
    IndexedLess(entries, lists, i, k);
    hide Indexed;
    forall x | x in entries && x != e.timerId
      ensures entries[x].timerFd !in OwnTimer(e)
    {
      OthersRun(entries, lists, timers, live, e, x);
    }
    BackedLess(entries, live, e.timerId, OwnTimer(e));
    RecordedLess(timers, live, OwnTimer(e), OwnTimer(e));
    NeededLess(entries, lists, live, e, lists[i := Less(lists[i], k)], OwnTimer(e));
  }

  lemma OnlyOne(entries: map<nat, Entry>, lists: map<nat, seq<Entry>>, i: nat, k: nat, x: nat)
    requires Indexed(entries, lists) && i in lists && k < |lists[i]| && Less(lists[i], k) == []
    requires x in entries && x != lists[i][k].timerId
    ensures entries[x].interval != i
  {
    GoodListLess(entries, i, lists[i], k);
    hide GoodList, Less;
    assert entries[x] in ListOf(lists, entries[x].interval);
  }

  lemma StopsAll(timers: map<int, nat>, live: map<int, Live>, own: set<int>, i: nat)
    requires Recorded(timers, live)
    ensures var gone := own + OfInterval(timers - own, i);
      && live - own - OfInterval(timers - own, i) == live - gone
      && forall fd :: fd in live && fd !in gone ==> live[fd].interval != i
  {
  }

  lemma EmptiedOrNot(lists: map<nat, seq<Entry>>, i: nat)
    ensures lists[i := []] - {i} == lists - {i}
  {
  }

  /** The last entry of an interval leaves, and everything on record for the interval stops. */
  lemma LastEntryLeaves(entries: map<nat, Entry>, lists: map<nat, seq<Entry>>, timers: map<int, nat>,
                        live: map<int, Live>, i: nat, k: nat)
    requires Agree(entries, lists, timers, live) && i in lists && k < |lists[i]| && Less(lists[i], k) == []
    ensures var e := lists[i][k];
      Agree(entries - {e.timerId}, lists - {i}, timers - OwnTimer(e),
            live - OwnTimer(e) - OfInterval(timers - OwnTimer(e), i))
  {
    var e := lists[i][k];
    var timers' := timers - OwnTimer(e);
    var gone := OwnTimer(e) + OfInterval(timers', i);
    StopsAll(timers, live, OwnTimer(e), i);
    hide GoodList, Backed, Recorded, Needed, Less, OwnTimer, OfInterval;
    GoodListLess(entries, i, lists[i], k);
    IndexedLess(entries, lists, i, k);
    IndexedWithout(entries - {e.timerId}, lists[i := []], i);
    EmptiedOrNot(lists, i);
    forall x | x in entries && x != e.timerId
      ensures entries[x].timerFd !in gone
    {
      OnlyOne(entries, lists, i, k, x);
      OthersRun(entries, lists, timers, live, e, x);
    }
    hide Indexed;
    BackedLess(entries, live, e.timerId, gone);
    RecordedLess(timers, live, OwnTimer(e), gone);
    NeededLess(entries, lists, live, e, lists - {i}, gone);
  }

  /**
   * A periodic timer outlives its entries: when one leaves and the interval keeps others, the timer goes on, and it
   * serves nobody exactly if none of the others is periodic.
   */
  lemma PeriodicTimerGoesOn(entries: map<nat, Entry>, live: map<int, Live>, e: Entry)
    requires Backed(entries, live) && e.timerId in entries && entries[e.timerId] == e && !e.once
    ensures e.timerFd in live - OwnTimer(e)
    ensures var rest := entries - {e.timerId};
      (exists x :: x in rest && rest[x].timerFd == e.timerFd) <==>
      (exists x :: x in rest && rest[x].interval == e.interval && !rest[x].once)
  {
    assert RunsFor(live, e);
    forall x | x in entries - {e.timerId}
      ensures entries[x].timerFd == e.timerFd <==> entries[x].interval == e.interval && !entries[x].once
    {
      assert Compatible(e, entries[x]) && RunsFor(live, entries[x]);
    }
    var rest := entries - {e.timerId};
    assert forall x :: x in rest ==> rest[x] == entries[x];
  }

  /** Looking up a descriptor and an interval in the tables may leave an idle record and an empty list behind. */
  lemma LookupKeeps(entries: map<nat, Entry>, lists: map<nat, seq<Entry>>, timers: map<int, nat>, live: map<int, Live>,
                    fd: int)
    requires Agree(entries, lists, timers, live)
    ensures var timers' := if fd in timers then timers else timers[fd := 0];
      var i := timers'[fd];
      Agree(entries, if i in lists then lists else lists[i := []], timers', live)
  {
    var timers' := if fd in timers then timers else timers[fd := 0];
    var i := timers'[fd];
    var lists' := if i in lists then lists else lists[i := []];
    assert forall j :: ListOf(lists', j) == ListOf(lists, j);
    hide Backed;
    assert Recorded(timers', live);
    assert Needed(entries, lists', live);
    hide Recorded, Needed, ListOf;
    assert i !in lists ==> GoodList(entries, i, []);
    hide GoodList;
  }

  // ---- several entries of one interval leave at once -----------------------------------------------------

  ghost function FdsOf(entries: map<nat, Entry>, gone: set<nat>): set<int> {
    set id | id in gone && id in entries :: entries[id].timerFd
  }

  /** No periodic entry of interval i stays behind while another one goes, and their timer with it. */
  ghost predicate NoneShares(entries: map<nat, Entry>, i: nat, gone: set<nat>) {
    forall p, q :: p in gone && p in entries && q in entries && q !in gone && entries[q].interval == i ==>
      entries[p].once || entries[q].once
  }

  /** What is left of the list of interval i. */
  ghost predicate LeftOf(entries: map<nat, Entry>, lists: map<nat, seq<Entry>>, i: nat, gone: set<nat>,
                         left: seq<Entry>)
  {
    && (forall id :: id in gone ==> id in entries && entries[id].interval == i)
    && GoodList(entries - gone, i, left)
    && (forall e :: e in left <==> e in ListOf(lists, i) && e.timerId !in gone)
  }

  ghost function ListsLeft(lists: map<nat, seq<Entry>>, i: nat, left: seq<Entry>): map<nat, seq<Entry>> {
    if left == [] then lists - {i} else lists[i := left]
  }

  lemma IndexedLeft(entries: map<nat, Entry>, lists: map<nat, seq<Entry>>, i: nat, gone: set<nat>, left: seq<Entry>)
    requires Indexed(entries, lists) && LeftOf(entries, lists, i, gone, left)
    ensures Indexed(entries - gone, ListsLeft(lists, i, left))
  {
    var entries', lists' := entries - gone, ListsLeft(lists, i, left);
    forall id | id in entries'
      ensures entries'[id] in ListOf(lists', entries'[id].interval)
    {
      assert entries[id] in ListOf(lists, entries[id].interval);
    }
    forall j | j in lists'
      ensures GoodList(entries', j, lists'[j])
    {
      if j != i {
        assert GoodList(entries, j, lists[j]);
      }
    }
  }

  lemma BackedLeft(entries: map<nat, Entry>, live: map<int, Live>, i: nat, gone: set<nat>, more: set<int>)
    requires Backed(entries, live) && forall id :: id in gone ==> id in entries && entries[id].interval == i
    requires forall x :: x in entries && x !in gone ==> entries[x].timerFd !in more
    ensures Backed(entries - gone, live - FdsOf(entries, gone) - more) <==> NoneShares(entries, i, gone)
  {
    var entries', live' := entries - gone, live - FdsOf(entries, gone) - more;
    forall x, p | x in entries' && p in gone
      ensures entries[x].timerFd == entries[p].timerFd <==>
              !entries[x].once && !entries[p].once && entries[x].interval == i
    {
      assert Compatible(entries[x], entries[p]) && RunsFor(live, entries[x]) && RunsFor(live, entries[p]);
    }
    if NoneShares(entries, i, gone) {
      forall x | x in entries'
        ensures RunsFor(live', entries'[x])
      {
        assert RunsFor(live, entries[x]);
      }
      forall a, b | a in entries' && b in entries' && a != b
        ensures Compatible(entries'[a], entries'[b])
      {
        assert Compatible(entries[a], entries[b]);
      }
    } else {
      var p, q :| p in gone && q in entries && q !in gone && entries[q].interval == i
                  && !entries[p].once && !entries[q].once;
      assert entries[p].timerFd in FdsOf(entries, gone) && !RunsFor(live', entries'[q]);
    }
  }

  lemma NeededLeft(entries: map<nat, Entry>, lists: map<nat, seq<Entry>>, live: map<int, Live>, i: nat, gone: set<nat>,
                   left: seq<Entry>, more: set<int>)
    requires Needed(entries, lists, live) && LeftOf(entries, lists, i, gone, left)
    requires left == [] ==> forall fd :: fd in live && live[fd].interval == i ==> fd in FdsOf(entries, gone) + more
    ensures Needed(entries - gone, ListsLeft(lists, i, left), live - FdsOf(entries, gone) - more)
  {
    var entries', live' := entries - gone, live - FdsOf(entries, gone) - more;
    assert forall id :: id in gone ==> entries[id].timerFd in FdsOf(entries, gone);
    forall fd | fd in live' && live'[fd].once
      ensures exists id :: id in entries' && entries'[id].timerFd == fd
    {
      var id :| id in entries && entries[id].timerFd == fd;
      assert entries'[id].timerFd == fd;
    }
  }

  /**
   * Entries of one interval leave, and whatever timers they use stop; with the last of them everything on record for
   * the interval. The tables still agree if and only if no periodic timer stops that another entry relies on.
   */
  lemma ErasedAgreeExactly(entries: map<nat, Entry>, lists: map<nat, seq<Entry>>, timers: map<int, nat>,
                           live: map<int, Live>, i: nat, gone: set<nat>, left: seq<Entry>)
    requires Agree(entries, lists, timers, live) && LeftOf(entries, lists, i, gone, left)
    ensures var timers' := timers - FdsOf(entries, gone);
      var more := if left == [] then OfInterval(timers', i) else {};
      NoneShares(entries, i, gone) <==>
      Agree(entries - gone, ListsLeft(lists, i, left), timers', live - FdsOf(entries, gone) - more)
  {
    var timers' := timers - FdsOf(entries, gone);
    var more := if left == [] then OfInterval(timers', i) else {};
    forall x | x in entries && x !in gone
      ensures entries[x].timerFd !in more
    {
      assert RunsFor(live, entries[x]) && entries[x] in ListOf(lists, entries[x].interval);
    }
    IndexedLeft(entries, lists, i, gone, left);
    BackedLeft(entries, live, i, gone, more);
    hide Indexed, Backed;
    NeededLeft(entries, lists, live, i, gone, left, more);
  }

  /** One more entry goes. */
  lemma LeftStep(entries: map<nat, Entry>, lists: map<nat, seq<Entry>>, i: nat, gone: set<nat>,
                 left: seq<Entry>, k: nat)
    requires LeftOf(entries, lists, i, gone, left) && k < |left|
    ensures var e, gone' := left[k], gone + {left[k].timerId};
      && e.timerId in entries && entries[e.timerId] == e && e.interval == i
      && LeftOf(entries, lists, i, gone', Less(left, k))
      && FdsOf(entries, gone') == FdsOf(entries, gone) + {e.timerFd}
  {
    var e := left[k];
    GoodListLess(entries - gone, i, left, k);
    hide GoodList, Less;
    assert entries - gone - {e.timerId} == entries - (gone + {e.timerId});
  }

  lemma NoneGoneYet(entries: map<nat, Entry>, lists: map<nat, seq<Entry>>, i: nat)
    requires Indexed(entries, lists)
    ensures LeftOf(entries, lists, i, {}, ListOf(lists, i)) && FdsOf(entries, {}) == {}
    ensures entries - {} == entries && NoneShares(entries, i, {})
  {
    assert entries - {} == entries;
    assert i in lists ==> GoodList(entries, i, lists[i]);
  }
}
