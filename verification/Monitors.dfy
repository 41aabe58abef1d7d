/**
  * A monitor with two conditions, one for those that put something in and one for those that take: who waits on
  * which, what notify_one does to them, and how many they are.
  */
module Monitors {
  import opened Basics
  import opened Sums

  /** Where a thread stands with the monitor: waiting in vain so far, or woken and about to enter it again. */
  datatype Stand = Elsewhere | PutWaits | PutWoken | GetWaits | GetWoken

  predicate Waiting(at: Stand, putter: bool) { if putter then at.PutWaits? else at.GetWaits? }

  function Woken(at: Stand): Stand {
    match at
    case PutWaits => PutWoken
    case GetWaits => GetWoken
    case _ => at
  }

  /** notify_one wakes one of those that wait, any one. */
  predicate MayNotify<X>(at: X -> Stand, threads: seq<X>, putters: bool, whom: Option<nat>) {
    match whom
    case Some(k) => k < |threads| && Waiting(at(threads[k]), putters)
    case None => forall k :: 0 <= k < |threads| ==> !Waiting(at(threads[k]), putters)
  }

  /** Somebody to notify, or nobody if nobody waits. */
  lemma SomeWaiter<X>(at: X -> Stand, threads: seq<X>, putters: bool) returns (whom: Option<nat>)
    ensures MayNotify(at, threads, putters, whom)
  {
    if k: nat :| k < |threads| && Waiting(at(threads[k]), putters) {
      whom := Some(k);
    } else {
      whom := None;
    }
  }

  function Notify<X>(wake: X -> X, threads: seq<X>, whom: Option<nat>): (r: seq<X>)
    ensures |r| == |threads|
  {
    if whom.Some? && whom.value < |threads| then threads[whom.value := wake(threads[whom.value])] else threads
  }

  /** What a history has grown by. */
  function Appended<T(==)>(was: seq<T>, now: seq<T>): seq<T> { if was <= now then now[|was|..] else [] }

  // ---- counting ------------------------------------------------------------------------------------

  /** How many threads wait or have been woken, on either side. */
  datatype Tally = Tally(putWaits: int, putWoken: int, getWaits: int, getWoken: int)

  ghost function Weight(at: Stand): Tally {
    Tally(OneIf(at.PutWaits?), OneIf(at.PutWoken?), OneIf(at.GetWaits?), OneIf(at.GetWoken?))
  }

  ghost function Change(n: Tally, less: Tally, more: Tally): Tally {
    Tally(n.putWaits - less.putWaits + more.putWaits, n.putWoken - less.putWoken + more.putWoken,
          n.getWaits - less.getWaits + more.getWaits, n.getWoken - less.getWoken + more.getWoken)
  }

  ghost function PutWaiting<X>(at: X -> Stand): X -> int { x => Weight(at(x)).putWaits }
  ghost function PutReady<X>(at: X -> Stand): X -> int { x => Weight(at(x)).putWoken }
  ghost function GetWaiting<X>(at: X -> Stand): X -> int { x => Weight(at(x)).getWaits }
  ghost function GetReady<X>(at: X -> Stand): X -> int { x => Weight(at(x)).getWoken }

  ghost function Count<X>(at: X -> Stand, threads: seq<X>): Tally {
    Tally(Sum(PutWaiting(at), threads), Sum(PutReady(at), threads),
          Sum(GetWaiting(at), threads), Sum(GetReady(at), threads))
  }

  lemma CountFirst<X>(at: X -> Stand, threads: seq<X>)
    requires threads != []
    ensures Count(at, threads) == Change(Count(at, threads[1..]), Weight(Elsewhere), Weight(at(threads[0])))
  {
  }

  lemma CountUpdate<X>(at: X -> Stand, threads: seq<X>, i: nat, t: X)
    requires i < |threads|
    ensures Count(at, threads[i := t]) == Change(Count(at, threads), Weight(at(threads[i])), Weight(at(t)))
  {
    SumUpdate(PutWaiting(at), threads, i, t);
    SumUpdate(PutReady(at), threads, i, t);
    SumUpdate(GetWaiting(at), threads, i, t);
    SumUpdate(GetReady(at), threads, i, t);
  }

  lemma CountBounds<X>(at: X -> Stand, threads: seq<X>)
    ensures var n := Count(at, threads); n.putWaits >= 0 && n.putWoken >= 0 && n.getWaits >= 0 && n.getWoken >= 0
    ensures forall k :: 0 <= k < |threads| && at(threads[k]).PutWaits? ==> Count(at, threads).putWaits > 0
    ensures forall k :: 0 <= k < |threads| && at(threads[k]).GetWaits? ==> Count(at, threads).getWaits > 0
  {
    SumCovers(PutWaiting(at), threads);
    SumCovers(PutReady(at), threads);
    SumCovers(GetWaiting(at), threads);
    SumCovers(GetReady(at), threads);
    forall k | 0 <= k < |threads|
      ensures PutWaiting(at)(threads[k]) == Weight(at(threads[k])).putWaits
      ensures GetWaiting(at)(threads[k]) == Weight(at(threads[k])).getWaits
    {
    }
  }

  lemma NobodyWaits<X>(at: X -> Stand, threads: seq<X>, putters: bool)
    requires forall k :: 0 <= k < |threads| ==> !Waiting(at(threads[k]), putters)
    ensures if putters then Count(at, threads).putWaits == 0 else Count(at, threads).getWaits == 0
  {
    if putters {
      SumZero(PutWaiting(at), threads);
    } else {
      SumZero(GetWaiting(at), threads);
    }
  }

  lemma SomebodyWoken<X>(at: X -> Stand, threads: seq<X>)
    ensures Count(at, threads).putWoken > 0 ==> exists k :: 0 <= k < |threads| && at(threads[k]).PutWoken?
    ensures Count(at, threads).getWoken > 0 ==> exists k :: 0 <= k < |threads| && at(threads[k]).GetWoken?
  {
    if forall k :: 0 <= k < |threads| ==> !at(threads[k]).PutWoken? {
      SumZero(PutReady(at), threads);
    }
    if forall k :: 0 <= k < |threads| ==> !at(threads[k]).GetWoken? {
      SumZero(GetReady(at), threads);
    }
  }

  /** What notify_one does to the counts. */
  lemma Notified<X>(at: X -> Stand, wake: X -> X, threads: seq<X>, putters: bool, whom: Option<nat>)
    requires MayNotify(at, threads, putters, whom)
    requires whom.Some? ==> at(wake(threads[whom.value])) == Woken(at(threads[whom.value]))
    ensures var n, n' := Count(at, threads), Count(at, Notify(wake, threads, whom));
      if putters
      then n' == (if n.putWaits > 0 then n.(putWaits := n.putWaits - 1, putWoken := n.putWoken + 1) else n)
      else n' == (if n.getWaits > 0 then n.(getWaits := n.getWaits - 1, getWoken := n.getWoken + 1) else n)
  {
    CountBounds(at, threads);
    match whom
    case Some(k) => CountUpdate(at, threads, k, wake(threads[k]));
    case None => NobodyWaits(at, threads, putters);
  }

  /** Which thread a notification must not be meant for makes no difference while that thread does not wait. */
  lemma SameWaiters<X>(at: X -> Stand, threads: seq<X>, i: nat, t: X, u: X, putters: bool, whom: Option<nat>)
    requires i < |threads| && !Waiting(at(t), putters) && !Waiting(at(u), putters)
    requires MayNotify(at, threads[i := t], putters, whom)
    ensures MayNotify(at, threads[i := u], putters, whom)
  {
    if whom.None? {
      var was, now := threads[i := t], threads[i := u];
      forall k | 0 <= k < |now|
        ensures !Waiting(at(now[k]), putters)
      {
        assert k != i ==> now[k] == was[k];
      }
    }
  }
}
