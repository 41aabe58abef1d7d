/** The intrusive doubly linked list of the handlers of one file descriptor. */
module EventChain {
  import opened Sequences

  type EventId = bv32

  const EVENT_NONE: EventId := 0
  const EVENT_READ: EventId := 1
  const EVENT_WRITE: EventId := 2
  const EVENT_CLOSE: EventId := 4
  const EVENT_ERROR: EventId := 8

  class Handler {
    var prev: Handler?
    var next: Handler?
    var fd: int
    var events: EventId
    var hasCallback: bool
    var enabled: bool
    /** The descriptor in whose list the handler is, -1 if it is in none. */
    ghost var home: int

    constructor (fd: int, events: EventId, hasCallback: bool)
      ensures Detached() && this.fd == fd && this.events == events && this.hasCallback == hasCallback && !enabled
    {
      prev, next, home := null, null, -1;
      this.fd, this.events, this.hasCallback, enabled := fd, events, hasCallback, false;
    }

    /** The constructor that a list head goes through. */
    constructor Head(ghost at: nat)
      ensures prev == null && next == null && events == EVENT_NONE && home == at
    {
      prev, next, home := null, null, at;
      fd, events, hasCallback, enabled := -1, EVENT_NONE, false, false;
    }

    ghost predicate Detached()
      reads `prev, `next, `home
    {
      prev == null && next == null && home == -1
    }
  }

  /** h heads the list of fd, whose handlers are those of c in this order. */
  ghost predicate Chained(h: Handler, c: seq<Handler>, fd: nat)
    reads h`prev, h`next, h`home, h`events, c`prev, c`next, c`home
  {
    && h.home == fd && h.prev == null && h.events == EVENT_NONE
    && h.next == (if c == [] then null else c[0])
    && (c != [] ==> c[0].prev == h && c[|c| - 1].next == null)
    && (forall i, j :: 0 <= i && j == i + 1 && j < |c| ==> c[i].next == c[j] && c[j].prev == c[i])
    && (forall i :: 0 <= i < |c| ==> c[i].home == fd)
    && (forall i, j :: 0 <= i < j < |c| ==> c[i] != c[j])
  }

  ghost function Nodes(c: seq<Handler>): set<Handler> { set x | x in c }

  /** A walk along the list of h comes to handlers of r and never leaves them. */
  ghost predicate Endless(h: Handler, r: seq<Handler>)
    reads h`next, r`next
  {
    h.next != null && h.next in r && forall x :: x in r ==> x.next != null && x.next in r
  }

  lemma {:induction false} StaysInside(h: Handler, r: seq<Handler>, c: seq<Handler>, fd: nat, k: nat)
    requires Endless(h, r) && Chained(h, c, fd) && k < |c|
    ensures c[k] in r
  {
    if k > 0 {
      StaysInside(h, r, c, fd, k - 1);
      assert c[k - 1].next == c[k];
    }
  }

  /** Such a list is no list. */
  lemma EndlessIsNoChain(h: Handler, r: seq<Handler>, c: seq<Handler>, fd: nat)
    requires Endless(h, r)
    ensures !Chained(h, c, fd)
  {
    if Chained(h, c, fd) {
      StaysInside(h, r, c, fd, |c| - 1);
    }
  }

  /** A free handler is linked in front. One that is in the list already makes it endless. */
  method InsertNodeFront(h: Handler, target: Handler, ghost c: seq<Handler>, ghost fd: nat)
    requires Chained(h, c, fd) && (target.Detached() || (target in c && target != h))
    modifies ({h, target} + Nodes(c))`prev, ({h, target} + Nodes(c))`next, target`home
    ensures old(target.Detached()) ==> Chained(h, [target] + c, fd)
    ensures forall k :: 0 <= k < |c| && c[k] == target && !old(target.Detached()) ==> Endless(h, c[..k + 1])
  {
    target.next := h.next;
    target.prev := h;
    if h.next != null {
      h.next.prev := target;
    }
    h.next := target;
    target.home := fd;
    forall k | 0 <= k < |c| && c[k] == target && !old(target.Detached())
      ensures Endless(h, c[..k + 1])
    {
      var r := c[..k + 1];
      assert r[k] == target && r[0] == c[0] && target.next == c[0];
      forall x | x in r
        ensures x.next != null && x.next in r
      {
        var i :| 0 <= i < |r| && r[i] == x;
        if i < k {
          assert old(c[i].next == c[i + 1]) && r[i + 1] == c[i + 1];
        }
      }
    }
  }

  ghost function Removed<T>(c: seq<T>, k: nat): seq<T>
    requires k < |c|
  {
    c[..k] + c[k + 1..]
  }

  lemma RemovedAt<T>(c: seq<T>, k: nat)
    requires k < |c|
    ensures var r := Removed(c, k);
      && |r| == |c| - 1 && (forall i :: 0 <= i < k ==> r[i] == c[i]) && (forall i :: k <= i < |r| ==> r[i] == c[i + 1])
  {
  }

  lemma RemovedMembers<T>(c: seq<T>, k: nat)
    requires k < |c| && forall i, j :: 0 <= i < j < |c| ==> c[i] != c[j]
    ensures forall x :: x in Removed(c, k) <==> x in c && x != c[k]
  {
    var r := Removed(c, k);
    forall x | x in c && x != c[k]
      ensures x in r
    {
      var i :| 0 <= i < |c| && c[i] == x;
      assert r[if i < k then i else i - 1] == x;
    }
  }

  lemma PlaceOf(h: Handler, target: Handler, c: seq<Handler>, fd: nat) returns (k: nat)
    requires Chained(h, c, fd) && target in c
    ensures k < |c| && c[k] == target && Nodes(Removed(c, k)) == Nodes(c) - {target}
  {
    k := Position(c, target);
    RemovedMembers(c, k);
  }

  /** Both RemoveNode and the destructor of a handler that is in a list. */
  method RemoveNode(target: Handler, ghost h: Handler, ghost c: seq<Handler>, ghost k: nat, ghost fd: nat)
    requires Chained(h, c, fd) && k < |c| && c[k] == target
    modifies ({h} + Nodes(c))`prev, ({h} + Nodes(c))`next, target`home
    ensures Chained(h, Removed(c, k), fd) && target.Detached()
  {
    if k > 0 {
      assert c[k].prev == c[k - 1];
    }
    if k + 1 < |c| {
      assert c[k].next == c[k + 1];
    }
    target.prev.next := target.next;
    if target.next != null {
      target.next.prev := target.prev;
    }
    target.prev := null;
    target.next := null;
    target.home := -1;
    ghost var r := Removed(c, k);
    RemovedAt(c, k);
    hide Removed;
    forall i, j | 0 <= i && j == i + 1 && j < |r|
      ensures r[i].next == r[j] && r[j].prev == r[i]
    {
      if j < k {
        assert r[i] == c[i] && r[j] == c[j];
      } else if i >= k {
        assert r[i] == c[i + 1] && r[j] == c[j + 1];
      } else {
        assert r[i] == c[k - 1] && r[j] == c[k + 1];
      }
    }
  }

  /** The first k handlers of the list are taken off, and the k-th before only points to what is left. */
  ghost predicate Detaching(h: Handler, c: seq<Handler>, fd: nat, k: nat)
    reads h`prev, h`next, h`home, h`events, c`prev, c`next, c`home, c`enabled
  {
    && k <= |c| && h.home == fd && h.prev == null && h.events == EVENT_NONE
    && h.next == (if k == 0 && c != [] then c[0] else null)
    && (c != [] ==> c[|c| - 1].next == null)
    && (k < |c| ==> c[k].prev == if k > 0 then c[k - 1] else h)
    && (forall i, j :: k <= i && j == i + 1 && j < |c| ==> c[i].next == c[j] && c[j].prev == c[i])
    && (forall i :: k <= i < |c| ==> c[i].home == fd)
    && (forall i :: 0 <= i < k ==> c[i].home == -1 && c[i].prev == null && !c[i].enabled)
    && (forall i :: 0 <= i < k - 1 ==> c[i].next == null)
    && (k > 0 ==> c[k - 1].next == if k < |c| then c[k] else null)
  }

  /** One round of that. */
  method DetachNext(cur: Handler, ghost h: Handler, ghost c: seq<Handler>, ghost fd: nat, ghost k: nat)
    requires Detaching(h, c, fd, k) && k < |c| && cur == c[k] && h !in c
    requires forall i, j :: 0 <= i < j < |c| ==> c[i] != c[j]
    modifies ({h} + Nodes(c))`prev, ({h} + Nodes(c))`next, Nodes(c)`enabled, Nodes(c)`home
    ensures Detaching(h, c, fd, k + 1)
  {
    cur.prev.next := null;
    cur.prev := null;
    cur.enabled := false;
    cur.home := -1;
  }

  /** The loop of DoClean, which takes the list apart while it walks it. */
  method DetachAll(h: Handler, ghost c: seq<Handler>, ghost fd: nat)
    requires Chained(h, c, fd)
    modifies ({h} + Nodes(c))`prev, ({h} + Nodes(c))`next, Nodes(c)`enabled, Nodes(c)`home
    ensures Chained(h, [], fd)
    ensures forall x :: x in c ==> x.Detached() && !x.enabled
  {
    HeadIsOutside(h, c, fd);
    var cur := h.next;
    ghost var k := 0;
    while cur != null
      invariant Detaching(h, c, fd, k) && cur == if k < |c| then c[k] else null
      decreases |c| - k
    {
      DetachNext(cur, h, c, fd, k);
      cur := cur.next;
      k := k + 1;
    }
  }

  lemma HeadIsOutside(h: Handler, c: seq<Handler>, fd: nat)
    requires Chained(h, c, fd)
    ensures h !in c
  {
    forall k | 0 <= k < |c|
      ensures c[k].prev != null
    {
      assert k > 0 ==> c[k].prev == c[k - 1];
    }
  }

  /** All the events that the handlers of c ask for. */
  ghost function Asked(c: seq<Handler>): EventId
    reads c`events
  {
    if c == [] then EVENT_NONE else c[0].events | Asked(c[1..])
  }

  /** The loop of UpdateToDemultiplexer, head included. */
  method CollectEvents(h: Handler, ghost c: seq<Handler>, ghost fd: nat) returns (emask: EventId)
    requires Chained(h, c, fd)
    ensures emask == Asked(c)
  {
    emask := 0;
    var cur: Handler? := h;
    ghost var k := -1;
    assert c[0..] == c;
    while cur != null
      invariant -1 <= k <= |c|
      invariant cur == if k == -1 then h else if k < |c| then c[k] else null
      invariant emask | Asked(c[if k == -1 then 0 else k..]) == Asked(c)
      decreases |c| - k
    {
      if k >= 0 {
        assert c[k..][1..] == c[k + 1..];
        OrAssoc(emask, cur.events, Asked(c[k + 1..]));
      }
      emask := emask | cur.events;
      cur := cur.next;
      k := k + 1;
    }
  }

  lemma OrAssoc(a: EventId, b: EventId, c: EventId)
    ensures (a | b) | c == a | (b | c)
  {
  }

  /** The walk of HasHandler. */
  method Find(h: Handler, target: Handler, ghost c: seq<Handler>, ghost fd: nat) returns (found: bool)
    requires Chained(h, c, fd) && target != h
    ensures found == (target in c)
  {
    var cur: Handler? := h;
    ghost var k := -1;
    while cur != null
      invariant -1 <= k <= |c|
      invariant cur == if k == -1 then h else if k < |c| then c[k] else null
      invariant k >= 0 ==> target !in c[..k]
      decreases |c| - k
    {
      if cur == target {
        return true;
      }
      cur := cur.next;
      k := k + 1;
    }
    return false;
  }

  predicate Meets(mask: EventId, event: EventId) { mask & event != 0 }

  /** Whether a handler is to be told of event. */
  predicate Concerned(x: Handler, event: EventId)
    reads x
  {
    x.events != EVENT_NONE && x.enabled && Meets(x.events, event) && x.hasCallback
  }

  ghost function AllConcerned(c: seq<Handler>, event: EventId): seq<Handler>
    reads c
  {
    if c == [] then [] else (if Concerned(c[0], event) then [c[0]] else []) + AllConcerned(c[1..], event)
  }

  /** The walk of HandleEvents: whose callbacks are to be called, in list order. */
  method CollectTasks(h: Handler, event: EventId, ghost c: seq<Handler>, ghost fd: nat) returns (tasks: seq<Handler>)
    requires Chained(h, c, fd)
    ensures tasks == AllConcerned(c, event)
  {
    hide AllConcerned, Meets;
    tasks := [];
    var cur := h.next;
    ghost var k, all := 0, AllConcerned(c, event);
    ghost var ahead := all;
    assert c[0..] == c;
    while cur != null
      invariant 0 <= k <= |c| && cur == if k < |c| then c[k] else null
      invariant ahead == AllConcerned(c[k..], event) && all == tasks + ahead
      decreases |c| - k
    {
      AllConcernedAt(c, k, event);
      ahead := AllConcerned(c[k + 1..], event);
      Shift(tasks, cur, ahead);
      if cur.events != EVENT_NONE && cur.enabled && Meets(cur.events, event) && cur.hasCallback {
        tasks := tasks + [cur];
      }
      cur := cur.next;
      k := k + 1;
    }
    NobodyLeft(c[k..], event);
  }

  lemma NobodyLeft(c: seq<Handler>, event: EventId)
    requires c == []
    ensures AllConcerned(c, event) == []
  {
  }

  lemma AllConcernedAt(c: seq<Handler>, k: nat, event: EventId)
    requires k < |c|
    ensures AllConcerned(c[k..], event)
         == if Concerned(c[k], event) then [c[k]] + AllConcerned(c[k + 1..], event) else AllConcerned(c[k + 1..], event)
  {
    assert c[k..][1..] == c[k + 1..];
  }

  lemma Shift<T>(a: seq<T>, x: T, b: seq<T>)
    ensures a + ([x] + b) == (a + [x]) + b
  {
  }
}
