/** The reactor: a list and an interest mask for every descriptor, and the epoll registrations that must follow. */
module EventReactor {
  import opened EventChain
  import opened Sequences

  type EpollMask = bv32

  const EPOLLIN: EpollMask := 0x1
  const EPOLLPRI: EpollMask := 0x2
  const EPOLLOUT: EpollMask := 0x4
  const EPOLLERR: EpollMask := 0x8
  const EPOLLHUP: EpollMask := 0x10
  const EPOLLRDHUP: EpollMask := 0x2000

  const MAX_FD: int := 40000
  const INIT_FD_NUMS: nat := 8
  const EXPANSION_COEFF: int := 2

  function Reactor2Epoll(e: EventId): EpollMask {
    (if e & EVENT_READ != 0 then EPOLLIN | EPOLLPRI else 0)
    | (if e & EVENT_WRITE != 0 then EPOLLOUT else 0)
    | (if e & EVENT_ERROR != 0 then EPOLLERR else 0)
  }

  function Epoll2Reactor(m: EpollMask): EventId {
    (if m & EPOLLHUP != 0 && m & EPOLLIN == 0 then EVENT_CLOSE else EVENT_NONE)
    | (if m & EPOLLERR != 0 then EVENT_ERROR else EVENT_NONE)
    | (if m & (EPOLLIN | EPOLLPRI | EPOLLRDHUP) != 0 then EVENT_READ else EVENT_NONE)
    | (if m & EPOLLOUT != 0 then EVENT_WRITE else EVENT_NONE)
  }

  /**
    * Of a handler's events, epoll is asked for reading, writing and errors, and the answers are those events again.
    * A close is never asked for: it is a hang-up that epoll reports unasked, with nothing left to read. A hang-up
    * with data left is something to read, and so is urgent data, or a peer that has stopped writing.
    */
  lemma MasksCorrespond(e: EventId, m: EpollMask)
    ensures Epoll2Reactor(Reactor2Epoll(e)) == e & (EVENT_READ | EVENT_WRITE | EVENT_ERROR)
    ensures Epoll2Reactor(m) & EVENT_CLOSE != 0 <==> m & EPOLLHUP != 0 && m & EPOLLIN == 0
    ensures Epoll2Reactor(m) & EVENT_READ != 0 <==> m & EPOLLIN != 0 || m & EPOLLPRI != 0 || m & EPOLLRDHUP != 0
    ensures Epoll2Reactor(m) & EVENT_WRITE != 0 <==> m & EPOLLOUT != 0
    ensures Epoll2Reactor(m) & EVENT_ERROR != 0 <==> m & EPOLLERR != 0
    ensures Epoll2Reactor(m) & !(EVENT_READ | EVENT_WRITE | EVENT_CLOSE | EVENT_ERROR) == 0
    ensures Epoll2Reactor(EPOLLHUP | EPOLLIN) == EVENT_READ
  {
  }

  /** What a handler can be told of, but for a close. */
  ghost predicate Reportable(b: EpollMask) { b in {EPOLLIN, EPOLLPRI, EPOLLOUT, EPOLLERR} }

  /** Epoll is asked for each report that would be one of the events, and for nothing else. */
  lemma EachReportAsked(e: EventId, b: EpollMask)
    ensures Reportable(b) ==> (Meets(Reactor2Epoll(e), b) <==> Meets(e, Epoll2Reactor(b)))
    ensures Reactor2Epoll(e) & !(EPOLLIN | EPOLLPRI | EPOLLOUT | EPOLLERR) == 0
    ensures Reactor2Epoll(e) & EPOLLIN != 0 <==> e & EVENT_READ != 0
  {
  }

  datatype ErrCode = OK | FAILED | ALREADY_STARTED | NOT_FOUND | BADF | BADEVENT

  datatype Op = ADD | MOD | DEL

  /** The epoll backend. Whether the system call succeeds is the caller's to say. */
  class Epoll {
    var interestFds: set<int>
    /** The registrations that the system holds. */
    ghost var registered: map<int, EpollMask>

    ghost predicate Valid()
      reads this
    {
      interestFds == registered.Keys
    }

    constructor ()
      ensures Valid() && registered == map[]
    {
      interestFds, registered := {}, map[];
    }

    method OperateEpoll(op: Op, fd: int, mask: EpollMask, kernelOk: bool) returns (ok: bool)
      requires Valid() && (op == ADD <==> fd !in interestFds)
      modifies this
      ensures Valid() && ok == kernelOk
      ensures registered == if !ok then old(registered) else if op == DEL then old(registered) - {fd}
                            else old(registered)[fd := mask]
    {
      if !kernelOk {
        return false;
      }
      match op {
        case ADD =>
          interestFds := interestFds + {fd};
        case DEL =>
          interestFds := interestFds - {fd};
        case MOD =>
      }
      registered := if op == DEL then registered - {fd} else registered[fd := mask];
      return true;
    }

    method ModifyEvents(fd: int, events: EventId, kernelOk: bool) returns (res: ErrCode)
      requires Valid()
      modifies this
      ensures Valid() && res == if fd == -1 then BADF else if kernelOk then OK else FAILED
      ensures res != OK ==> registered == old(registered)
      ensures res == OK && events == EVENT_NONE && fd in old(registered) ==> registered == old(registered) - {fd}
      ensures res == OK && !(events == EVENT_NONE && fd in old(registered)) ==>
        registered == old(registered)[fd := Reactor2Epoll(events)]
    {
      hide Reactor2Epoll;
      if fd == -1 {
        return BADF;
      }
      var op := ADD;
      if fd in interestFds {
        op := if events == EVENT_NONE then DEL else MOD;
      }
      var ok := OperateEpoll(op, fd, Reactor2Epoll(events), kernelOk);
      return if ok then OK else FAILED;
    }
  }

  /** The system watches fd for events, or not at all if there are none. */
  ghost predicate Mirrors(registered: map<int, EpollMask>, fd: int, events: EventId) {
    if events == EVENT_NONE then fd !in registered else fd in registered && registered[fd] == Reactor2Epoll(events)
  }

  lemma NothingMirrored(registered: map<int, EpollMask>, fd: int)
    requires fd !in registered
    ensures Mirrors(registered, fd, EVENT_NONE)
  {
  }

  lemma MirrorsStill(was: map<int, EpollMask>, now: map<int, EpollMask>, masks: seq<EventId>, fd: nat, events: EventId)
    requires fd < |masks| && events != masks[fd]
    requires forall gd :: 0 <= gd < |masks| ==> Mirrors(was, gd, masks[gd])
    requires forall gd :: gd in was ==> 0 <= gd < |masks|
    requires now == if events == EVENT_NONE && fd in was then was - {fd} else was[fd := Reactor2Epoll(events)]
    ensures var m := masks[fd := events]; forall gd :: 0 <= gd < |m| ==> Mirrors(now, gd, m[gd])
    ensures forall gd :: gd in now ==> 0 <= gd < |masks|
  {
    hide Reactor2Epoll;
    assert Mirrors(was, fd, masks[fd]);
  }

  /**
    * What a program does with its handlers: a change of events is announced at once, the descriptor is changed only
    * while the handler is in no list, and a handler is removed before it is destroyed, and not used again. Clean
    * and HandleEvents index the table unchecked: a program cleans only descriptors that are in it by then.
    */
  datatype Command =
    | Add(h: Handler) | Change(h: Handler, events: EventId) | Move(h: Handler, newFd: int) | Remove(h: Handler)
    | Discard(h: Handler) | CleanUp(fd: nat)

  ghost predicate Mentions(c: Command, h: Handler) { !c.CleanUp? && c.h == h }

  ghost predicate NotUsedAgain(commands: seq<Command>) {
    forall i, j :: 0 <= i < j < |commands| && commands[i].Discard? ==> !Mentions(commands[j], commands[i].h)
  }

  class Reactor {
    /** ioHandlers_, its two fields side by side: the list head and the stored interest mask of each descriptor. */
    var heads: seq<Handler>
    var masks: seq<EventId>
    const backend: Epoll
    /** The handlers of each descriptor, in list order. */
    ghost var chains: seq<seq<Handler>>
    /** All heads and all handlers in lists. */
    ghost var nodes: set<Handler>
    /** The handlers that the program uses with this reactor, in lists or not. */
    ghost var clients: set<Handler>

    ghost predicate Shape()
      reads this`heads, this`chains, this`nodes
    {
      && |chains| == |heads|
      && (forall fd :: 0 <= fd < |heads| ==> heads[fd] in nodes)
      && (forall fd, x :: 0 <= fd < |chains| && x in chains[fd] ==> x in nodes)
    }

    /** Every list is linked as its chain says, and every node is the head or a handler of its home. */
    ghost predicate Linked()
      requires Shape()
      reads this`heads, this`chains, this`nodes, nodes`prev, nodes`next, nodes`home, nodes`events
    {
      && (forall fd :: 0 <= fd < |chains| ==> Chained(heads[fd], chains[fd], fd))
      && (forall x :: x in nodes ==> Settled(x))
    }

    /** A handler of the program is in a list here, or in none anywhere; it is never a list head. */
    ghost predicate Served()
      requires Shape()
      reads this`heads, this`chains, this`nodes, this`clients, clients`prev, clients`next, clients`home
    {
      forall x :: x in clients ==> Usable(x)
    }

    ghost predicate Usable(x: Handler)
      reads this`chains, this`nodes, x`prev, x`next, x`home
    {
      if x in nodes then 0 <= x.home < |chains| && x in chains[x.home] else x.Detached()
    }

    ghost predicate Settled(x: Handler)
      requires Shape()
      reads this`heads, this`chains, this`nodes, x`home
    {
      0 <= x.home < |chains| && (x == heads[x.home] || x in chains[x.home])
    }

    ghost predicate Mirrored()
      reads this`masks, backend
    {
      && backend.Valid()
      && (forall fd :: 0 <= fd < |masks| ==> Mirrors(backend.registered, fd, masks[fd]))
      && (forall fd :: fd in backend.registered ==> 0 <= fd < |masks|)
    }

    ghost predicate Valid()
      reads this, backend, nodes`prev, nodes`next, nodes`home, nodes`events, clients`prev, clients`next, clients`home
    {
      Shape() && Linked() && Served() && Mirrored() && |heads| == |masks| >= INIT_FD_NUMS
    }

    /** The handlers of fd, and the mask that is stored for it; none for a descriptor beyond the table. */
    ghost function ChainOf(fd: nat): seq<Handler>
      reads this`chains
    {
      if fd < |chains| then chains[fd] else []
    }

    ghost function MaskOf(fd: nat): EventId
      reads this`masks
    {
      if fd < |masks| then masks[fd] else EVENT_NONE
    }

    /** The stored mask of fd is what its handlers ask for. */
    ghost predicate Exact(fd: nat)
      reads this`masks, this`chains, ChainOf(fd)`events
    {
      MaskOf(fd) == Asked(ChainOf(fd))
    }

    /** Every mask, and so every registration, is what the handlers ask for. */
    ghost predicate AllExact()
      requires Shape()
      reads this`heads, this`masks, this`chains, this`nodes, nodes`events
    {
      forall fd: nat :: Exact(fd)
    }

    lemma MemberHasPredecessor(x: Handler)
      requires Valid() && x in clients
      ensures x.prev != null <==> x in nodes
    {
      if x in nodes {
        var c := chains[x.home];
        var k :| 0 <= k < |c| && c[k] == x;
        if k > 0 {
          assert c[k].prev == c[k - 1];
        }
      }
    }

    lemma NotAHead(x: Handler)
      requires Valid() && x in clients
      ensures forall fd :: 0 <= fd < |heads| ==> x != heads[fd]
    {
      if x in nodes {
        ListsApart(x.home);
      }
      assert forall fd :: 0 <= fd < |heads| ==> Chained(heads[fd], chains[fd], fd);
    }

    /** A handler has a predecessor exactly when it is in a list, and then it is in no other. */
    lemma MembersHavePredecessors(x: Handler)
      requires Valid() && x in clients
      ensures x.prev != null <==> exists fd: nat :: x in ChainOf(fd)
      ensures forall fd: nat, gd: nat :: x in ChainOf(fd) && x in ChainOf(gd) ==> fd == gd
    {
      if x in nodes {
        var c := ChainOf(x.home);
        var k :| 0 <= k < |c| && c[k] == x;
        if k > 0 {
          assert c[k].prev == c[k - 1];
        }
      }
    }

    constructor ()
      ensures Valid() && fresh(backend) && fresh(nodes) && clients == {} && |chains| == INIT_FD_NUMS
      ensures forall fd: nat :: ChainOf(fd) == [] && MaskOf(fd) == EVENT_NONE
    {
      backend := new Epoll();
      heads, masks, chains, nodes, clients := [], [], [], {}, {};
      new;
      Resize(INIT_FD_NUMS);
    }

    /** More descriptors, each with a fresh list head. */
    method Resize(n: nat)
      requires Shape() && Linked() && Served() && Mirrored() && |heads| == |masks| <= n
      modifies this`heads, this`masks, this`chains, this`nodes
      ensures Shape() && Linked() && Served() && Mirrored() && |heads| == |masks| == n
      ensures old(nodes) <= nodes && fresh(nodes - old(nodes))
      ensures forall fd: nat :: ChainOf(fd) == old(ChainOf(fd)) && MaskOf(fd) == old(MaskOf(fd))
    {
      hide Shape, Linked, Served, Mirrors;
      while |heads| < n
        invariant |heads| == |masks| <= n && Shape() && Linked() && Served() && Mirrored()
        invariant old(nodes) <= nodes && fresh(nodes - old(nodes))
        invariant forall fd: nat :: ChainOf(fd) == old(ChainOf(fd)) && MaskOf(fd) == old(MaskOf(fd))
      {
        AddHead();
        NothingMirrored(backend.registered, |masks|);
        masks := masks + [EVENT_NONE];
      }
    }

    method AddHead()
      requires Shape() && Linked() && Served()
      modifies this`heads, this`chains, this`nodes
      ensures Shape() && Linked() && Served() && |heads| == |old(heads)| + 1
      ensures old(nodes) <= nodes && fresh(nodes - old(nodes))
      ensures forall fd: nat :: ChainOf(fd) == old(ChainOf(fd))
    {
      hide Chained;
      var h := new Handler.Head(|heads|);
      EmptyChain(h, |heads|);
      heads, chains, nodes := heads + [h], chains + [[]], nodes + {h};
      forall fd | 0 <= fd < |chains|
        ensures Chained(heads[fd], chains[fd], fd)
      {
        assert fd < |old(chains)| ==> old(Chained(heads[fd], chains[fd], fd));
      }
    }

    /** Recompute the mask of fd, and tell the backend if it changed. */
    method UpdateToDemultiplexer(fd: nat, kernelOk: bool) returns (ok: bool)
      requires Valid() && fd < |heads|
      modifies this`masks, backend
      ensures Valid() && ok == (kernelOk || old(Exact(fd)))
      ensures if ok then Exact(fd) else masks == old(masks)
      ensures forall gd: nat :: gd != fd ==> MaskOf(gd) == old(MaskOf(gd))
    {
      hide Reactor2Epoll, Asked, Chained, Mirrors, Settled, Served;
      var emask := CollectEvents(heads[fd], chains[fd], fd);
      if emask == masks[fd] {
        return true;
      }
      var res := backend.ModifyEvents(fd, emask, kernelOk);
      if res != OK {
        return false;
      }
      MirrorsStill(old(backend.registered), backend.registered, masks, fd, emask);
      masks := masks[fd := emask];
      return true;
    }

    /** The lists of different descriptors have no node in common, and none of them holds a head. */
    lemma ListsApart(fd: nat)
      requires Shape() && Linked() && fd < |heads|
      ensures ListApart(fd)
    {
      assert forall gd :: 0 <= gd < |heads| ==> Chained(heads[gd], chains[gd], gd);
      forall x | x in chains[fd]
        ensures x != heads[fd]
      {
        var c := chains[fd];
        var k :| 0 <= k < |c| && c[k] == x;
        if k > 0 {
          assert c[k].prev == c[k - 1];
        }
      }
    }

    method Insert(fd: nat, target: Handler)
      requires Shape() && Linked() && Served() && fd < |heads| && target in clients - nodes
      modifies this`chains, this`nodes, nodes`prev, nodes`next, target`prev, target`next, target`home
      ensures Shape() && Linked() && Served() && nodes == old(nodes) + {target} && target.home == fd
      ensures chains == old(chains)[fd := [target] + old(chains[fd])]
    {
      hide Chained;
      ListsApart(fd);
      ghost var c := chains[fd];
      InsertNodeFront(heads[fd], target, c, fd);
      chains, nodes := chains[fd := [target] + c], nodes + {target};
      forall x | x in clients
        ensures Usable(x)
      {
        assert old(Usable(x));
      }
      forall x | x in nodes
        ensures Settled(x)
      {
        assert x != target ==> old(Settled(x)) && x.home == old(x.home);
      }
      forall gd | 0 <= gd < |chains|
        ensures Chained(heads[gd], chains[gd], gd)
      {
        assert gd != fd ==> old(Chained(heads[gd], chains[gd], gd));
      }
    }

    ghost predicate ListApart(fd: nat)
      requires fd < |heads| == |chains|
      reads this`heads, this`chains
    {
      && (forall gd :: 0 <= gd < |heads| && gd != fd ==> heads[gd] != heads[fd] && heads[gd] !in chains[fd])
      && (forall gd, x :: 0 <= gd < |chains| && gd != fd && x in chains[gd] ==> x != heads[fd] && x !in chains[fd])
      && heads[fd] !in chains[fd]
    }

    /** Where each node was at home before some of them, all from one list, were let go. */
    ghost predicate WereSettled(chains0: seq<seq<Handler>>, nodes0: set<Handler>, gone: set<Handler>)
      requires |heads| == |chains0|
      reads this`heads, this`clients, nodes0`home, clients`prev, clients`next, clients`home
    {
      && (forall gd :: 0 <= gd < |heads| ==> heads[gd] in nodes0 && heads[gd] !in gone)
      && (forall gd, x :: 0 <= gd < |chains0| && x in chains0[gd] ==> x in nodes0)
      && (forall x :: x in nodes0 && x !in gone ==>
            0 <= x.home < |chains0| && (x == heads[x.home] || x in chains0[x.home]))
      && (forall x :: x in clients && x !in gone ==>
            if x in nodes0 then 0 <= x.home < |chains0| && x in chains0[x.home] else x.Detached())
    }

    /** What is left of the list of fd, and the other lists as they were, are all that the rest needs. */
    lemma StillLinked(fd: nat, left: seq<Handler>, gone: set<Handler>, chains0: seq<seq<Handler>>, nodes0: set<Handler>)
      requires fd < |heads| == |chains0| && WereSettled(chains0, nodes0, gone)
      requires chains == chains0[fd := left] && nodes == nodes0 - gone && Nodes(left) == Nodes(chains0[fd]) - gone
      requires forall x :: x in gone ==> x.Detached()
      requires forall gd, x :: 0 <= gd < |chains0| && gd != fd && x in chains0[gd] ==> x !in gone
      requires forall gd :: 0 <= gd < |chains| ==> Chained(heads[gd], chains[gd], gd)
      ensures Shape() && Linked() && Served()
    {
      hide Chained;
      assert forall x :: x in left <==> x in Nodes(left);
      assert forall x :: x in chains0[fd] <==> x in Nodes(chains0[fd]);
    }

    /** The pointers alone. */
    method Loosen(ghost fd: nat, target: Handler) returns (ghost k: nat)
      requires Shape() && Linked() && Served() && fd < |heads| && target in chains[fd]
      modifies nodes`prev, nodes`next, target`home
      ensures k < |chains[fd]| && chains[fd][k] == target && target.Detached()
      ensures Chained(heads[fd], Removed(chains[fd], k), fd)
      ensures Nodes(Removed(chains[fd], k)) == Nodes(chains[fd]) - {target}
      ensures forall gd :: 0 <= gd < |chains| && gd != fd ==>
        Chained(heads[gd], chains[gd], gd) && target !in chains[gd]
      ensures WereSettled(chains, nodes, {target})
    {
      ListsApart(fd);
      ghost var c := chains[fd];
      assert Chained(heads[fd], c, fd);
      k := PlaceOf(heads[fd], target, c, fd);
      hide Chained, Removed, Nodes;
      RemoveNode(target, heads[fd], c, k, fd);
      forall gd | 0 <= gd < |chains| && gd != fd
        ensures Chained(heads[gd], chains[gd], gd)
      {
        assert old(Chained(heads[gd], chains[gd], gd));
      }
      assert WereSettled(chains, nodes, {target}) by {
        assert forall x :: x in nodes && x != target ==> old(Settled(x)) && x.home == old(x.home);
        assert forall x :: x in clients && x != target ==> old(Usable(x)) && x.home == old(x.home);
      }
    }

    method Unlink(ghost fd: nat, target: Handler) returns (ghost k: nat)
      requires Shape() && Linked() && Served() && fd < |heads| && target in chains[fd]
      modifies this`chains, this`nodes, nodes`prev, nodes`next, target`home
      ensures Shape() && Linked() && Served() && nodes == old(nodes) - {target} && target.Detached()
      ensures k < |old(chains)[fd]| && old(chains)[fd][k] == target
      ensures chains == old(chains)[fd := Removed(old(chains)[fd], k)]
    {
      hide Chained, Removed, Settled, Served, WereSettled;
      k := Loosen(fd, target);
      ghost var left, gone, chains0, nodes0 := Removed(chains[fd], k), {target}, chains, nodes;
      chains, nodes := chains[fd := left], nodes - gone;
      StillLinked(fd, left, gone, chains0, nodes0);
    }

    /** The list of fd is let go; its handlers can be used again. */
    method Release(fd: nat)
      requires Shape() && Linked() && Served() && fd < |heads|
      modifies this`chains, this`nodes, nodes`prev, nodes`next, nodes`home, nodes`enabled
      ensures Shape() && Linked() && Served() && chains == old(chains)[fd := []]
      ensures nodes == old(nodes) - Nodes(old(chains)[fd])
      ensures forall x :: x in old(chains)[fd] ==> x.Detached() && !x.enabled
      ensures forall x :: x in nodes ==> x.enabled == old(x.enabled)
    {
      hide Chained;
      ListsApart(fd);
      ghost var c := chains[fd];
      DetachAll(heads[fd], c, fd);
      chains, nodes := chains[fd := []], nodes - Nodes(c);
      forall gd | 0 <= gd < |chains|
        ensures Chained(heads[gd], chains[gd], gd)
      {
        assert gd != fd ==> old(Chained(heads[gd], chains[gd], gd));
      }
      StillLinked(fd, [], Nodes(c), old(chains), old(nodes));
    }

    method HasHandler(target: Handler) returns (found: bool)
      requires Valid() && target in clients
      ensures found == (0 <= target.fd < |heads| && target in chains[target.fd])
    {
      if target.fd < 0 || target.fd >= |heads| {
        return false;
      }
      NotAHead(target);
      found := Find(heads[target.fd], target, chains[target.fd], target.fd);
    }

    /** Room for the descriptor, and the handler in front of the others. */
    method Admit(target: Handler)
      requires Valid() && target in clients - nodes && 0 <= target.fd
      modifies this`heads, this`masks, this`chains, this`nodes, nodes`prev, nodes`next
      modifies target`prev, target`next, target`home
      ensures Valid() && target in nodes && target.home == target.fd < |heads| && |heads| >= old(|heads|)
      ensures fresh(nodes - old(nodes) - clients)
      ensures ChainOf(target.fd) == [target] + old(ChainOf(target.fd))
      ensures forall fd: nat :: fd != target.fd ==> ChainOf(fd) == old(ChainOf(fd))
      ensures forall fd: nat :: MaskOf(fd) == old(MaskOf(fd))
    {
      hide Chained, Reactor2Epoll, Mirrors, Linked, Mirrored, Settled;
      if target.fd > |heads| - 1 {
        Resize(target.fd * EXPANSION_COEFF);
      }
      Insert(target.fd, target);
    }

    /** The part of AddHandler under the lock. */
    method Enlist(target: Handler, kernelOk: bool) returns (ok: bool)
      requires Valid() && target in clients - nodes && 0 <= target.fd <= MAX_FD
      modifies this`heads, this`masks, this`chains, this`nodes, backend, nodes`prev, nodes`next
      modifies target`prev, target`next, target`home, target`enabled
      ensures Valid() && target in nodes && |heads| >= old(|heads|)
      ensures fresh(nodes - old(nodes) - clients)
      ensures ChainOf(target.fd) == [target] + old(ChainOf(target.fd))
      ensures forall fd: nat :: fd != target.fd ==> ChainOf(fd) == old(ChainOf(fd))
      ensures forall fd: nat :: fd != target.fd ==> MaskOf(fd) == old(MaskOf(fd))
      ensures kernelOk ==> ok
      ensures ok ==> target.enabled && (old(Exact(target.fd)) ==> Exact(target.fd))
      ensures !ok ==> target.enabled == old(target.enabled)
    {
      hide Chained, Asked, Linked, Mirrored, Settled, Shape;
      var fd := target.fd;
      ghost var c := ChainOf(fd);
      Admit(target);
      var covered := AlreadyCovered(fd, target, c);
      ok := covered;
      if !covered {
        ok := UpdateToDemultiplexer(fd, kernelOk);
      }
      if ok {
        target.enabled := true;
      }
    }

    /** The shortcut: if the mask has all of the new handler's events, it is still what the handlers ask for. */
    method AlreadyCovered(fd: nat, target: Handler, ghost c: seq<Handler>) returns (covered: bool)
      requires fd < |masks| && ChainOf(fd) == [target] + c
      ensures covered && MaskOf(fd) == Asked(c) ==> Exact(fd)
    {
      hide Covers, Asked;
      covered := Covers(masks[fd], target.events);
      if covered {
        AskedFront(target, c);
        Covered(masks[fd], target.events);
      }
    }

    /** A handler at the front of its descriptor's list; the backend hears of it only if the mask lacks its events. */
    method AddHandler(target: Handler?, kernelOk: bool) returns (res: ErrCode)
      requires Valid() && (target != null ==> target in clients)
      modifies this`heads, this`masks, this`chains, this`nodes, backend, nodes`prev, nodes`next
      modifies OneOf(target)`prev, OneOf(target)`next, OneOf(target)`home, OneOf(target)`enabled
      ensures Valid() && |heads| >= old(|heads|) && res in {NOT_FOUND, BADF, ALREADY_STARTED, OK, FAILED}
      ensures fresh(nodes - old(nodes) - clients)
      ensures target == null <==> res == NOT_FOUND
      ensures target != null ==> (res == BADF <==> !(0 <= target.fd <= MAX_FD))
      ensures target != null && 0 <= target.fd <= MAX_FD ==> (res == ALREADY_STARTED <==> target in old(nodes))
      ensures res in {NOT_FOUND, BADF, ALREADY_STARTED} ==> chains == old(chains) && masks == old(masks)
      ensures res in {BADF, ALREADY_STARTED, FAILED} ==> target.enabled == old(target.enabled)
      ensures res in {OK, FAILED} ==> ChainOf(target.fd) == [target] + old(ChainOf(target.fd))
      ensures res in {OK, FAILED} ==> forall fd: nat :: fd != target.fd ==> ChainOf(fd) == old(ChainOf(fd))
      ensures forall fd: nat :: target == null || fd != target.fd ==> MaskOf(fd) == old(MaskOf(fd))
      ensures res == FAILED ==> !kernelOk
      ensures res == OK ==> target.enabled && (old(Exact(target.fd)) ==> Exact(target.fd))
    {
      hide Chained, Asked, Mirrored, Linked, Served, ChainOf, MaskOf, Exact;
      if target == null {
        return NOT_FOUND;
      }
      if target.fd < 0 || target.fd > MAX_FD {
        return BADF;
      }
      MemberHasPredecessor(target);
      if target.prev != null {
        return ALREADY_STARTED;
      }
      var ok := Enlist(target, kernelOk);
      return if ok then OK else FAILED;
    }

    /** The handler leaves its list even if the backend cannot be told. */
    method RemoveHandler(target: Handler?, kernelOk: bool) returns (res: ErrCode)
      requires Valid() && (target != null ==> target in clients)
      modifies this`masks, this`chains, this`nodes, backend, nodes`prev, nodes`next
      modifies OneOf(target)`home, OneOf(target)`enabled
      ensures Valid() && res in {NOT_FOUND, BADF, OK, FAILED}
      ensures nodes <= old(nodes)
      ensures target == null ==> res == NOT_FOUND
      ensures target != null ==> (res == BADF <==> !(0 <= target.fd <= MAX_FD))
      ensures target != null && 0 <= target.fd <= MAX_FD ==> (res == NOT_FOUND <==> target !in old(ChainOf(target.fd)))
      ensures res in {NOT_FOUND, BADF} ==> chains == old(chains) && masks == old(masks)
      ensures res in {OK, FAILED} ==>
        target.Detached() && IsWithout(ChainOf(target.fd), old(ChainOf(target.fd)), target)
      ensures res in {OK, FAILED} ==> forall fd: nat :: fd != target.fd ==> ChainOf(fd) == old(ChainOf(fd))
      ensures forall fd: nat :: target == null || fd != target.fd ==> MaskOf(fd) == old(MaskOf(fd))
      ensures res == FAILED ==> !kernelOk
      ensures res == OK ==> !target.enabled && Exact(target.fd)
      ensures res == BADF ==> target.enabled == old(target.enabled)
      ensures target != null && 0 <= target.fd <= MAX_FD && res in {NOT_FOUND, FAILED} ==> target.enabled
    {
      hide Chained, Asked, Mirrored, Linked, Served, Exact;
      if target == null {
        return NOT_FOUND;
      }
      if target.fd < 0 || target.fd > MAX_FD {
        return BADF;
      }
      target.enabled := false;
      var found := HasHandler(target);
      if !found {
        target.enabled := true;
        return NOT_FOUND;
      }
      ghost var k := Unlink(target.fd, target);
      var ok := UpdateToDemultiplexer(target.fd, kernelOk);
      if !ok {
        target.enabled := true;
        return FAILED;
      }
      return OK;
    }

    /** After the events of a handler have changed: the mask follows, and a handler in no list is added. */
    method UpdateHandler(target: Handler?, kernelOk: bool) returns (res: ErrCode)
      requires Valid() && (target != null ==> target in clients)
      modifies this`heads, this`masks, this`chains, this`nodes, backend, nodes`prev, nodes`next
      modifies OneOf(target)`prev, OneOf(target)`next, OneOf(target)`home, OneOf(target)`enabled
      ensures Valid() && |heads| >= old(|heads|) && res in {NOT_FOUND, BADF, OK, FAILED}
      ensures fresh(nodes - old(nodes) - clients)
      ensures target == null ==> res == NOT_FOUND
      ensures target != null ==> (res == BADF <==> !(0 <= target.fd <= MAX_FD))
      ensures target != null && 0 <= target.fd <= MAX_FD ==>
        (res == NOT_FOUND <==> target in old(nodes) && target !in old(ChainOf(target.fd)))
      ensures res in {NOT_FOUND, BADF} || target in old(nodes) ==> chains == old(chains)
      ensures res in {NOT_FOUND, BADF} ==> masks == old(masks)
      ensures target != null && target in old(nodes) && res == OK ==> Exact(target.fd)
      ensures res in {OK, FAILED} && target !in old(nodes) ==>
        ChainOf(target.fd) == [target] + old(ChainOf(target.fd)) &&
        forall fd: nat :: fd != target.fd ==> ChainOf(fd) == old(ChainOf(fd))
      ensures res == OK && old(Exact(target.fd)) ==> Exact(target.fd)
      ensures forall fd: nat :: target == null || fd != target.fd ==> MaskOf(fd) == old(MaskOf(fd))
      ensures res == FAILED ==> !kernelOk
      ensures target != null ==>
        target.enabled == (old(target.enabled) || (target !in old(nodes) && res == OK))
    {
      hide Chained, Asked, Mirrored, Linked, Served, Exact;
      if target == null {
        return NOT_FOUND;
      }
      if target.fd < 0 || target.fd > MAX_FD {
        return BADF;
      }
      MemberHasPredecessor(target);
      if target.prev != null {
        var found := HasHandler(target);
        if !found {
          return NOT_FOUND;
        }
        var ok := UpdateToDemultiplexer(target.fd, kernelOk);
        return if ok then OK else FAILED;
      }
      res := AddHandler(target, kernelOk);
    }

    method FindHandler(target: Handler?) returns (res: ErrCode)
      requires Valid() && (target != null ==> target in clients)
      ensures res == if target == null then NOT_FOUND else if !(0 <= target.fd <= MAX_FD) then BADF
                     else if target in ChainOf(target.fd) then OK else NOT_FOUND
    {
      if target == null {
        return NOT_FOUND;
      }
      if target.fd < 0 || target.fd > MAX_FD {
        return BADF;
      }
      var found := HasHandler(target);
      return if found then OK else NOT_FOUND;
    }

    /** An exact mask, mirrored: of each report the system is asked for exactly if some handler wants such an event. */
    lemma WatchedExactly(fd: nat, b: EpollMask)
      requires Valid() && Exact(fd) && Reportable(b)
      ensures (fd in backend.registered && Meets(backend.registered[fd], b))
         <==> exists x :: x in ChainOf(fd) && Meets(x.events, Epoll2Reactor(b))
    {
      hide Chained, Linked, Served, Reactor2Epoll, Epoll2Reactor, Asked, Meets, Reportable;
      AskedBySome(ChainOf(fd), Epoll2Reactor(b));
      EachReportAsked(MaskOf(fd), b);
      NothingMeets(Epoll2Reactor(b));
      if fd < |masks| {
        assert Mirrors(backend.registered, fd, masks[fd]);
      }
    }

    /** The callbacks that an event calls, in list order. */
    method HandleEvents(fd: nat, event: EventId) returns (res: ErrCode, tasks: seq<Handler>)
      requires Valid() && fd < |heads|
      ensures res == if Meets(MaskOf(fd), event) then OK else BADEVENT
      ensures tasks == if res == OK then AllConcerned(ChainOf(fd), event) else []
      ensures Exact(fd) ==> tasks == AllConcerned(ChainOf(fd), event)
      ensures Exact(fd) ==> forall x :: x in tasks <==> IsDue(x, ChainOf(fd), event)
      ensures exists places :: InOrderOf(tasks, ChainOf(fd), places)
    {
      hide Asked, AllConcerned, Meets, Concerned, IsDue, Wants;
      if !Meets(masks[fd], event) {
        ConcernedExactly(ChainOf(fd), event);
        assert InOrderOf([], ChainOf(fd), []);
        if Exact(fd) {
          NobodyMissed(ChainOf(fd), event);
        }
        return BADEVENT, [];
      }
      tasks := CollectTasks(heads[fd], event, chains[fd], fd);
      ConcernedExactly(ChainOf(fd), event);
      ghost var places := ConcernedInOrder(ChainOf(fd), event);
      return OK, tasks;
    }

    /** A handler that AddHandler took is called for every event that it asked for. */
    method AddThenHandle(target: Handler, event: EventId, kernelOk: bool) returns (res: ErrCode, tasks: seq<Handler>)
      requires Valid() && target in clients && target.hasCallback && Meets(target.events, event)
      requires forall fd: nat :: fd == target.fd ==> Exact(fd)
      modifies this`heads, this`masks, this`chains, this`nodes, backend, nodes`prev, nodes`next
      modifies target`prev, target`next, target`home, target`enabled
      ensures res == OK ==> target in tasks
    {
      hide Chained, Asked, Mirrored, Linked, Served, Exact, Valid, AllConcerned, Concerned;
      tasks := [];
      res := AddHandler(target, kernelOk);
      ShapeOf();
      if res == OK {
        var answer;
        assert target in ChainOf(target.fd);
        answer, tasks := HandleEvents(target.fd, event);
      }
    }

    /** A handler that RemoveHandler let go is called for no event of any descriptor. */
    method RemoveThenHandle(target: Handler, fd: nat, event: EventId, kernelOk: bool)
      returns (res: ErrCode, tasks: seq<Handler>)
      requires Valid() && target in clients && fd < |heads|
      modifies this`masks, this`chains, this`nodes, backend, nodes`prev, nodes`next, target`home, target`enabled
      ensures res == OK ==> target !in tasks
    {
      hide Chained, Asked, Mirrored, Linked, Served, Exact, AllConcerned, Concerned;
      tasks := [];
      res := RemoveHandler(target, kernelOk);
      if res == OK {
        var answer;
        answer, tasks := HandleEvents(fd, event);
        ConcernedExactly(ChainOf(fd), event);
      }
    }

    method DoClean(fd: nat, kernelOk: bool) returns (ok: bool)
      requires Valid() && fd < |heads|
      modifies this`masks, this`chains, this`nodes, backend, nodes`prev, nodes`next, nodes`home, nodes`enabled
      ensures Valid() && chains == old(chains)[fd := []]
      ensures fresh(nodes - old(nodes) - clients)
      ensures forall x :: x in old(ChainOf(fd)) ==> x.Detached() && !x.enabled
      ensures forall x :: x in old(nodes) && x !in old(ChainOf(fd)) ==> x.enabled == old(x.enabled)
      ensures forall gd: nat :: gd != fd ==> MaskOf(gd) == old(MaskOf(gd))
      ensures (!ok ==> !kernelOk) && (ok ==> old(Exact(fd)) || old(ChainOf(fd)) != [] ==> Exact(fd))
    {
      assert Chained(heads[fd], chains[fd], fd);
      if heads[fd].next == null {
        assert chains[fd] == [];
        return true;
      }
      hide Chained, Asked, Mirrored, Linked, Served, Exact;
      Release(fd);
      ok := UpdateToDemultiplexer(fd, kernelOk);
    }

    method Clean(fd: int, kernelOk: bool) returns (res: ErrCode)
      requires Valid() && -1 <= fd < |heads|
      modifies this`masks, this`chains, this`nodes, backend, nodes`prev, nodes`next, nodes`home, nodes`enabled
      ensures Valid() && res in {BADF, OK, FAILED} && (res == BADF <==> fd == -1)
      ensures fresh(nodes - old(nodes) - clients)
      ensures chains == if fd == -1 then old(chains) else old(chains)[fd := []]
      ensures fd != -1 ==> forall x :: x in old(ChainOf(fd)) ==> x.Detached() && !x.enabled
      ensures forall x :: x in old(nodes) && (fd == -1 || x !in old(ChainOf(fd))) ==> x.enabled == old(x.enabled)
      ensures forall gd: nat :: gd != fd ==> MaskOf(gd) == old(MaskOf(gd))
      ensures res == FAILED ==> !kernelOk
      ensures res == OK && old(Exact(fd)) ==> Exact(fd)
    {
      hide Chained, Asked, Mirrored, Linked, Served, Exact;
      if fd == -1 {
        return BADF;
      }
      var ok := DoClean(fd, kernelOk);
      return if ok then OK else FAILED;
    }

    /** A handler leaves its list, if it is in one, and the reactor. */
    method Leave(target: Handler)
      requires Valid() && target in clients
      modifies this`chains, this`nodes, this`clients, nodes`prev, nodes`next, target`home
      ensures Valid() && clients == old(clients) - {target} && target.Detached()
      ensures nodes == old(nodes) - {target} && masks == old(masks)
      ensures forall fd: nat :: if target in old(ChainOf(fd)) then IsWithout(ChainOf(fd), old(ChainOf(fd)), target)
                                else ChainOf(fd) == old(ChainOf(fd))
    {
      hide Chained, Mirrored, Linked, Settled;
      MemberHasPredecessor(target);
      MembersHavePredecessors(target);
      if target.prev != null {
        ghost var k := Unlink(target.home, target);
      }
      clients := clients - {target};
    }

    /** The destructor of a handler takes it out of its list; the mask is left as it is, and so may ask for too much. */
    method Destroy(target: Handler)
      requires Valid() && target in clients
      modifies this`chains, this`nodes, this`clients, nodes`prev, nodes`next, target`home
      ensures Valid() && clients == old(clients) - {target} && target.Detached()
      ensures nodes == old(nodes) - {target} && masks == old(masks)
      ensures forall fd: nat :: if target in old(ChainOf(fd)) then IsWithout(ChainOf(fd), old(ChainOf(fd)), target)
                                else ChainOf(fd) == old(ChainOf(fd))
      ensures forall fd: nat :: old(Exact(fd)) ==> Covers(MaskOf(fd), Asked(ChainOf(fd)))
    {
      hide Chained, Mirrored, Linked, Served, Valid, Asked, Covers, Removed;
      Leave(target);
      forall fd: nat
        ensures Covers(Asked(old(ChainOf(fd))), Asked(ChainOf(fd)))
      {
        if target in old(ChainOf(fd)) {
          var k :| 0 <= k < |old(ChainOf(fd))| && ChainOf(fd) == Removed(old(ChainOf(fd)), k);
          StillCovered(old(ChainOf(fd)), k);
        } else {
          CoversItself(Asked(ChainOf(fd)));
        }
      }
    }

    /** A handler in a list is switched on, and has not changed its descriptor since it was added. */
    ghost predicate Attended()
      reads this`clients, this`chains, clients`fd, clients`enabled
    {
      forall fd, x :: 0 <= fd < |chains| && x in chains[fd] && x in clients ==> x.fd == fd <= MAX_FD && x.enabled
    }

    /** A new handler for this reactor. */
    method Adopt(x: Handler)
      requires Valid() && x !in nodes && x.Detached()
      modifies this`clients
      ensures Valid() && clients == old(clients) + {x}
      ensures old(AllExact()) ==> AllExact()
      ensures old(Attended()) ==> Attended()
    {
      hide Chained, Asked, Mirrored;
      clients := clients + {x};
    }

    method PerformAdd(h: Handler)
      requires Valid() && AllExact() && Attended() && h in clients
      modifies this`heads, this`masks, this`chains, this`nodes, backend, nodes`prev, nodes`next
      modifies h`prev, h`next, h`home, h`enabled
      ensures Valid() && AllExact() && Attended() && |heads| >= old(|heads|)
      ensures fresh(nodes - old(nodes) - clients)
    {
      hide Chained, Asked, Mirrored, Linked, Served, Valid;
      ShapeOf();
      var res := AddHandler(h, true);
      ShapeOf();
      forall fd: nat
        ensures Exact(fd)
      {
        assert old(Exact(fd));
      }
      forall fd, x | 0 <= fd < |chains| && x in chains[fd] && x in clients
        ensures x.fd == fd <= MAX_FD && x.enabled
      {
        assert x in ChainOf(fd) && (x in old(ChainOf(fd)) || (x == h && fd == h.fd));
      }
    }

    /** A handler that is in the list of its descriptor no longer, or never was, is in no list. */
    lemma GoneFrom(h: Handler)
      requires Valid() && h in clients
      requires h.Detached() || (Attended() && !(0 <= h.fd <= MAX_FD && h in ChainOf(h.fd)))
      ensures h !in nodes && forall fd: nat :: h !in ChainOf(fd)
    {
    }

    method PerformRemove(h: Handler)
      requires Valid() && AllExact() && Attended() && h in clients
      modifies this`masks, this`chains, this`nodes, backend, nodes`prev, nodes`next
      modifies h`home, h`enabled
      ensures Valid() && AllExact() && Attended() && |heads| >= old(|heads|)
      ensures nodes <= old(nodes) && h !in nodes
    {
      hide Chained, Asked, Mirrored, Linked, Served, Valid;
      ShapeOf();
      var res := RemoveHandler(h, true);
      ShapeOf();
      GoneFrom(h);
      forall fd: nat
        ensures Exact(fd)
      {
        assert old(Exact(fd));
      }
      forall fd, x | 0 <= fd < |chains| && x in chains[fd] && x in clients
        ensures x.fd == fd <= MAX_FD && x.enabled
      {
        assert x in ChainOf(fd) && x in old(ChainOf(fd));
      }
    }

    /** Until the change is announced, only the lists that h is in can have an inexact mask. */
    method SetEvents(h: Handler, events: EventId)
      requires Valid() && AllExact() && h in clients
      modifies h`events
      ensures Valid() && h.events == events
      ensures forall fd: nat :: h !in ChainOf(fd) ==> Exact(fd)
    {
      NotAHead(h);
      assert forall fd: nat :: Exact(fd);
      hide Mirrored, Served, Asked;
      h.events := events;
    }

    method PerformChange(h: Handler, events: EventId)
      requires Valid() && AllExact() && Attended() && h in clients
      modifies this`heads, this`masks, this`chains, this`nodes, backend, nodes`prev, nodes`next
      modifies h`prev, h`next, h`home, h`enabled, h`events
      ensures Valid() && AllExact() && Attended() && |heads| >= old(|heads|)
      ensures fresh(nodes - old(nodes) - clients)
    {
      hide Chained, Asked, Mirrored, Served, Linked;
      HomeIsFd(h);
      SetEvents(h, events);
      hide Valid;
      label changed:
      var res := UpdateHandler(h, true);
      ShapeOf();
      forall fd: nat
        ensures Exact(fd)
      {
        if h in old@changed(ChainOf(fd)) {
          assert fd == h.fd && h in old@changed(nodes) && res == OK;
        } else {
          assert old@changed(Exact(fd));
        }
      }
      forall fd, x | 0 <= fd < |chains| && x in chains[fd] && x in clients
        ensures x.fd == fd <= MAX_FD && x.enabled
      {
        assert x in ChainOf(fd) && (x in old@changed(ChainOf(fd)) || (x == h && fd == h.fd));
      }
    }

    /** A handler is only in the list of its own descriptor. */
    lemma HomeIsFd(h: Handler)
      requires Valid() && Attended() && h in clients
      ensures forall fd: nat :: h in ChainOf(fd) ==> h in nodes && fd == h.fd <= MAX_FD
      ensures h in nodes ==> 0 <= h.fd <= MAX_FD && h in ChainOf(h.fd)
    {
    }

    /** A handler is in one list only. */
    lemma CleanedApart(fd: nat)
      requires Valid() && fd < |heads|
      ensures forall gd, x :: 0 <= gd < |chains| && gd != fd && x in chains[gd] ==> x in nodes && x !in ChainOf(fd)
    {
      ListsApart(fd);
    }

    method PerformCleanUp(fd: nat)
      requires Valid() && AllExact() && Attended() && fd < |heads|
      modifies this`masks, this`chains, this`nodes, backend, nodes`prev, nodes`next, nodes`home, nodes`enabled
      ensures Valid() && AllExact() && Attended() && |heads| >= old(|heads|)
      ensures fresh(nodes - old(nodes) - clients)
    {
      hide Chained, Asked, Mirrored, Linked, Served, Valid;
      ShapeOf();
      CleanedApart(fd);
      var res := Clean(fd, true);
      ShapeOf();
      forall gd: nat
        ensures Exact(gd)
      {
        assert old(Exact(gd));
      }
    }

    /** The descriptor of a handler changes only while it is in no list. */
    method PerformMove(h: Handler, fd: int)
      requires Valid() && AllExact() && Attended() && h in clients
      modifies h`fd
      ensures Valid() && AllExact() && Attended()
    {
      MemberHasPredecessor(h);
      hide Chained, Asked, Mirrored, Linked, Served;
      ShapeOf();
      if h.prev == null {
        h.fd := fd;
      }
    }

    /** A handler is removed and destroyed. */
    method PerformDiscard(h: Handler)
      requires Valid() && AllExact() && Attended() && h in clients
      modifies this`masks, this`chains, this`nodes, this`clients, backend, nodes`prev, nodes`next
      modifies h`home, h`enabled
      ensures Valid() && AllExact() && Attended() && |heads| >= old(|heads|)
      ensures clients == old(clients) - {h} && nodes <= old(nodes)
    {
      hide Chained, Asked, Mirrored, Linked, Served, Valid;
      PerformRemove(h);
      ShapeOf();
      label removed:
      Destroy(h);
      ShapeOf();
      forall fd: nat
        ensures Exact(fd)
      {
        assert old@removed(Exact(fd)) && h !in old@removed(ChainOf(fd));
      }
      forall fd, x | 0 <= fd < |chains| && x in chains[fd] && x in clients
        ensures x.fd == fd <= MAX_FD && x.enabled
      {
        assert x in ChainOf(fd) && x in old@removed(ChainOf(fd));
      }
    }

    /** Any commands in any order on handlers of this reactor, with a backend that does not fail. */
    method Perform(commands: seq<Command>)
      requires Valid() && AllExact() && Attended() && NotUsedAgain(commands)
      requires forall c :: c in commands && !c.CleanUp? ==> c.h in clients
      modifies this`heads, this`masks, this`chains, this`nodes, this`clients, backend, nodes, clients
      ensures Valid() && AllExact() && Attended() && |heads| >= old(|heads|)
    {
      hide Chained, Asked, Mirrored, Linked, Served, Valid, AllExact, Attended, Exact;
      var n := 0;
      ghost var all := nodes + clients;
      ShapeOf();
      while n < |commands|
        invariant 0 <= n <= |commands| && Valid() && Shape() && AllExact() && Attended() && |heads| >= old(|heads|)
        invariant fresh(nodes - all) && clients <= old(clients)
        invariant forall j :: n <= j < |commands| && !commands[j].CleanUp? ==> commands[j].h in clients
      {
        assert commands[n] in commands;
        match commands[n] {
          case Add(h) => PerformAdd(h);
          case Change(h, events) => PerformChange(h, events);
          case Move(h, fd) => PerformMove(h, fd);
          case Remove(h) => PerformRemove(h);
          case Discard(h) =>
            PerformDiscard(h);
            assert forall j :: n < j < |commands| ==> !Mentions(commands[j], h);
          case CleanUp(fd) =>
            if fd < |heads| {
              PerformCleanUp(fd);
            }
        }
        ShapeOf();
        n := n + 1;
      }
    }

    lemma ShapeOf()
      requires Valid()
      ensures Shape()
    {
    }
  }

  /** A whole program: a new reactor, some handlers, and any commands on them. */
  method Session(handlers: seq<Handler>, commands: seq<Command>) returns (r: Reactor)
    requires (forall h :: h in handlers ==> h.Detached()) && NotUsedAgain(commands)
    requires forall c :: c in commands && !c.CleanUp? ==> c.h in handlers
    modifies Nodes(handlers)
    ensures r.Valid() && r.AllExact() && r.Attended()
  {
    r := new Reactor();
    var n := 0;
    while n < |handlers|
      invariant 0 <= n <= |handlers| && fresh(r) && fresh(r.backend) && fresh(r.nodes)
      invariant r.Valid() && r.AllExact() && r.Attended() && |r.heads| == INIT_FD_NUMS
      invariant r.clients == Nodes(handlers[..n])
      invariant forall h :: h in handlers ==> h.Detached()
    {
      r.Adopt(handlers[n]);
      n := n + 1;
    }
    r.Perform(commands);
  }

  ghost function OneOf(x: Handler?): set<Handler> { if x == null then {} else {x} }

  lemma EmptyChain(h: Handler, fd: nat)
    requires h.home == fd && h.prev == null && h.next == null && h.events == EVENT_NONE
    ensures Chained(h, [], fd)
  {
  }

  lemma AskedFront(x: Handler, c: seq<Handler>)
    ensures Asked([x] + c) == x.events | Asked(c)
  {
    assert ([x] + c)[1..] == c;
  }

  predicate Covers(mask: EventId, e: EventId) { mask & e == e }

  lemma CoversItself(e: EventId)
    ensures Covers(e, e)
  {
  }

  function Both(a: EventId, b: EventId): EventId { a | b }

  lemma CoversMore(a: EventId, b: EventId, c: EventId)
    requires Covers(b, c)
    ensures Covers(Both(a, b), c) && Covers(Both(a, b), Both(a, c))
  {
  }

  lemma AskedBoth(x: Handler, c: seq<Handler>)
    ensures Asked([x] + c) == Both(x.events, Asked(c))
  {
    AskedFront(x, c);
  }

  lemma CoverDrop(c: seq<Handler>)
    requires c != []
    ensures Covers(Asked(c), Asked(c[1..]))
  {
    hide Covers, Both, Asked;
    assert c == [c[0]] + c[1..];
    AskedBoth(c[0], c[1..]);
    CoversItself(Asked(c[1..]));
    CoversMore(c[0].events, Asked(c[1..]), Asked(c[1..]));
  }

  lemma CoverStep(x: Handler, c: seq<Handler>, d: seq<Handler>)
    requires Covers(Asked(c), Asked(d))
    ensures Covers(Asked([x] + c), Asked([x] + d))
  {
    hide Covers, Both, Asked;
    AskedBoth(x, c);
    AskedBoth(x, d);
    CoversMore(x.events, Asked(c), Asked(d));
  }

  /** With one handler less, nothing new is asked for. */
  lemma {:induction false} StillCovered(c: seq<Handler>, k: nat)
    requires k < |c|
    ensures Covers(Asked(c), Asked(Removed(c, k)))
  {
    hide Covers, Asked;
    if k == 0 {
      assert Removed(c, k) == c[1..];
      CoverDrop(c);
    } else {
      assert Removed(c, k) == [c[0]] + Removed(c[1..], k - 1) && c == [c[0]] + c[1..];
      StillCovered(c[1..], k - 1);
      CoverStep(c[0], c[1..], Removed(c[1..], k - 1));
    }
  }

  /** A mask that has all of e does not change by adding e. */
  lemma Covered(mask: EventId, e: EventId)
    requires Covers(mask, e)
    ensures e | mask == mask
  {
  }

  ghost predicate IsWithout<T>(r: seq<T>, c: seq<T>, x: T) {
    exists k :: 0 <= k < |c| && c[k] == x && r == Removed(c, k)
  }

  lemma {:induction false} AskedBySome(c: seq<Handler>, e: EventId)
    ensures Meets(Asked(c), e) <==> exists x :: x in c && Meets(x.events, e)
  {
    if c == [] {
      assert Asked(c) & e == 0;
    } else {
      AskedBySome(c[1..], e);
      MeetsEither(c[0].events, Asked(c[1..]), e);
      hide Meets;
      assert forall x :: x in c <==> x == c[0] || x in c[1..];
    }
  }

  lemma MeetsEither(a: EventId, b: EventId, e: EventId)
    ensures Meets(a | b, e) <==> Meets(a, e) || Meets(b, e)
  {
    Distributes(a, b, e);
    NothingInEither(a & e, b & e);
  }

  lemma Distributes(a: EventId, b: EventId, e: EventId)
    ensures (a | b) & e == (a & e) | (b & e)
  {
  }

  lemma NothingInEither(a: EventId, b: EventId)
    ensures a | b == 0 <==> a == 0 && b == 0
  {
  }

  lemma NothingMeets(e: EventId)
    ensures !Meets(EVENT_NONE, e)
  {
  }

  /** A handler of c that is switched on, has a callback and asked for an event like this. */
  ghost predicate IsDue(x: Handler, c: seq<Handler>, event: EventId)
    reads x`enabled, x`hasCallback, x`events
  {
    x in c && Wants(x, event)
  }

  ghost predicate Wants(x: Handler, event: EventId)
    reads x`enabled, x`hasCallback, x`events
  {
    x.enabled && x.hasCallback && x.events & event != 0
  }

  lemma DueInFront(x: Handler, c: seq<Handler>, event: EventId)
    requires c != []
    ensures IsDue(x, c, event) <==>
      IsDue(x, c[1..], event) || (x == c[0] && Wants(x, event))
  {
    hide Wants;
    assert x in c <==> x == c[0] || x in c[1..];
  }

  lemma {:induction false} ConcernedExactly(c: seq<Handler>, event: EventId)
    ensures forall x :: x in AllConcerned(c, event) <==> IsDue(x, c, event)
  {
    if c != [] {
      ConcernedExactly(c[1..], event);
      ConcernedSays(c[0], event);
      AllConcernedAt(c, 0, event);
      hide AllConcerned, Concerned, IsDue, Wants;
      assert c[0..] == c;
      forall x
        ensures x in AllConcerned(c, event) <==> IsDue(x, c, event)
      {
        DueInFront(x, c, event);
      }
    }
  }

  lemma {:induction false} ConcernedInOrder(c: seq<Handler>, event: EventId) returns (places: seq<nat>)
    ensures InOrderOf(AllConcerned(c, event), c, places)
  {
    if c == [] {
      places := [];
    } else {
      hide Concerned, InOrderOf;
      var rest := ConcernedInOrder(c[1..], event);
      var first, next := OneMoreInOrder(c[0], AllConcerned(c[1..], event), c[1..], rest);
      assert c == [c[0]] + c[1..];
      places := if Concerned(c[0], event) then first else next;
    }
  }

  lemma ConcernedSays(x: Handler, event: EventId)
    ensures Concerned(x, event) <==> Wants(x, event)
  {
  }

  /** With an exact mask, an event outside it concerns no handler. */
  lemma {:induction false} NobodyMissed(c: seq<Handler>, event: EventId)
    requires !Meets(Asked(c), event)
    ensures AllConcerned(c, event) == []
  {
    if c != [] {
      Neither(c[0].events, Asked(c[1..]), event);
      hide Meets;
      NobodyMissed(c[1..], event);
    }
  }

  lemma Neither(a: EventId, b: EventId, e: EventId)
    requires !Meets(a | b, e)
    ensures !Meets(a, e) && !Meets(b, e)
  {
  }
}
