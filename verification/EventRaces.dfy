/**
  * AddHandler and UpdateHandler test prev_ before they lock, and UpdateHandler walks the list and stores the mask
  * without the lock: what several threads can do to the list and the mask of one descriptor. A test, a walk, a store
  * and a stay inside the mutex are one step each. Handlers are numbers, events sets; the backend does not fail.
  */
module EventRaces {

  /** Where a thread's call is, with the handler that it is for. */
  datatype Pc =
    | Idle
    | AddTest(h: nat) | AddLock(h: nat)                                // AddHandler
    | UpdateTest(h: nat) | UpdateRead(h: nat)                          // UpdateHandler
    | UpdateWrite(h: nat, emask: set<nat>)

  datatype State = State(
    chain: seq<nat>, events: map<nat, set<nat>>, mask: set<nat>, pcs: seq<Pc>,
    broken: bool,        // a handler was inserted while it was in the list: nothing can be said of the list any more
    dirty: set<nat>)     // handlers whose events have changed since the mask was last computed; read by no step

  datatype Action = Add(h: nat) | Update(h: nat) | Remove(h: nat) | SetEvents(h: nat, e: set<nat>) | Run

  datatype Event = Event(i: nat, a: Action)

  function EventsOf(s: State, h: nat): set<nat> { if h in s.events then s.events[h] else {} }

  function AskedBy(events: map<nat, set<nat>>, chain: seq<nat>): set<nat> {
    if chain == [] then {}
    else (if chain[0] in events then events[chain[0]] else {}) + AskedBy(events, chain[1..])
  }

  /** What the handlers in the list ask for. */
  function Asked(s: State): set<nat> { AskedBy(s.events, s.chain) }

  function Without(c: seq<nat>, h: nat): seq<nat> {
    if c == [] then [] else if c[0] == h then c[1..] else [c[0]] + Without(c[1..], h)
  }

  /** AddHandler inside the mutex; the walk over the list is saved if the mask has all of the new events. */
  function Insert(s: State, h: nat): State {
    if h in s.chain then s.(broken := true)
    else
      var s1 := s.(chain := [h] + s.chain);
      if EventsOf(s, h) <= s.mask then s1 else s1.(mask := Asked(s1), dirty := {})
  }

  function RunStep(s: State, i: nat): State
    requires i < |s.pcs|
  {
    match s.pcs[i]
    case Idle => s
    case AddTest(h) => s.(pcs := s.pcs[i := if h in s.chain then Idle else AddLock(h)])
    case AddLock(h) => Insert(s, h).(pcs := s.pcs[i := Idle])
    case UpdateTest(h) => s.(pcs := s.pcs[i := if h in s.chain then UpdateRead(h) else AddTest(h)])
    case UpdateRead(h) =>
      if h in s.chain then s.(pcs := s.pcs[i := UpdateWrite(h, Asked(s))], dirty := {}) else s.(pcs := s.pcs[i := Idle])
    case UpdateWrite(h, e) => s.(pcs := s.pcs[i := Idle], mask := e)
  }

  function After(s: State, e: Event): State
    requires e.i < |s.pcs|
  {
    match e.a
    case Add(h) => s.(pcs := s.pcs[e.i := AddTest(h)])
    case Update(h) => s.(pcs := s.pcs[e.i := UpdateTest(h)])
    case Remove(h) =>
      if h !in s.chain then s
      else
        var s1 := s.(chain := Without(s.chain, h));
        s1.(mask := Asked(s1), dirty := {})
    case SetEvents(h, x) => s.(events := s.events[h := x], dirty := if h in s.chain then s.dirty + {h} else s.dirty)
    case Run => RunStep(s, e.i)
  }

  /** The rule that the callers keep to: none, one call at a time for each handler, one call at a time. */
  datatype Rule = Free | OneForEach | OneAtATime

  predicate IsFor(pc: Pc, h: nat) { !pc.Idle? && pc.h == h }

  ghost predicate Starts(s: State, h: nat, rule: Rule) {
    && (rule == OneForEach ==> forall k :: 0 <= k < |s.pcs| ==> !IsFor(s.pcs[k], h))
    && (rule == OneAtATime ==> forall k :: 0 <= k < |s.pcs| ==> s.pcs[k].Idle?)
  }

  ghost predicate MayAct(s: State, e: Event, rule: Rule) {
    && e.i < |s.pcs| && !s.broken
    && if e.a.Run? then !s.pcs[e.i].Idle? else s.pcs[e.i].Idle? && Starts(s, e.a.h, rule)
  }

  ghost predicate Reaches(s: State, es: seq<Event>, s': State, rule: Rule)
    decreases |es|
  {
    if es == [] then s == s' else MayAct(s, es[0], rule) && Reaches(After(s, es[0]), es[1..], s', rule)
  }

  function AllIdle(n: nat): (p: seq<Pc>)
    ensures |p| == n && forall k :: 0 <= k < n ==> p[k] == Idle
  {
    seq(n, _ => Idle)
  }

  /** n threads and an empty list. */
  function Start(n: nat): State { State([], map[], {}, AllIdle(n), false, {}) }

  ghost predicate Reachable(n: nat, s: State, rule: Rule) { exists es :: Reaches(Start(n), es, s, rule) }

  // ---- the list -------------------------------------------------------------------------------------------

  ghost predicate Distinct(c: seq<nat>) { forall i, j :: 0 <= i < j < |c| ==> c[i] != c[j] }

  lemma {:induction false} WithoutMembers(c: seq<nat>, h: nat)
    requires Distinct(c)
    ensures Distinct(Without(c, h)) && forall x :: x in Without(c, h) <==> x in c && x != h
  {
    if c != [] {
      WithoutMembers(c[1..], h);
      if c[0] != h {
        var r := Without(c[1..], h);
        assert forall x :: x in Without(c, h) <==> x == c[0] || x in r;
        assert c[0] !in c[1..] && forall i, j :: 0 <= i < j < |r| ==> r[i] != r[j];
      }
    }
  }

  predicate Placed(pc: Pc, chain: seq<nat>) {
    && (pc.AddLock? ==> pc.h !in chain)
    && (pc.UpdateRead? || pc.UpdateWrite? ==> pc.h in chain)
  }

  /** A handler that is being inserted is in no list, one that is being updated is in it; no other call is for it. */
  ghost predicate ListInv(s: State) {
    && !s.broken && Distinct(s.chain)
    && (forall k :: 0 <= k < |s.pcs| ==> Placed(s.pcs[k], s.chain))
    && (forall j, k :: 0 <= j < k < |s.pcs| && !s.pcs[j].Idle? ==> !IsFor(s.pcs[k], s.pcs[j].h))
  }

  lemma ListStep(s: State, e: Event)
    requires ListInv(s) && MayAct(s, e, OneForEach)
    ensures ListInv(After(s, e))
  {
    hide AskedBy, Without;
    if e.a.Remove? {
      WithoutMembers(s.chain, e.a.h);
    } else if e.a.Run? {
      ListRun(s, e.i);
    }
  }

  lemma ListRun(s: State, i: nat)
    requires ListInv(s) && i < |s.pcs| && !s.pcs[i].Idle?
    ensures ListInv(RunStep(s, i))
  {
    hide AskedBy;
    var t := RunStep(s, i);
    assert IsFor(s.pcs[i], s.pcs[i].h);
    forall k | 0 <= k < |t.pcs|
      ensures Placed(t.pcs[k], t.chain)
    {
      if k != i {
        assert !IsFor(s.pcs[k], s.pcs[i].h);
      }
    }
  }

  lemma {:induction false} ListRuns(s: State, es: seq<Event>, s': State)
    requires ListInv(s) && Reaches(s, es, s', OneForEach)
    ensures ListInv(s')
    decreases |es|
  {
    hide ListInv, After;
    if es != [] {
      ListStep(s, es[0]);
      ListRuns(After(s, es[0]), es[1..], s');
    }
  }

  /** As long as no two calls for one handler overlap, the list stays a list without repetition. */
  lemma OneForEachKeepsTheList(n: nat, s: State)
    requires Reachable(n, s, OneForEach)
    ensures !s.broken && Distinct(s.chain)
  {
    var es :| Reaches(Start(n), es, s, OneForEach);
    ListRuns(Start(n), es, s);
  }

  /** The steps that a call has still to take. */
  function StepsLeft(pc: Pc): nat {
    match pc
    case Idle => 0
    case AddTest(_) => 2
    case AddLock(_) => 1
    case UpdateTest(_) => 3
    case UpdateRead(_) => 2
    case UpdateWrite(_, _) => 1
  }

  /**
    * And every call does its work. AddHandler and UpdateHandler are back after at most three steps, with their handler
    * in the list; after RemoveHandler it is not in it; and no step puts in or takes out any other handler.
    */
  lemma CallsDoTheirWork(n: nat, s: State, e: Event)
    requires Reachable(n, s, OneForEach) && MayAct(s, e, OneForEach)
    ensures var s', pc := After(s, e), s.pcs[e.i];
      && |s'.pcs| == |s.pcs| && (forall k :: 0 <= k < |s.pcs| && k != e.i ==> s'.pcs[k] == s.pcs[k])
      && match e.a
         case Add(h) => s'.pcs[e.i] == AddTest(h) && s'.chain == s.chain
         case Update(h) => s'.pcs[e.i] == UpdateTest(h) && s'.chain == s.chain
         case Remove(h) => s'.pcs == s.pcs && (forall x :: x in s'.chain <==> x in s.chain && x != h)
         case SetEvents(h, x) => s'.pcs == s.pcs && s'.chain == s.chain && EventsOf(s', h) == x
         case Run =>
           && StepsLeft(s'.pcs[e.i]) < StepsLeft(pc) <= 3
           && (if s'.pcs[e.i].Idle? then pc.h in s'.chain else IsFor(s'.pcs[e.i], pc.h))
           && (forall x :: x != pc.h ==> (x in s'.chain <==> x in s.chain))
  {
    hide AskedBy, Without;
    var es :| Reaches(Start(n), es, s, OneForEach);
    ListRuns(Start(n), es, s);
    if e.a.Remove? {
      WithoutMembers(s.chain, e.a.h);
    }
  }

  // ---- which calls under way can break it -------------------------------------------------------------------

  /** All events are steps of calls that have begun. */
  ghost predicate OnlyRuns(es: seq<Event>) { forall k :: 0 <= k < |es| ==> es[k].a.Run? }

  ghost predicate CanBreak(s: State) { exists es, s' :: OnlyRuns(es) && Reaches(s, es, s', Free) && s'.broken }

  /** The call may yet insert h. */
  predicate MayInsert(pc: Pc, h: nat) { (pc.UpdateTest? || pc.AddTest? || pc.AddLock?) && pc.h == h }

  /** A handler is in the list and about to be inserted again, or it is not and two calls may insert it. */
  ghost predicate Clash(s: State, j: nat, k: nat)
    requires j < |s.pcs| && k < |s.pcs| && !s.pcs[j].Idle?
  {
    var h := s.pcs[j].h;
    if h in s.chain then s.pcs[j].AddLock? else j != k && MayInsert(s.pcs[j], h) && MayInsert(s.pcs[k], h)
  }

  ghost predicate Clashes(s: State) {
    exists j: nat, k: nat :: j < |s.pcs| && k < |s.pcs| && !s.pcs[j].Idle? && Clash(s, j, k)
  }

  lemma BreaksBy(s: State, i: nat)
    requires i < |s.pcs| && !s.broken && !s.pcs[i].Idle? && CanBreak(After(s, Event(i, Run)))
    ensures CanBreak(s)
  {
    hide After;
    var e := Event(i, Run);
    var es, s' :| OnlyRuns(es) && Reaches(After(s, e), es, s', Free) && s'.broken;
    assert ([e] + es)[0] == e && ([e] + es)[1..] == es && OnlyRuns([e] + es);
    assert Reaches(s, [e] + es, s', Free);
  }

  lemma BreaksNow(s: State, j: nat)
    requires j < |s.pcs| && !s.broken && s.pcs[j].AddLock? && s.pcs[j].h in s.chain
    ensures CanBreak(s)
  {
    var t := After(s, Event(j, Run));
    assert OnlyRuns([]) && Reaches(t, [], t, Free) && t.broken;
    BreaksBy(s, j);
  }

  function TestsLeft(pc: Pc): nat { if pc.UpdateTest? then 2 else if pc.AddTest? then 1 else 0 }

  /** Both get as far as the lock while the handler is in no list, and then both insert it. */
  lemma {:induction false} TwoInsert(s: State, j: nat, k: nat)
    requires j < |s.pcs| && k < |s.pcs| && j != k && !s.broken && !s.pcs[j].Idle? && s.pcs[j].h !in s.chain
    requires MayInsert(s.pcs[j], s.pcs[j].h) && MayInsert(s.pcs[k], s.pcs[j].h)
    ensures CanBreak(s)
    decreases TestsLeft(s.pcs[j]) + TestsLeft(s.pcs[k])
  {
    if TestsLeft(s.pcs[j]) > 0 {
      TwoInsert(After(s, Event(j, Run)), j, k);
      BreaksBy(s, j);
    } else if TestsLeft(s.pcs[k]) > 0 {
      TwoInsert(After(s, Event(k, Run)), j, k);
      BreaksBy(s, k);
    } else {
      BreaksNow(After(s, Event(j, Run)), k);
      BreaksBy(s, j);
    }
  }

  lemma ClashStep(s: State, i: nat)
    requires !s.broken && !Clashes(s) && i < |s.pcs| && !s.pcs[i].Idle?
    ensures var t := After(s, Event(i, Run)); !t.broken && !Clashes(t)
  {
    var t := After(s, Event(i, Run));
    assert !Clash(s, i, i);
    forall j: nat, k: nat | j < |t.pcs| && k < |t.pcs| && !t.pcs[j].Idle?
      ensures !Clash(t, j, k)
    {
      if j != i {
        assert !Clash(s, j, k) && !Clash(s, j, i) && !Clash(s, j, j);
      } else {
        assert !Clash(s, i, k);
      }
      assert i != j && !s.pcs[j].Idle? ==> !Clash(s, i, j);
    }
  }

  lemma {:induction false} ClashRuns(s: State, es: seq<Event>, s': State)
    requires !s.broken && !Clashes(s) && OnlyRuns(es) && Reaches(s, es, s', Free)
    ensures !s'.broken
    decreases |es|
  {
    hide Clashes, After;
    if es != [] {
      assert es[0] == Event(es[0].i, Run);
      ClashStep(s, es[0].i);
      ClashRuns(After(s, es[0]), es[1..], s');
    }
  }

  /** The calls under way can break the list, in some order of their steps, if and only if two of them clash. */
  lemma BreaksExactly(s: State)
    requires !s.broken
    ensures CanBreak(s) <==> Clashes(s)
  {
    if j: nat, k: nat :| j < |s.pcs| && k < |s.pcs| && !s.pcs[j].Idle? && Clash(s, j, k) {
      if s.pcs[j].h in s.chain {
        BreaksNow(s, j);
      } else {
        TwoInsert(s, j, k);
      }
    } else {
      forall es, s' | OnlyRuns(es) && Reaches(s, es, s', Free) ensures !s'.broken {
        ClashRuns(s, es, s');
      }
    }
  }

  // ---- the mask ---------------------------------------------------------------------------------------------

  lemma {:induction false} AskedHas(events: map<nat, set<nat>>, c: seq<nat>, h: nat)
    requires h in c && h in events
    ensures events[h] <= AskedBy(events, c)
  {
    if c[0] != h {
      AskedHas(events, c[1..], h);
    }
  }

  lemma {:induction false} AskedSame(events: map<nat, set<nat>>, c: seq<nat>, h: nat, e: set<nat>)
    requires h !in c
    ensures AskedBy(events[h := e], c) == AskedBy(events, c)
  {
    if c != [] {
      AskedSame(events, c[1..], h, e);
    }
  }

  lemma AskedFront(events: map<nat, set<nat>>, h: nat, c: seq<nat>)
    ensures AskedBy(events, [h] + c) == (if h in events then events[h] else {}) + AskedBy(events, c)
  {
    assert ([h] + c)[1..] == c;
  }

  /** With one call at a time: a mask that is up to date is what the handlers ask for. */
  ghost predicate MaskInv(s: State) {
    && ListInv(s)
    && (forall j, k :: 0 <= j < k < |s.pcs| ==> s.pcs[j].Idle? || s.pcs[k].Idle?)
    && (forall k :: 0 <= k < |s.pcs| && s.pcs[k].UpdateWrite? ==> s.pcs[k].emask == Asked(s) && s.dirty == {})
    && ((forall k :: 0 <= k < |s.pcs| ==> !s.pcs[k].UpdateWrite?) && s.dirty == {} ==> s.mask == Asked(s))
  }

  lemma MaskStep(s: State, e: Event)
    requires MaskInv(s) && MayAct(s, e, OneAtATime)
    ensures MaskInv(After(s, e))
  {
    ListStep(s, e);
    hide ListInv, AskedBy, Without;
    match e.a
    case SetEvents(h, x) =>
      if h !in s.chain {
        AskedSame(s.events, s.chain, h, x);
      }
    case Run => MaskRun(s, e.i);
    case _ =>
  }

  lemma MaskRun(s: State, i: nat)
    requires MaskInv(s) && i < |s.pcs| && !s.pcs[i].Idle? && ListInv(RunStep(s, i))
    ensures MaskInv(RunStep(s, i))
  {
    var t, h := RunStep(s, i), s.pcs[i].h;
    OnlyOne(s, i);
    assert forall k :: 0 <= k < |t.pcs| && k != i ==> t.pcs[k] == s.pcs[k];
    if s.pcs[i].AddLock? {
      MaskInsert(s, h);
    }
    hide ListInv, AskedBy, Insert;
    if t.dirty == {} && !t.pcs[i].UpdateWrite? {
      assert t.mask == Asked(t);
    }
  }

  lemma OnlyOne(s: State, i: nat)
    requires MaskInv(s) && i < |s.pcs| && !s.pcs[i].Idle?
    ensures forall k :: 0 <= k < |s.pcs| && k != i ==> s.pcs[k].Idle?
    ensures s.pcs[i].AddLock? ==> s.pcs[i].h !in s.chain && !s.broken
    ensures if s.pcs[i].UpdateWrite? then s.pcs[i].emask == Asked(s) && s.dirty == {}
            else s.dirty == {} ==> s.mask == Asked(s)
  {
    hide AskedBy;
  }

  lemma MaskInsert(s: State, h: nat)
    requires h !in s.chain && (s.dirty == {} ==> s.mask == Asked(s))
    ensures var t := Insert(s, h); t.pcs == s.pcs && (t.dirty == {} ==> t.mask == Asked(t))
  {
    AskedFront(s.events, h, s.chain);
    hide AskedBy;
    if EventsOf(s, h) <= s.mask {
      assert EventsOf(s, h) + s.mask == s.mask;
    }
  }

  lemma {:induction false} MaskRuns(s: State, es: seq<Event>, s': State)
    requires MaskInv(s) && Reaches(s, es, s', OneAtATime)
    ensures MaskInv(s')
    decreases |es|
  {
    hide MaskInv, After;
    if es != [] {
      MaskStep(s, es[0]);
      MaskRuns(After(s, es[0]), es[1..], s');
    }
  }

  /** Nothing is under way, and all changes of events have been announced. */
  ghost predicate Settled(s: State) { !s.broken && s.dirty == {} && forall k :: 0 <= k < |s.pcs| ==> s.pcs[k].Idle? }

  /** One call at a time: list and mask are right. */
  lemma OneAtATimeKeepsAll(n: nat, s: State)
    requires Reachable(n, s, OneAtATime)
    ensures !s.broken && Distinct(s.chain) && (Settled(s) ==> s.mask == Asked(s))
  {
    var es :| Reaches(Start(n), es, s, OneAtATime);
    MaskRuns(Start(n), es, s);
  }

  /** And each call leaves the mask as it should: an update and a removal up to date, an insertion with what it adds. */
  lemma CallsSetTheMask(n: nat, s: State, e: Event)
    requires Reachable(n, s, OneAtATime) && MayAct(s, e, OneAtATime) && (e.a.Run? || e.a.Remove?)
    ensures var s', pc := After(s, e), s.pcs[e.i];
      if e.a.Remove? then e.a.h in s.chain ==> s'.mask == Asked(s') && s'.dirty == {}
      else if !s'.pcs[e.i].Idle? then s'.mask == s.mask
      else if pc.AddLock? then
        && EventsOf(s', pc.h) <= s'.mask
        && (if EventsOf(s, pc.h) <= s.mask then s'.mask == s.mask else s'.mask == Asked(s'))
      else if pc.AddTest? then s'.mask == s.mask && pc.h in s.chain
      else s'.mask == Asked(s') && s'.dirty == {}
  {
    var es :| Reaches(Start(n), es, s, OneAtATime);
    MaskRuns(Start(n), es, s);
    if e.a.Run? {
      OnlyOne(s, e.i);
      AskedFront(s.events, s.pcs[e.i].h, s.chain);
      assert Placed(s.pcs[e.i], s.chain);
    }
    hide AskedBy, Without;
  }

  /** A single thread makes one call at a time. */
  lemma {:induction false} OneThread(s: State, es: seq<Event>, s': State)
    requires |s.pcs| == 1 && Reaches(s, es, s', Free)
    ensures Reaches(s, es, s', OneAtATime)
    decreases |es|
  {
    if es != [] {
      OneThread(After(s, es[0]), es[1..], s');
    }
  }

  // ---- and it does go wrong -----------------------------------------------------------------------------------

  lemma {:induction false} ReachesOneMore(s0: State, es: seq<Event>, s: State, e: Event, rule: Rule)
    requires Reaches(s0, es, s, rule) && MayAct(s, e, rule)
    ensures Reaches(s0, es + [e], After(s, e), rule)
    decreases |es|
  {
    hide After;
    if es == [] {
      assert Reaches(After(s, e), [], After(s, e), rule) && es + [e] == [e] && [e][1..] == [];
    } else {
      ReachesOneMore(After(s0, es[0]), es[1..], s, e, rule);
      assert (es + [e])[0] == es[0] && (es + [e])[1..] == es[1..] + [e];
    }
  }

  lemma Then(n: nat, s: State, e: Event, t: State)
    requires Reachable(n, s, Free) && MayAct(s, e, Free) && After(s, e) == t
    ensures Reachable(n, t, Free)
  {
    var es :| Reaches(Start(n), es, s, Free);
    hide MayAct, After;
    ReachesOneMore(Start(n), es, s, e, Free);
  }

  /** Two threads add one handler: both find it free, and both insert it. */
  lemma TwoAddsBreakTheList(n: nat) returns (s: State)
    requires n >= 2
    ensures Reachable(n, s, Free) && s.broken
  {
    hide Reachable;
    var s0, p := Start(n), AllIdle(n);
    StartReachable(n);
    var s1 := s0.(pcs := p[0 := AddTest(7)]);
    Then(n, s0, Event(0, Add(7)), s1);
    var s2 := s0.(pcs := p[0 := AddTest(7)][1 := AddTest(7)]);
    Then(n, s1, Event(1, Add(7)), s2);
    var s3 := After(s2, Event(0, Run));
    Then(n, s2, Event(0, Run), s3);
    var s4 := After(s3, Event(1, Run));
    Then(n, s3, Event(1, Run), s4);
    var s5 := After(s4, Event(0, Run));
    Then(n, s4, Event(0, Run), s5);
    assert s5.chain == [7] && s5.pcs[1] == AddLock(7);
    s := After(s5, Event(1, Run));
    Then(n, s5, Event(1, Run), s);
  }

  lemma StartReachable(n: nat)
    ensures Reachable(n, Start(n), Free)
  {
    assert Reaches(Start(n), [], Start(n), Free);
  }

  /** UpdateHandler has computed its mask when AddHandler comes in, and then stores what is out of date. */
  lemma StaleMask(n: nat) returns (s: State)
    requires n >= 2
    ensures Reachable(n, s, Free) && Settled(s) && s.mask != Asked(s)
  {
    hide Reachable;
    var p := AllIdle(n);
    StartReachable(n);
    var a := Start(n).(events := map[1 := {1}]);
    Then(n, Start(n), Event(0, SetEvents(1, {1})), a);
    var b := a.(events := map[1 := {1}, 2 := {2}]);
    Then(n, a, Event(0, SetEvents(2, {2})), b);
    var c := Added(n, b, 0, 1, p);
    var d1 := c.(pcs := p[0 := UpdateTest(1)]);
    Then(n, c, Event(0, Update(1)), d1);
    var d2 := c.(pcs := p[0 := UpdateRead(1)]);
    assert d1.pcs[0 := UpdateRead(1)] == p[0 := UpdateRead(1)];
    Then(n, d1, Event(0, Run), d2);
    assert Asked(c) == {1} by { assert c.chain == [1] && c.chain[1..] == []; }
    var q := p[0 := UpdateWrite(1, {1})];
    var d3 := c.(pcs := q);
    assert d2.pcs[0 := UpdateWrite(1, {1})] == q;
    Then(n, d2, Event(0, Run), d3);
    var f := Added(n, d3, 1, 2, q);
    s := f.(pcs := p, mask := {1});
    assert f.pcs[0 := Idle] == p;
    Then(n, f, Event(0, Run), s);
    assert s.chain == [2, 1];
    AskedHas(s.events, s.chain, 2);
    assert 2 in Asked(s);
  }

  /** Thread i adds h, whose events the mask does not have, while nobody else moves. */
  lemma Added(n: nat, s: State, i: nat, h: nat, p: seq<Pc>) returns (t: State)
    requires Reachable(n, s, Free) && !s.broken && s.pcs == p && i < |p| && p[i].Idle? && s.dirty == {}
    requires h !in s.chain && h in s.events && !(s.events[h] <= s.mask)
    ensures Reachable(n, t, Free)
    ensures var c := [h] + s.chain; t == s.(chain := c, mask := AskedBy(s.events, c))
  {
    hide Reachable;
    var s1, s2 := s.(pcs := p[i := AddTest(h)]), s.(pcs := p[i := AddLock(h)]);
    Then(n, s, Event(i, Add(h)), s1);
    assert s1.pcs[i := AddLock(h)] == s2.pcs;
    Then(n, s1, Event(i, Run), s2);
    var c := [h] + s.chain;
    t := s.(chain := c, mask := AskedBy(s.events, c));
    assert s2.pcs[i := Idle] == p;
    Then(n, s2, Event(i, Run), t);
  }

  /** Left to themselves, n threads always keep the list, or always the mask, if and only if there is just one. */
  lemma ListAndMaskKeptExactlyByOneThread(n: nat)
    requires n >= 1
    ensures (forall s :: Reachable(n, s, Free) ==> !s.broken) <==> n == 1
    ensures (forall s :: Reachable(n, s, Free) && Settled(s) ==> s.mask == Asked(s)) <==> n == 1
  {
    if n == 1 {
      forall s | Reachable(n, s, Free) ensures !s.broken && (Settled(s) ==> s.mask == Asked(s)) {
        var es :| Reaches(Start(n), es, s, Free);
        OneThread(Start(n), es, s);
        OneAtATimeKeepsAll(n, s);
      }
    } else {
      var s := TwoAddsBreakTheList(n);
      var t := StaleMask(n);
    }
  }
}
