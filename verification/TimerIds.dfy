/**
  * The id counter that all Timer objects share, while each has its own mutex: Register reads and writes it in
  * several atomic accesses, one a step here, and Registers of different timers may interleave.
  */
module TimerIds {
  import opened TimerTables

  /**
    * Where a timer's Register is: before the store, the test, the increment and the load of the search, or the last
    * increment.
    */
  datatype Pc = Idle | Store(v: nat) | Test | Step | Load | Take

  datatype State = State(
    counter: nat, pcs: seq<Pc>, used: seq<set<nat>>,   // used: the ids of each timer's entries
    broken: bool)                                      // some timer was given a reserved id or one that it uses already

  datatype Action = Begin | Run | Forget(id: nat)      // Forget: Unregister

  datatype Event = Event(i: nat, a: Action)

  ghost predicate Shape(s: State) { |s.pcs| == |s.used| }

  function Plus1(n: nat): nat { if n >= UINT32_MAX then 0 else n + 1 }

  ghost predicate AllIdle(s: State) { forall k :: 0 <= k < |s.pcs| ==> s.pcs[k].Idle? }

  /** serial: the callers let no two Registers overlap. */
  ghost predicate MayAct(s: State, e: Event, serial: bool) {
    && Shape(s) && e.i < |s.pcs|
    && match e.a
       case Begin => s.pcs[e.i].Idle? && (serial ==> AllIdle(s))
       case Run => !s.pcs[e.i].Idle?
       case Forget(_) => s.pcs[e.i].Idle?
  }

  function RunStep(s: State, i: nat): State
    requires i < |s.pcs| == |s.used|
  {
    match s.pcs[i]
    case Idle => s
    case Store(v) => s.(counter := v, pcs := s.pcs[i := Test])
    case Test => s.(pcs := s.pcs[i := if s.counter in s.used[i] then Step else Take])
    case Step => s.(counter := Plus1(s.counter), pcs := s.pcs[i := Load])
    case Load => s.(pcs := s.pcs[i := Store(GetValidId(s.counter))])
    case Take =>
      var id := s.counter;
      s.(counter := Plus1(id), pcs := s.pcs[i := Idle], used := s.used[i := s.used[i] + {id}],
         broken := s.broken || !ValidId(id) || id in s.used[i])
  }

  function After(s: State, e: Event): State
    requires e.i < |s.pcs| == |s.used|
  {
    match e.a
    case Begin => s.(pcs := s.pcs[e.i := Store(GetValidId(s.counter))])
    case Run => RunStep(s, e.i)
    case Forget(id) => s.(used := s.used[e.i := s.used[e.i] - {id}])
  }

  ghost predicate Reaches(s: State, es: seq<Event>, s': State, serial: bool)
    decreases |es|
  {
    if es == [] then s == s' else MayAct(s, es[0], serial) && Reaches(After(s, es[0]), es[1..], s', serial)
  }

  function NoneUsed(n: nat): (u: seq<set<nat>>)
    ensures |u| == n && forall k :: 0 <= k < n ==> u[k] == {}
  {
    seq(n, _ => {})
  }

  function AllAt(n: nat): (p: seq<Pc>)
    ensures |p| == n && forall k :: 0 <= k < n ==> p[k] == Idle
  {
    seq(n, _ => Idle)
  }

  /** n timers without entries. */
  function Start(n: nat): State { State(1, AllAt(n), NoneUsed(n), false) }

  ghost predicate Reachable(n: nat, s: State, serial: bool) { exists es :: Reaches(Start(n), es, s, serial) }

  // ---- Registers that do not overlap ---------------------------------------------------------------------------

  /** What the only timer in Register may rely on. */
  ghost predicate PcInv(s: State, i: nat)
    requires i < |s.pcs| == |s.used|
  {
    match s.pcs[i]
    case Store(v) => ValidId(v)
    case Test => ValidId(s.counter)
    case Step => ValidId(s.counter)
    case Take => ValidId(s.counter) && s.counter !in s.used[i]
    case _ => true
  }

  ghost predicate Inv(s: State) {
    && Shape(s) && 1 <= s.counter <= UINT32_MAX && !s.broken
    && (forall j, k :: 0 <= j < k < |s.pcs| ==> s.pcs[j].Idle? || s.pcs[k].Idle?)
    && (forall k :: 0 <= k < |s.pcs| ==> PcInv(s, k))
    && (forall k, id :: 0 <= k < |s.used| && id in s.used[k] ==> ValidId(id))
  }

  lemma StepKeeps(s: State, e: Event)
    requires Inv(s) && MayAct(s, e, true)
    ensures Inv(After(s, e))
  {
    assert PcInv(s, e.i);
    var s' := After(s, e);
    forall k | 0 <= k < |s'.pcs|
      ensures PcInv(s', k)
    {
      assert PcInv(s, k);
    }
  }

  lemma {:induction false} RunsKeep(s: State, es: seq<Event>, s': State)
    requires Inv(s) && Reaches(s, es, s', true)
    ensures Inv(s')
    decreases |es|
  {
    hide Inv, After;
    if es != [] {
      StepKeeps(s, es[0]);
      RunsKeep(After(s, es[0]), es[1..], s');
    }
  }

  /** As long as Registers do not overlap, whichever timers they are of, every id is valid and new to its timer. */
  lemma SerialIdsAreGood(n: nat, s: State)
    requires Reachable(n, s, true)
    ensures !s.broken && forall k, id :: 0 <= k < |s.used| && id in s.used[k] ==> ValidId(id)
  {
    var es :| Reaches(Start(n), es, s, true);
    RunsKeep(Start(n), es, s);
  }

  /**
    * And each Register gives its timer one id more, valid and new to it, in the step that ends it; nothing else gives
    * an id, and only Unregister takes one.
    */
  lemma OneIdForEachRegister(n: nat, s: State, e: Event)
    requires Reachable(n, s, true) && MayAct(s, e, true)
    ensures var s' := After(s, e);
      match e.a
      case Begin => !s'.pcs[e.i].Idle? && s'.used == s.used
      case Forget(id) => s'.pcs == s.pcs && s'.used == s.used[e.i := s.used[e.i] - {id}]
      case Run =>
        if !s'.pcs[e.i].Idle? then s'.used == s.used
        else exists id :: ValidId(id) && id !in s.used[e.i] && s'.used == s.used[e.i := s.used[e.i] + {id}]
    ensures forall k :: 0 <= k < |s.pcs| && k != e.i ==> After(s, e).pcs[k] == s.pcs[k]
  {
    var es :| Reaches(Start(n), es, s, true);
    RunsKeep(Start(n), es, s);
    assert PcInv(s, e.i);
    if e.a.Run? && s.pcs[e.i].Take? {
      assert ValidId(s.counter) && s.counter !in s.used[e.i];
    }
  }

  /** Timer i begins nothing in this run; it only goes on with its Register. */
  ghost predicate BeginsNone(es: seq<Event>, i: nat) { forall k :: 0 <= k < |es| && es[k].i == i ==> es[k].a.Run? }

  lemma BeginsNoneLater(es: seq<Event>, i: nat)
    requires BeginsNone(es, i) && es != []
    ensures BeginsNone(es[1..], i) && (es[0].i == i ==> es[0].a.Run?)
  {
    assert forall k :: 0 <= k < |es| - 1 ==> es[1..][k] == es[k + 1];
  }

  /** Where the search of timer i is that began at `from`: the valid ids that it has passed are all in use. */
  ghost predicate Searching(s: State, i: nat, from: nat)
    requires i < |s.pcs| == |s.used|
  {
    match s.pcs[i]
    case Store(v) => AllPassed(from, v, s.used[i])
    case Test => AllPassed(from, s.counter, s.used[i])
    case Step => AllPassed(from, s.counter, s.used[i]) && s.counter in s.used[i]
    case Load => AllPassed(from, GetValidId(s.counter), s.used[i])
    case Take => AllPassed(from, s.counter, s.used[i]) && s.counter !in s.used[i]
    case Idle => false
  }

  lemma PassesOn(from: nat, id: nat, used: set<nat>)
    requires 1 <= from <= UINT32_MAX && AllPassed(from, id, used) && id in used
    ensures AllPassed(from, GetValidId(Plus1(id)), used)
  {
    if free: nat :| ValidId(free) && free !in used {
      PassesUsed(from, id, used, free);
    }
  }

  lemma SearchStep(s: State, e: Event, i: nat, from: nat)
    requires Inv(s) && MayAct(s, e, true) && i < |s.pcs| && 1 <= from <= UINT32_MAX && Searching(s, i, from)
    requires e.i == i ==> e.a.Run?
    ensures var s' := After(s, e);
      (e.i == i && s.pcs[i].Take?) || (Searching(s', i, from) && s'.used[i] == s.used[i])
  {
    hide AllPassed, ValidId;
    if e.i == i && s.pcs[i].Step? {
      PassesOn(from, s.counter, s.used[i]);
    }
  }

  /** Timer i is in the Register that began at `from`, or that Register has given it the next id that was free. */
  ghost predicate Registered(s: State, i: nat, from: nat, used: set<nat>) {
    && i < |s.pcs| == |s.used|
    && if s.pcs[i].Idle? then exists id :: NextFree(from, id, used) && s.used[i] == used + {id}
       else Searching(s, i, from) && s.used[i] == used
  }

  lemma {:induction false} RegisterGoesOn(s: State, es: seq<Event>, s': State, i: nat, from: nat, used: set<nat>)
    requires Inv(s) && Reaches(s, es, s', true) && BeginsNone(es, i) && 1 <= from <= UINT32_MAX
    requires Registered(s, i, from, used)
    ensures Registered(s', i, from, used)
    decreases |es|
  {
    hide Inv, BeginsNone, Searching, NextFree;
    if es != [] {
      var e := es[0];
      BeginsNoneLater(es, i);
      StepKeeps(s, e);
      if !s.pcs[i].Idle? {
        SearchStep(s, e, i, from);
        if e.i == i && s.pcs[i].Take? {
          TakesNextFree(s, i, from);
        }
      }
      OthersIds(s, e, i);
      RegisterGoesOn(After(s, e), es[1..], s', i, from, used);
    }
  }

  lemma OthersIds(s: State, e: Event, i: nat)
    requires MayAct(s, e, true) && i < |s.pcs|
    ensures var s' := After(s, e);
      && Shape(s') && |s'.pcs| == |s.pcs| && (e.i != i ==> s'.pcs[i] == s.pcs[i] && s'.used[i] == s.used[i])
      && (e.i == i && e.a.Run? && !s.pcs[i].Take? ==> !s'.pcs[i].Idle?)
  {
  }

  lemma TakesNextFree(s: State, i: nat, from: nat)
    requires Shape(s) && i < |s.pcs| && s.pcs[i].Take? && Searching(s, i, from)
    ensures NextFree(from, s.counter, s.used[i])
    ensures var s' := After(s, Event(i, Run)); s'.pcs[i].Idle? && s'.used[i] == s.used[i] + {s.counter}
  {
  }

  /** A Register that meets no other is back only with the next id that its timer does not use, and nothing else. */
  lemma RegisterDoesItsWork(n: nat, s: State, i: nat, es: seq<Event>, s': State)
    requires Reachable(n, s, true) && MayAct(s, Event(i, Begin), true)
    requires Reaches(After(s, Event(i, Begin)), es, s', true) && BeginsNone(es, i)
    ensures i < |s'.pcs| == |s'.used|
    ensures if s'.pcs[i].Idle? then exists id :: NextFree(s.counter, id, s.used[i]) && s'.used[i] == s.used[i] + {id}
            else s'.used[i] == s.used[i]
  {
    var fs :| Reaches(Start(n), fs, s, true);
    RunsKeep(Start(n), fs, s);
    var e := Event(i, Begin);
    StepKeeps(s, e);
    PassesNone(s.counter, s.used[i]);
    hide Inv, Reaches;
    RegisterGoesOn(After(s, e), es, s', i, s.counter, s.used[i]);
  }

  /** How far a search is from an id that is free. */
  ghost function SearchLeft(s: State, i: nat, free: nat): int
    requires i < |s.pcs|
  {
    match s.pcs[i]
    case Load => 4 * Ahead(GetValidId(s.counter), free) + 5
    case Store(v) => 4 * Ahead(v, free) + 4
    case Test => 4 * Ahead(s.counter, free) + 3
    case Step => 4 * Ahead(s.counter, free) + 2
    case Take => 1
    case Idle => 0
  }

  lemma SearchNears(s: State, i: nat, free: nat)
    requires Inv(s) && i < |s.pcs| && !s.pcs[i].Idle? && ValidId(free) && free !in s.used[i]
    requires s.pcs[i].Step? ==> s.counter in s.used[i]
    ensures var s' := After(s, Event(i, Run));
      && 0 <= SearchLeft(s', i, free) < SearchLeft(s, i, free)
      && (s'.pcs[i].Step? ==> s'.counter in s'.used[i])
      && (!s'.pcs[i].Idle? ==> s'.used[i] == s.used[i])
  {
    assert PcInv(s, i);
  }

  /** It ends, if there is one. */
  lemma {:induction false} RegisterEnds(s: State, i: nat, free: nat) returns (es: seq<Event>, s': State)
    requires Inv(s) && i < |s.pcs| && ValidId(free) && (!s.pcs[i].Idle? ==> free !in s.used[i])
    requires s.pcs[i].Step? ==> s.counter in s.used[i]
    ensures Reaches(s, es, s', true) && (forall k :: 0 <= k < |es| ==> es[k] == Event(i, Run))
    ensures i < |s'.pcs| && s'.pcs[i].Idle?
    decreases SearchLeft(s, i, free)
  {
    hide Inv, ValidId;
    if s.pcs[i].Idle? {
      es, s' := [], s;
    } else {
      var e := Event(i, Run);
      SearchNears(s, i, free);
      assert MayAct(s, e, true) by { ShapeOf(s); }
      StepKeeps(s, e);
      OthersIds(s, e, i);
      es, s' := RegisterEnds(After(s, e), i, free);
      assert ([e] + es)[0] == e && ([e] + es)[1..] == es;
      es := [e] + es;
    }
  }

  lemma ShapeOf(s: State)
    requires Inv(s)
    ensures Shape(s)
  {
  }

  /** The Registers of a single timer do not overlap: it holds its mutex. */
  lemma {:induction false} OneTimerIsSerial(s: State, es: seq<Event>, s': State)
    requires |s.pcs| == |s.used| == 1 && Reaches(s, es, s', false)
    ensures Reaches(s, es, s', true)
    decreases |es|
  {
    if es != [] {
      OneTimerIsSerial(After(s, es[0]), es[1..], s');
    }
  }

  // ---- Registers that overlap -----------------------------------------------------------------------------------

  lemma {:induction false} ReachesOneMore(s0: State, es: seq<Event>, s: State, e: Event, serial: bool)
    requires Reaches(s0, es, s, serial) && MayAct(s, e, serial)
    ensures Reaches(s0, es + [e], After(s, e), serial)
    decreases |es|
  {
    hide After;
    if es == [] {
      assert Reaches(After(s, e), [], After(s, e), serial) && es + [e] == [e] && [e][1..] == [];
    } else {
      ReachesOneMore(After(s0, es[0]), es[1..], s, e, serial);
      assert (es + [e])[0] == es[0] && (es + [e])[1..] == es[1..] + [e];
    }
  }

  lemma Then(n: nat, s: State, e: Event, t: State, serial: bool)
    requires Reachable(n, s, serial) && MayAct(s, e, serial) && After(s, e) == t
    ensures Reachable(n, t, serial)
  {
    hide After;
    var es :| Reaches(Start(n), es, s, serial);
    ReachesOneMore(Start(n), es, s, e, serial);
  }

  /** One whole Register of timer i, while no other is under way. */
  lemma RegisterAlone(n: nat, s: State, i: nat, serial: bool) returns (t: State)
    requires Reachable(n, s, serial) && Shape(s) && i < |s.pcs| && s.pcs[i].Idle? && (serial ==> AllIdle(s))
    requires ValidId(s.counter) && s.counter !in s.used[i]
    ensures Reachable(n, t, serial) && t == s.(counter := s.counter + 1, used := s.used[i := s.used[i] + {s.counter}])
  {
    hide Reachable;
    var c, p := s.counter, s.pcs;
    var s1, s2, s3 := s.(pcs := p[i := Store(c)]), s.(pcs := p[i := Test]), s.(pcs := p[i := Take]);
    Then(n, s, Event(i, Begin), s1, serial);
    Advance(n, s1, i, s2, p, serial);
    Advance(n, s2, i, s3, p, serial);
    t := s.(counter := c + 1, used := s.used[i := s.used[i] + {c}]);
    assert p[i := Idle] == p;
    Advance(n, s3, i, t, p, serial);
  }

  lemma Advance(n: nat, s: State, i: nat, t: State, p: seq<Pc>, serial: bool)
    requires Reachable(n, s, serial) && Shape(s) && i < |s.pcs| && !s.pcs[i].Idle?
    requires |p| == |s.pcs| && s.pcs == p[i := s.pcs[i]]
    requires var r := RunStep(s, i); t == r.(pcs := p[i := r.pcs[i]])
    ensures Reachable(n, t, serial)
  {
    hide Reachable;
    assert RunStep(s, i).pcs == p[i := RunStep(s, i).pcs[i]];
    Then(n, s, Event(i, Run), t, serial);
  }

  /**
    * Two timers: the second reads the counter at 1; the first takes 1, and is about to take 2 when the second writes
    * its 1 back. The first is given 1 again, while its entry 1 exists.
    */
  lemma OverlapReusesAnId(n: nat) returns (s: State)
    requires n >= 2
    ensures Reachable(n, s, false) && s.broken
  {
    hide Reachable;
    var s0, p := Start(n), AllAt(n)[1 := Store(1)];
    StartReachable(n);
    var s1 := s0.(pcs := p);
    Then(n, s0, Event(1, Begin), s1, false);
    var s2 := RegisterAlone(n, s1, 0, false);
    var s3, s4, s5 := s2.(pcs := p[0 := Store(2)]), s2.(pcs := p[0 := Test]), s2.(pcs := p[0 := Take]);
    Then(n, s2, Event(0, Begin), s3, false);
    Advance(n, s3, 0, s4, p, false);
    Advance(n, s4, 0, s5, p, false);
    var s6 := After(s5, Event(1, Run));
    Then(n, s5, Event(1, Run), s6, false);
    assert s6.counter == 1 && s6.pcs[0] == Take && 1 in s6.used[0];
    s := After(s6, Event(0, Run));
    Then(n, s6, Event(0, Run), s, false);
  }

  lemma StartReachable(n: nat)
    ensures Reachable(n, Start(n), false)
  {
    assert Reaches(Start(n), [], Start(n), false);
  }

  /** The counter gets anywhere below the error code: by an entry that comes and goes. */
  lemma {:induction false} CounterRises(n: nat, c: nat)
    requires n >= 1 && 1 <= c < DEAL_FAILED
    ensures Reachable(n, Start(n).(counter := c), false)
    decreases c
  {
    hide Reachable;
    if c == 1 {
      StartReachable(n);
    } else {
      CounterRises(n, c - 1);
      var s := Start(n).(counter := c - 1);
      var t := RegisterAlone(n, s, 0, false);
      var u := Start(n).(counter := c);
      assert t.used[0] - {c - 1} == {} && t.used[0 := {}] == NoneUsed(n);
      Then(n, t, Event(0, Forget(c - 1)), u, false);
    }
  }

  /** Two timers: the first is about to take the id before the error code when the second takes it. */
  lemma OverlapIssuesTheErrorCode(n: nat) returns (s: State)
    requires n >= 2
    ensures Reachable(n, s, false) && s.broken && |s.used| == n && DEAL_FAILED in s.used[0]
  {
    hide Reachable;
    var c := DEAL_FAILED - 1;
    CounterRises(n, c);
    var s0, p := Start(n).(counter := c), AllAt(n);
    var s1, s2, s3 := s0.(pcs := p[0 := Store(c)]), s0.(pcs := p[0 := Test]), s0.(pcs := p[0 := Take]);
    Then(n, s0, Event(0, Begin), s1, false);
    Advance(n, s1, 0, s2, p, false);
    Advance(n, s2, 0, s3, p, false);
    var s4 := RegisterAlone(n, s3, 1, false);
    assert s4.counter == DEAL_FAILED && s4.pcs[0] == Take;
    s := After(s4, Event(0, Run));
    Then(n, s4, Event(0, Run), s, false);
  }

  /** Left to themselves, n timers always get good ids if and only if there is just one of them. */
  lemma GoodIdsExactlyForOneTimer(n: nat)
    requires n >= 1
    ensures (forall s :: Reachable(n, s, false) ==> !s.broken) <==> n == 1
  {
    if n == 1 {
      forall s | Reachable(n, s, false) ensures !s.broken {
        var es :| Reaches(Start(n), es, s, false);
        OneTimerIsSerial(Start(n), es, s);
        SerialIdsAreGood(n, s);
      }
    } else {
      var s := OverlapReusesAnId(n);
    }
  }
}
