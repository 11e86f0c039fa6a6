/**
 * Interleavings in which a Get that starts after an Invalidate has returned nil is still
 * served a value older than the source write that Invalidate followed. The facade's
 * concurrency contract promises there are none.
 */
module CacheRuns {
  import opened Naturals
  import opened CacheFence
  import opened CacheReads

  ghost predicate Closed(states: iset<State>) {
    forall s, a | s in states && Enabled(s, a) :: Step(s, a) in states
  }

  /** s belongs to every set of states that holds s0 and is closed under steps. */
  ghost predicate Reachable(s0: State, s: State) {
    forall states: iset<State> | s0 in states && Closed(states) :: s in states
  }

  lemma ReachSelf(s: State)
    ensures Reachable(s, s)
  {
  }

  lemma ReachStep(s0: State, s: State, a: Action)
    requires Reachable(s0, s) && Enabled(s, a)
    ensures Reachable(s0, Step(s, a))
  {
    forall states: iset<State> | s0 in states && Closed(states) ensures Step(s, a) in states {
      assert s in states;
    }
  }

  ghost predicate EndsAt(s0: State, s: State) {
    exists run :: Valid(s0, run) && Exec(s0, run) == s
  }

  lemma EndsClosed(s0: State, s: State, a: Action)
    requires EndsAt(s0, s) && Enabled(s, a)
    ensures EndsAt(s0, Step(s, a))
  {
    var run :| Valid(s0, run) && Exec(s0, run) == s;
    var none: seq<Action> := [];
    assert Valid(Step(s, a), none);
    Unroll(s, a, none);
    ExecConcat(s0, run, [a] + none);
  }

  lemma EndsStart(s0: State)
    ensures EndsAt(s0, s0)
  {
    var none: seq<Action> := [];
    assert Valid(s0, none) && Exec(s0, none) == s0;
  }

  lemma ReachableEnds(s0: State, s: State)
    requires Reachable(s0, s)
    ensures EndsAt(s0, s)
  {
    var ends := iset p: State | EndsAt(s0, p);
    EndsStart(s0);
    forall p, a | p in ends && Enabled(p, a) ensures Step(p, a) in ends {
      EndsClosed(s0, p, a);
    }
    assert s in ends;
  }

  /** The reachable states are those at the end of runs. */
  lemma ReachableExact(s0: State, s: State)
    ensures Reachable(s0, s) <==> EndsAt(s0, s)
  {
    if Reachable(s0, s) {
      ReachableEnds(s0, s);
    }
    if EndsAt(s0, s) {
      var run :| Valid(s0, run) && Exec(s0, run) == s;
      forall states: iset<State> | s0 in states && Closed(states) ensures s in states {
        RunStays(s0, run, states);
      }
    }
  }

  lemma {:induction false} RunStays(s: State, run: seq<Action>, states: iset<State>)
    requires Valid(s, run) && s in states && Closed(states)
    ensures Exec(s, run) in states
    decreases |run|
  {
    if run != [] {
      RunStays(Step(s, run[0]), run[1..], states);
    }
  }

  lemma ReachInv(s0: State, s: State)
    requires Inv(s0) && Reachable(s0, s)
    ensures Inv(s)
  {
    var good := iset p: State | Inv(p);
    forall p, a | p in good && Enabled(p, a) ensures Step(p, a) in good {
      StepInv(p, a);
    }
    assert s in good;
  }

  /** s' differs from s in the threads, and time may have passed. */
  ghost predicate ThreadsBecome(s: State, s': State, threads: map<Tid, Pc>) {
    s' == s.(threads := threads, past := s'.past) && |s.past| <= |s'.past|
  }

  lemma StartGet(s0: State, s: State, t: Tid, k: Key) returns (s': State)
    requires Reachable(s0, s) && t !in s.threads
    ensures Reachable(s0, s') && ThreadsBecome(s, s', s.threads[t := if s.omitL1 then ReadL2(k) else ReadL1(k)])
  {
    s' := Step(s, CallGet(t, k));
    ReachStep(s0, s, CallGet(t, k));
  }

  lemma MissL2(s0: State, s: State, t: Tid, k: Key) returns (s': State)
    requires Reachable(s0, s) && t in s.threads && s.threads[t] == ReadL2(k)
    ensures Reachable(s0, s') && ThreadsBecome(s, s', s.threads[t := EnterFlight(k)])
  {
    s' := Step(s, Advance(t, false, false));
    ReachStep(s0, s, Advance(t, false, false));
  }

  lemma OpenFlight(s0: State, s: State, t: Tid, k: Key) returns (s': State)
    requires Reachable(s0, s) && t in s.threads && s.threads[t] == EnterFlight(k) && k !in s.flights
    ensures Reachable(s0, s') && s'.flights == s.flights[k := t]
    ensures ThreadsBecome(s.(flights := s'.flights), s', s.threads[t := CaptureGen(k)])
  {
    s' := Step(s, Advance(t, false, false));
    ReachStep(s0, s, Advance(t, false, false));
  }

  /** Without L1: a Get of k by call t that misses and becomes the leader of a flight. */
  lemma MissLeads(s0: State, s: State, t: Tid, k: Key) returns (s': State)
    requires Reachable(s0, s) && s.omitL1 && t !in s.threads && k !in s.flights
    ensures Reachable(s0, s') && s'.threads == s.threads[t := CaptureGen(k)] && s'.flights == s.flights[k := t]
    ensures s' == s.(threads := s'.threads, flights := s'.flights, past := s'.past) && |s.past| <= |s'.past|
  {
    var s1 := Misses(s0, s, t, k);
    s' := OpenFlight(s0, s1, t, k);
    assert s1.threads[t := CaptureGen(k)] == s.threads[t := CaptureGen(k)];
  }

  lemma Misses(s0: State, s: State, t: Tid, k: Key) returns (s': State)
    requires Reachable(s0, s) && s.omitL1 && t !in s.threads
    ensures Reachable(s0, s') && ThreadsBecome(s, s', s.threads[t := EnterFlight(k)])
  {
    var s1 := StartGet(s0, s, t, k);
    s' := MissL2(s0, s1, t, k);
    assert s1.threads[t := EnterFlight(k)] == s.threads[t := EnterFlight(k)];
  }

  /** The leader captures the generation and reads the source. */
  lemma LeaderReads(s0: State, s: State, t: Tid, k: Key) returns (s': State, e: Entry)
    requires Reachable(s0, s) && t in s.threads && s.threads[t] == CaptureGen(k) && k in s.source
    ensures Reachable(s0, s') && s'.threads == s.threads[t := CheckGen(k, |s.bumps|, e)]
    ensures s' == s.(threads := s'.threads, past := s'.past) && e.value == s.source[k] && e.birth < |s'.past|
  {
    var a := Advance(t, true, false);
    var s1 := Step(s, a);
    ReachStep(s0, s, a);
    s' := Step(s1, a);
    ReachStep(s0, s1, a);
    e := Entry(s.source[k], |s1.past|, false);
  }

  lemma WriteSource(s0: State, s: State, k: Key, v: Value) returns (s': State)
    requires Reachable(s0, s)
    ensures Reachable(s0, s') && s' == s.(source := map[k := v], past := s'.past) && |s.past| <= |s'.past|
  {
    s' := Step(s, SourceWrite(map[k := v]));
    ReachStep(s0, s, SourceWrite(map[k := v]));
  }

  lemma StartInvalidate(s0: State, s: State, t: Tid, k: Key) returns (s': State)
    requires Reachable(s0, s) && t !in s.threads
    ensures Reachable(s0, s') && ThreadsBecome(s, s', s.threads[t := Bump([k])])
  {
    s' := Step(s, CallInvalidate(t, [k]));
    ReachStep(s0, s, CallInvalidate(t, [k]));
  }

  lemma TakeBump(s0: State, s: State, t: Tid, k: Key) returns (s': State)
    requires Reachable(s0, s) && t in s.threads && s.threads[t] == Bump([k])
    ensures var b := |s.past|;
            && Reachable(s0, s') && s'.bumps == s.bumps + [b]
            && ThreadsBecome(s.(bumps := s'.bumps), s', s.threads[t := if s.omitL1 then EvictL2([k], b) else EvictL1([k], 0, b)])
  {
    s' := Step(s, Advance(t, true, true));
    ReachStep(s0, s, Advance(t, true, true));
  }

  /** The source moves on to v; an Invalidate of k by call t starts and bumps. */
  lemma WriteThenBump(s0: State, s: State, t: Tid, k: Key, v: Value) returns (s': State, b: nat)
    requires Reachable(s0, s) && t !in s.threads
    ensures Reachable(s0, s') && s'.source == map[k := v] && s'.bumps == s.bumps + [b] && |s.past| <= b
    ensures s'.threads == s.threads[t := if s.omitL1 then EvictL2([k], b) else EvictL1([k], 0, b)]
    ensures s' == s.(source := s'.source, threads := s'.threads, past := s'.past, bumps := s'.bumps)
  {
    var s1 := WriteSource(s0, s, k, v);
    var s2 := StartInvalidate(s0, s1, t, k);
    s' := TakeBump(s0, s2, t, k);
    b := |s2.past|;
    assert s'.threads == s.threads[t := s'.threads[t]];
  }

  /** The Invalidate deletes k from L2 and returns nil. */
  lemma DeleteL2(s0: State, s: State, t: Tid, k: Key, b: nat) returns (s': State)
    requires Reachable(s0, s) && t in s.threads && s.threads[t] == EvictL2([k], b)
    ensures Reachable(s0, s') && s'.threads == s.threads[t := InvalidateDone([k], b, true)]
    ensures s'.l2 == s.l2 - {k} && s' == s.(threads := s'.threads, past := s'.past, l2 := s'.l2)
  {
    s' := Step(s, Advance(t, true, true));
    ReachStep(s0, s, Advance(t, true, true));
    assert (set x | x in [k]) == {k};
  }

  lemma DeleteL1(s0: State, s: State, t: Tid, k: Key, b: nat) returns (s': State)
    requires Reachable(s0, s) && t in s.threads && s.threads[t] == EvictL1([k], 0, b)
    ensures Reachable(s0, s') && s'.threads == s.threads[t := EvictL2([k], b)]
    ensures s'.l1 == s.l1 - {k} && s' == s.(threads := s'.threads, past := s'.past, l1 := s'.l1)
  {
    var a := Advance(t, true, true);
    var s1 := Step(s, a);
    ReachStep(s0, s, a);
    s' := Step(s1, a);
    ReachStep(s0, s1, a);
  }

  /** Without L1: the source moves on to v, and an Invalidate of k by call t bumps at b and
      returns nil. */
  lemma WriteThenInvalidate(s0: State, s: State, t: Tid, k: Key, v: Value) returns (s': State, b: nat)
    requires Reachable(s0, s) && s.omitL1 && t !in s.threads
    ensures Reachable(s0, s') && s'.threads == s.threads[t := InvalidateDone([k], b, true)]
    ensures |s.past| <= b && s'.source == map[k := v] && s'.l1 == s.l1 && s'.l2 == s.l2 - {k}
  {
    var s1, b' := WriteThenBump(s0, s, t, k, v);
    s' := DeleteL2(s0, s1, t, k, b');
    b := b';
    assert s1.threads[t := InvalidateDone([k], b, true)] == s.threads[t := InvalidateDone([k], b, true)];
  }

  /** Call t's Invalidate of k bumped at b and returned nil with k gone from both tiers and
      the source at v; yet some Get still to start can be served a value older than b. */
  ghost predicate ContractBroken(s: State, t: Tid, b: nat, k: Key, v: Value) {
    && t in s.threads && s.threads[t] == InvalidateDone([k], b, true)
    && k !in s.l1 && k !in s.l2 && s.source == map[k := v]
    && ServesStale(s, k, b)
  }

  lemma PassCheck(s0: State, s: State, t: Tid, k: Key, e: Entry) returns (s': State)
    requires Reachable(s0, s) && t in s.threads && s.threads[t] == CheckGen(k, |s.bumps|, e)
    ensures Reachable(s0, s') && ThreadsBecome(s, s', s.threads[t := WriteL2(k, e)])
  {
    s' := Step(s, Advance(t, true, false));
    ReachStep(s0, s, Advance(t, true, false));
  }

  /** From an empty cache without L1: a fill has read the source. */
  lemma FillReads(s0: State, k: Key, v0: Value) returns (s: State, e: Entry)
    requires s0 == Init(true, map[k := v0])
    ensures Reachable(s0, s) && s.threads == map[0 := CheckGen(k, |s.bumps|, e)] && e.value == v0
    ensures s.omitL1 && s.l1 == map[] && s.l2 == map[] && e.birth < |s.past|
  {
    ReachSelf(s0);
    var s1 := MissLeads(s0, s0, 0, k);
    s, e := LeaderReads(s0, s1, 0, k);
    assert s.threads == map[0 := CheckGen(k, |s.bumps|, e)];
  }

  /** A fill past the generation check is about to write L2. */
  lemma FillPasses(s0: State, k: Key, v0: Value) returns (s: State, e: Entry)
    requires s0 == Init(true, map[k := v0])
    ensures Reachable(s0, s) && s.threads == map[0 := WriteL2(k, e)] && e.value == v0
    ensures s.omitL1 && s.l1 == map[] && s.l2 == map[] && e.birth < |s.past|
  {
    var s1, e' := FillReads(s0, k, v0);
    s := PassCheck(s0, s1, 0, k, e');
    e := e';
    assert s.threads == map[0 := WriteL2(k, e)];
  }

  /** A fill past the generation check but not yet at its L2 write lands after Invalidate. */
  lemma StragglerBreaksContract(k: Key, v0: Value, v1: Value)
    ensures exists s, e, b :: Reachable(Init(true, map[k := v0]), s) && ContractBroken(s, 1, b, k, v1)
                              && 0 in s.threads && s.threads[0] == WriteL2(k, e) && e.value == v0
  {
    var s0 := Init(true, map[k := v0]);
    var s1, e := FillPasses(s0, k, v0);
    var s, b := WriteThenInvalidate(s0, s1, 1, k, v1);
    InitInv(true, map[k := v0]);
    ReachInv(s0, s);
    StragglerServes(s, 0, k, b);
    assert ContractBroken(s, 1, b, k, v1);
  }

  lemma StragglerServes(s: State, t: Tid, k: Key, b: nat)
    requires Inv(s) && t in s.threads && s.threads[t].WillStore(k) && s.threads[t].entry.birth < b
    ensures ServesStale(s, k, b)
  {
    UnfencedServes(s, k, b);
  }

  lemma FlightServes(s: State, leader: Tid, k: Key, b: nat)
    requires Inv(s) && leader in s.threads
    requires s.threads[leader].AnswersStale(k, b)
    ensures ServesStale(s, k, b)
  {
    var t := FreshNat(s.threads.Keys);
    var run := StaleFlightServes(s, leader, t, k, b);
  }

  /** After an Invalidate that returned nil, a flight of k older than its bump breaks the
      contract although the tiers are fenced. */
  lemma FlightBreaks(s: State, pc: Pc, b: nat, k: Key, v: Value)
    requires Inv(s) && s.threads == map[0 := pc, 1 := InvalidateDone([k], b, true)] && pc.AnswersStale(k, b)
    requires k !in s.l1 && k !in s.l2 && s.source == map[k := v]
    ensures ContractBroken(s, 1, b, k, v) && Fenced(s, k, b)
  {
    FlightServes(s, 0, k, b);
  }

  /** A Get after Invalidate joins a flight that read the source before it, although the
      generation check will keep that read out of the cache. */
  lemma JoinedFlightBreaksContract(k: Key, v0: Value, v1: Value)
    ensures exists s, b :: Reachable(Init(true, map[k := v0]), s) && ContractBroken(s, 1, b, k, v1) && Fenced(s, k, b)
                           && 0 in s.threads && s.threads[0].CheckGen?
  {
    var s0 := Init(true, map[k := v0]);
    var s1, e := FillReads(s0, k, v0);
    var s, b := WriteThenInvalidate(s0, s1, 1, k, v1);
    InitInv(true, map[k := v0]);
    ReachInv(s0, s);
    FlightBreaks(s, s1.threads[0], b, k, v1);
  }

  lemma StoreL2(s0: State, s: State, t: Tid, k: Key, e: Entry) returns (s': State)
    requires Reachable(s0, s) && s.omitL1 && t in s.threads && s.threads[t] == WriteL2(k, e)
    ensures Reachable(s0, s') && s'.l2 == s.l2[k := e]
    ensures ThreadsBecome(s.(l2 := s'.l2), s', s.threads[t := CloseFlight(k, Hit(e))])
  {
    s' := Step(s, Advance(t, true, true));
    ReachStep(s0, s, Advance(t, true, true));
  }

  /** A fill stores what it read and its closure returns; its flight is still in the table. */
  lemma FillReturns(s0: State, k: Key, v0: Value) returns (s: State, e: Entry)
    requires s0 == Init(true, map[k := v0])
    ensures Reachable(s0, s) && s.omitL1 && s.threads == map[0 := CloseFlight(k, Hit(e))]
    ensures s.l1 == map[] && e.birth < |s.past|
  {
    var s1, e' := FillPasses(s0, k, v0);
    s := StoreL2(s0, s1, 0, k, e');
    e := e';
    assert s.threads == map[0 := CloseFlight(k, Hit(e))];
  }

  /** A Get after Invalidate joins a flight whose value the Invalidate has already deleted from
      the cache: the closure has returned, but the flight is not yet out of the table. */
  lemma ClosingFlightBreaksContract(k: Key, v0: Value, v1: Value)
    ensures exists s, b :: Reachable(Init(true, map[k := v0]), s) && ContractBroken(s, 1, b, k, v1) && Fenced(s, k, b)
                           && 0 in s.threads && s.threads[0].CloseFlight?
  {
    var s0 := Init(true, map[k := v0]);
    var s1, e := FillReturns(s0, k, v0);
    var s, b := WriteThenInvalidate(s0, s1, 1, k, v1);
    InitInv(true, map[k := v0]);
    ReachInv(s0, s);
    FlightBreaks(s, s1.threads[0], b, k, v1);
  }

  lemma MissL1(s0: State, s: State, t: Tid, k: Key) returns (s': State)
    requires Reachable(s0, s) && t in s.threads && s.threads[t] == ReadL1(k)
    ensures Reachable(s0, s') && ThreadsBecome(s, s', s.threads[t := ReadL2(k)])
  {
    s' := Step(s, Advance(t, false, false));
    ReachStep(s0, s, Advance(t, false, false));
  }

  lemma HitL2(s0: State, s: State, t: Tid, k: Key) returns (s': State)
    requires Reachable(s0, s) && !s.omitL1 && t in s.threads && s.threads[t] == ReadL2(k) && k in s.l2
    ensures Reachable(s0, s') && ThreadsBecome(s, s', s.threads[t := Refill(k, s.l2[k])])
  {
    s' := Step(s, Advance(t, true, false));
    ReachStep(s0, s, Advance(t, true, false));
  }

  /** With L1 enabled, an L2 hit of call t pauses before it refills L1. */
  lemma HitPauses(s0: State, s: State, t: Tid, k: Key) returns (s': State)
    requires Reachable(s0, s) && !s.omitL1 && t !in s.threads && k in s.l2
    ensures Reachable(s0, s') && ThreadsBecome(s, s', s.threads[t := Refill(k, s.l2[k])])
  {
    var s1 := StartGet(s0, s, t, k);
    var s2 := MissL1(s0, s1, t, k);
    s' := HitL2(s0, s2, t, k);
    assert s'.threads == s.threads[t := Refill(k, s.l2[k])];
  }

  /**
   * With L1 enabled, any state that has k in L2 leads to a broken contract without any fill:
   * a hit read L2 before the Invalidate and refills L1 after it.
   */
  lemma RefillBreaksContract(s0: State, k: Key, v1: Value)
    requires Inv(s0) && !s0.omitL1 && k in s0.l2
    ensures exists s, t, b :: Reachable(s0, s) && ContractBroken(s, t, b, k, v1) && s.flights == s0.flights
  {
    ReachSelf(s0);
    var t := FreshNat(s0.threads.Keys);
    var s1 := HitPauses(s0, s0, t, k);
    var s2, b := WriteThenBump(s0, s1, t + 1, k, v1);
    var s3 := DeleteL1(s0, s2, t + 1, k, b);
    var s := DeleteL2(s0, s3, t + 1, k, b);
    ReachInv(s0, s);
    assert Sound(s0.past, k, s0.l2[k]);
    assert s.threads[t].WillStore(k) && s.threads[t].entry.birth < b;
    ReadFenceExact(s, k, b);
    assert ContractBroken(s, t + 1, b, k, v1);
  }
}
