/**
 * What the stale-write fence means for the Gets that start after an Invalidate, and the
 * interleavings in which the facade's documented promise fails.
 */
module CacheReads {
  import opened Naturals
  import opened CacheFence

  /** The tiers are fenced, and no flight that is still in the table holds a value older than
      b, be it stored already or not. */
  ghost predicate ReadsFenced(s: State, k: Key, b: nat) {
    && Fenced(s, k, b)
    && forall t | t in s.threads :: !s.threads[t].AnswersStale(k, b)
  }

  /** The call returned a value for k that is older than b. */
  predicate ReturnedStale(pc: Pc, k: Key, b: nat) {
    pc.GetDone? && pc.key == k && pc.result.Hit? && pc.result.entry.birth < b
  }

  /** Some continuation lets a Get that has not started yet return a value older than b. */
  ghost predicate ServesStale(s: State, k: Key, b: nat) {
    exists run, t :: ServesStaleBy(s, run, t, k, b)
  }

  ghost predicate ServesStaleBy(s: State, run: seq<Action>, t: Tid, k: Key, b: nat) {
    && Valid(s, run)
    && t !in s.threads
    && t in Exec(s, run).threads
    && ReturnedStale(Exec(s, run).threads[t], k, b)
  }

  /** No call outside `earlier` has returned a stale value or waits for a leader that did. */
  ghost predicate LateReadsFresh(threads: map<Tid, Pc>, earlier: set<Tid>, k: Key, b: nat) {
    forall t | t in threads && t !in earlier :: LateOk(threads, threads[t], k, b)
  }

  ghost predicate LateOk(threads: map<Tid, Pc>, pc: Pc, k: Key, b: nat) {
    && !ReturnedStale(pc, k, b)
    && (pc.Join? && pc.key == k ==>
          pc.leader in threads && Leads(threads[pc.leader], k) && !ReturnedStale(threads[pc.leader], k, b))
  }

  lemma LateMove(s: State, t: Tid, ok: bool, applied: bool, k: Key, b: nat)
    requires Movable(s, t) && b <= |s.past|
    requires FlightsOk(s.flights, s.threads)
    requires TiersFresh(s, k, b)
    requires s.threads[t].WillStore(k) ==> s.threads[t].entry.birth >= b
    requires !s.threads[t].AnswersStale(k, b)
    ensures var d := React(s, t, s.threads[t], ok, applied);
            && (!s.threads[t].Join? || LateOk(s.threads, s.threads[t], k, b) ==> !ReturnedStale(d.pc, k, b))
            && (d.pc.Join? && d.pc.key == k ==> d.pc.leader in s.threads && d.pc.leader != t && s.threads[d.pc.leader].Fills(k))
            && !d.pc.AnswersStale(k, b)
  {
  }

  lemma LateOther(s: State, t: Tid, d: Delta, u: Tid, k: Key, b: nat)
    requires u in s.threads && u != t && LateOk(s.threads, s.threads[u], k, b)
    requires t in s.threads ==> !s.threads[t].IsDone() && DeltaOk(s, t, s.threads[t], d)
    requires t in s.threads && s.threads[t].Fills(k) ==> !ReturnedStale(d.pc, k, b)
    ensures LateOk(s.threads[t := d.pc], s.threads[u], k, b)
  {
    if s.threads[u].Join? && s.threads[u].leader == t && s.threads[u].key == k {
      assert s.threads[t].Fills(k);
      assert d.flight.Same? ==> d.pc.Fills(k);
    }
  }

  lemma ReadsAdvance(s: State, t: Tid, ok: bool, applied: bool, earlier: set<Tid>, k: Key, b: nat)
    requires Inv(s) && Movable(s, t) && b in s.bumps
    requires ReadsFenced(s, k, b) && LateReadsFresh(s.threads, earlier, k, b)
    ensures var d := React(s, t, s.threads[t], ok, applied);
            && !d.pc.AnswersStale(k, b)
            && LateReadsFresh(s.threads[t := d.pc], earlier, k, b)
  {
    var d := React(s, t, s.threads[t], ok, applied);
    assert LocalOk(s.omitL1, s.past, s.bumps, s.threads[t]);
    ReactDelta(s, t, ok, applied);
    LateMove(s, t, ok, applied, k, b);
    forall u | u in s.threads[t := d.pc] && u !in earlier ensures LateOk(s.threads[t := d.pc], s.threads[t := d.pc][u], k, b) {
      if u != t {
        LateOther(s, t, d, u, k, b);
      }
    }
  }

  lemma ReadsStart(s: State, t: Tid, pc: Pc, earlier: set<Tid>, k: Key, b: nat)
    requires t !in s.threads && LateReadsFresh(s.threads, earlier, k, b) && !pc.GetDone? && !pc.Join?
    ensures LateReadsFresh(s.threads[t := pc], earlier, k, b)
  {
    forall u | u in s.threads[t := pc] && u !in earlier ensures LateOk(s.threads[t := pc], s.threads[t := pc][u], k, b) {
      if u != t {
        LateOther(s, t, Only(pc), u, k, b);
      }
    }
  }

  lemma ReadsStep(s: State, a: Action, earlier: set<Tid>, k: Key, b: nat)
    requires Inv(s) && Enabled(s, a) && b in s.bumps
    requires ReadsFenced(s, k, b) && LateReadsFresh(s.threads, earlier, k, b)
    ensures ReadsFenced(Step(s, a), k, b) && LateReadsFresh(Step(s, a).threads, earlier, k, b)
  {
    var none: seq<Action> := [];
    assert Valid(Step(s, a), none);
    Unroll(s, a, none);
    FencedRun(s, [a] + none, k, b);
    if a.Advance? {
      ReadsAdvance(s, a.t, a.ok, a.applied, earlier, k, b);
    } else if a.CallGet? || a.CallInvalidate? || a.CallSet? {
      ReadsStart(s, a.t, Entrance(s, a), earlier, k, b);
    }
  }

  lemma {:induction false} ReadsRun(s: State, run: seq<Action>, earlier: set<Tid>, k: Key, b: nat)
    requires Inv(s) && Valid(s, run) && b in s.bumps
    requires ReadsFenced(s, k, b) && LateReadsFresh(s.threads, earlier, k, b)
    ensures LateReadsFresh(Exec(s, run).threads, earlier, k, b)
    decreases |run|
  {
    if run != [] {
      ReadsStep(s, run[0], earlier, k, b);
      StepInv(s, run[0]);
      BumpsGrow(s, run[0]);
      ReadsRun(Step(s, run[0]), run[1..], earlier, k, b);
    }
  }

  // ----- Whenever the condition fails, some Get can be served a stale value -----------

  /** A stale L1 entry answers the next Get. */
  lemma StaleL1Serves(s: State, t: Tid, k: Key, b: nat) returns (run: seq<Action>)
    requires !s.omitL1 && k in s.l1 && s.l1[k].birth < b && t !in s.threads
    ensures ServesStaleBy(s, run, t, k, b)
  {
    var s1 := Step(s, CallGet(t, k));
    var s2 := Step(s1, Advance(t, true, true));
    Unroll(s1, Advance(t, true, true), []);
    Unroll(s, CallGet(t, k), [Advance(t, true, true)] + []);
    run := [CallGet(t, k)] + ([Advance(t, true, true)] + []);
    assert s2.threads[t] == GetDone(k, Hit(s.l1[k]));
  }

  /** A stale L2 entry answers the next Get, past an L1 entry that fails to decode. */
  lemma StaleL2Serves(s: State, t: Tid, k: Key, b: nat) returns (run: seq<Action>)
    requires k in s.l2 && s.l2[k].birth < b && t !in s.threads
    ensures ServesStaleBy(s, run, t, k, b)
  {
    var hit := Advance(t, true, true);
    var miss := Advance(t, false, true);
    var s1 := Step(s, CallGet(t, k));
    if s.omitL1 {
      Unroll(s1, hit, []);
      run := [hit] + [];
    } else {
      var s2 := Step(s1, miss);
      var s3 := Step(s2, hit);
      assert s3.threads[t] == Refill(k, s.l2[k]);
      Unroll(s3, hit, []);
      Unroll(s2, hit, [hit] + []);
      Unroll(s1, miss, [hit] + ([hit] + []));
      run := [miss] + ([hit] + ([hit] + []));
    }
    Unroll(s, CallGet(t, k), run);
    run := [CallGet(t, k)] + run;
  }

  /** A new Get whose lookups miss joins the open flight for its key. */
  lemma MissJoins(s: State, leader: Tid, t: Tid, k: Key) returns (run: seq<Action>)
    requires k in s.flights && s.flights[k] == leader && t !in s.threads
    ensures Valid(s, run)
    ensures Exec(s, run).threads == s.threads[t := Join(k, leader)]
  {
    var miss := Advance(t, false, false);
    var s0 := Step(s, CallGet(t, k));
    var s1 := if s.omitL1 then s0 else Step(s0, miss);
    assert s1.threads[t] == ReadL2(k);
    var s2 := Step(s1, miss);
    Unroll(s2, miss, []);
    Unroll(s1, miss, [miss] + []);
    run := [miss] + ([miss] + []);
    if !s.omitL1 {
      Unroll(s0, miss, run);
      run := [miss] + run;
    }
    Unroll(s, CallGet(t, k), run);
    run := [CallGet(t, k)] + run;
  }

  /** Whoever joined a flight receives what its closure returned. */
  lemma JoinReceives(s: State, leader: Tid, t: Tid, k: Key, e: Entry) returns (run: seq<Action>)
    requires leader in s.threads && s.threads[leader] == CloseFlight(k, Hit(e))
    requires t in s.threads && s.threads[t] == Join(k, leader)
    ensures Valid(s, run) && t in Exec(s, run).threads && Exec(s, run).threads[t] == GetDone(k, Hit(e))
  {
    var close := Advance(leader, false, false);
    var receive := Advance(t, false, false);
    var s1 := Step(s, close);
    assert s1.threads[leader] == GetDone(k, Hit(e));
    Unroll(s1, receive, []);
    Unroll(s, close, [receive] + []);
    run := [close] + ([receive] + []);
  }

  /** A closure that skips its store returns what it read. */
  lemma SkipReturns(s: State, leader: Tid, k: Key, e: Entry)
    requires leader in s.threads && s.threads[leader].CheckGen? && s.threads[leader].key == k && s.threads[leader].entry == e
    ensures Enabled(s, Advance(leader, false, false))
    ensures Step(s, Advance(leader, false, false)).threads == s.threads[leader := CloseFlight(k, Hit(e))]
    ensures Step(s, Advance(leader, false, false)).flights == s.flights
  {
  }

  /** The next Get joins a flight whose closure has returned a stale value. */
  lemma ClosingFlightServes(s: State, leader: Tid, t: Tid, k: Key, b: nat) returns (run: seq<Action>)
    requires Inv(s) && leader in s.threads && t !in s.threads
    requires s.threads[leader].CloseFlight? && s.threads[leader].AnswersStale(k, b)
    ensures ServesStaleBy(s, run, t, k, b)
  {
    assert LinkOk(s.flights, s.threads, leader, s.threads[leader]) && s.threads[leader].Fills(k);
    run := MissJoins(s, leader, t, k);
    var rest := JoinReceives(Exec(s, run), leader, t, k, s.threads[leader].result.entry);
    ExecConcat(s, run, rest);
    run := run + rest;
  }

  /** The next Get joins a flight that holds a stale value, stored already or not. */
  lemma StaleFlightServes(s: State, leader: Tid, t: Tid, k: Key, b: nat) returns (run: seq<Action>)
    requires Inv(s) && leader in s.threads && t !in s.threads && s.threads[leader].AnswersStale(k, b)
    ensures ServesStaleBy(s, run, t, k, b)
  {
    if s.threads[leader].CloseFlight? {
      run := ClosingFlightServes(s, leader, t, k, b);
    } else {
      var skip := Advance(leader, false, false);
      SkipReturns(s, leader, k, s.threads[leader].entry);
      StepInv(s, skip);
      run := ClosingFlightServes(Step(s, skip), leader, t, k, b);
      Unroll(s, skip, run);
      run := [skip] + run;
    }
  }

  lemma UnfencedServes(s: State, k: Key, b: nat)
    requires Inv(s) && !ReadsFenced(s, k, b)
    ensures ServesStale(s, k, b)
  {
    var t := FreshNat(s.threads.Keys);
    var run: seq<Action>;
    if k in s.l1 && s.l1[k].birth < b {
      run := StaleL1Serves(s, t, k, b);
    } else if k in s.l2 && s.l2[k].birth < b {
      run := StaleL2Serves(s, t, k, b);
    } else if u :| u in s.threads && s.threads[u].AnswersStale(k, b) {
      run := StaleFlightServes(s, u, t, k, b);
    } else {
      var u :| u in s.threads && s.threads[u].WillStore(k) && s.threads[u].entry.birth < b;
      StoreLands(s, u, k);
      var a := Advance(u, true, true);
      var s' := Step(s, a);
      StepInv(s, a);
      if k in s'.l1 && s'.l1[k].birth < b {
        run := StaleL1Serves(s', t, k, b);
      } else {
        run := StaleL2Serves(s', t, k, b);
      }
      Unroll(s, a, run);
      run := [a] + run;
    }
    assert ServesStaleBy(s, run, t, k, b);
  }

  /**
   * The exact read fence. After a bump b, no Get still to start can ever return a value
   * for k older than b, if and only if the tiers are fenced and no flight for k that is
   * still in the table holds a value older than b, whether it was stored or not.
   */
  lemma ReadFenceExact(s: State, k: Key, b: nat)
    requires Inv(s) && b in s.bumps
    ensures !ServesStale(s, k, b) <==> ReadsFenced(s, k, b)
  {
    if !ReadsFenced(s, k, b) {
      UnfencedServes(s, k, b);
    } else if ServesStale(s, k, b) {
      var run, t :| ServesStaleBy(s, run, t, k, b);
      ReadsRun(s, run, s.threads.Keys, k, b);
      assert false;
    }
  }

  // ----- Invalidate on a facade without L1 --------------------------------------------

  /** Without L1, a call holding an entry older than an earlier bump has not moved since. */
  lemma StragglerStep(s: State, a: Action, u: Tid, k: Key, b: nat)
    requires Inv(s) && s.omitL1 && Enabled(s, a) && b in s.bumps
    requires u in Step(s, a).threads && Step(s, a).threads[u].WillStore(k) && Step(s, a).threads[u].entry.birth < b
    ensures u in s.threads && s.threads[u] == Step(s, a).threads[u]
  {
    if a.Advance? {
      assert LocalOk(s.omitL1, s.past, s.bumps, s.threads[a.t]);
      ReactHolds(s, a.t, a.ok, a.applied, k, b);
    }
  }

  lemma {:induction false} StragglerRun(s: State, run: seq<Action>, u: Tid, k: Key, b: nat)
    requires Inv(s) && s.omitL1 && Valid(s, run) && b in s.bumps
    requires u in Exec(s, run).threads && Exec(s, run).threads[u].WillStore(k) && Exec(s, run).threads[u].entry.birth < b
    ensures u in s.threads && s.threads[u] == Exec(s, run).threads[u]
    decreases |run|
  {
    if run != [] {
      StepInv(s, run[0]);
      BumpsGrow(s, run[0]);
      StragglerRun(Step(s, run[0]), run[1..], u, k, b);
      StragglerStep(s, run[0], u, k, b);
    }
  }

  /** An L2 entry for k seen after an Invalidate that bumped in state s at instant b: it was
      read from the source or set after the bump, or a call that had already passed its
      checks before the bump carried it. */
  ghost predicate Explained(s: State, b: nat, s': State, k: Key, e: Entry) {
    || (e.birth >= b && Sound(s'.past, k, e))
    || (exists u | u in s.threads :: s.threads[u] == WriteL2(k, e) || s.threads[u] == SetL2(k, e))
  }

  /** What L2 holds of an older entry after the deletion came from a call that held it then. */
  lemma StaleCarrier(s: State, t: Tid, after: seq<Action>, k: Key, b: nat) returns (u: Tid)
    requires Inv(s) && s.omitL1 && b in s.bumps
    requires t in s.threads && s.threads[t].EvictL2? && k in s.threads[t].keys
    requires Valid(Step(s, Advance(t, true, true)), after)
    requires var s' := Exec(Step(s, Advance(t, true, true)), after); k in s'.l2 && s'.l2[k].birth < b
    ensures u in s.threads && s.threads[u].WillStore(k)
    ensures s.threads[u].entry == Exec(Step(s, Advance(t, true, true)), after).l2[k]
  {
    var a := Advance(t, true, true);
    var deleted := Step(s, a);
    StepInv(s, a);
    BumpsGrow(s, a);
    var e := Exec(deleted, after).l2[k];
    StaleNeverReturns(deleted, after, k, b, e);
    u :| u in deleted.threads && deleted.threads[u].WillStore(k) && deleted.threads[u].entry == e;
    StragglerStep(s, a, u, k, b);
  }

  /**
   * Every interleaving of an Invalidate on a facade without L1. From state s the call bumps
   * (instant b); `mid` runs; it deletes the keys from L2 and returns nil; `after` runs.
   * Whatever L2 then holds for k is explained.
   */
  lemma InvalidateFence(s: State, t: Tid, mid: seq<Action>, after: seq<Action>, k: Key)
    requires Inv(s) && s.omitL1 && t in s.threads && s.threads[t].Bump? && k in s.threads[t].keys
    requires Valid(Step(s, Advance(t, true, true)), mid)
    requires var s1 := Exec(Step(s, Advance(t, true, true)), mid);
             && t in s1.threads && s1.threads[t] == EvictL2(s.threads[t].keys, |s.past|)
             && Valid(Step(s1, Advance(t, true, true)), after)
    ensures var s1 := Exec(Step(s, Advance(t, true, true)), mid);
            var s2 := Exec(Step(s1, Advance(t, true, true)), after);
            k in s2.l2 ==> Explained(s, |s.past|, s2, k, s2.l2[k])
  {
    var b := |s.past|;
    var a := Advance(t, true, true);
    var s0 := Step(s, a);
    StepInv(s, a);
    RunInv(s0, mid);
    var s1 := Exec(s0, mid);
    BumpsStay(s0, mid, b);
    var deleted := Step(s1, a);
    StepInv(s1, a);
    RunInv(deleted, after);
    var s2 := Exec(deleted, after);
    if k in s2.l2 && s2.l2[k].birth < b {
      var u := StaleCarrier(s1, t, after, k, b);
      StragglerRun(s0, mid, u, k, b);
      assert LocalOk(s0.omitL1, s0.past, s0.bumps, s0.threads[u]);
    }
  }

  lemma {:induction false} BumpsStay(s: State, run: seq<Action>, b: nat)
    requires Valid(s, run) && b in s.bumps
    ensures b in Exec(s, run).bumps && Exec(s, run).omitL1 == s.omitL1
    decreases |run|
  {
    if run != [] {
      BumpsGrow(s, run[0]);
      BumpsStay(Step(s, run[0]), run[1..], b);
    }
  }

  /** Since instant b the source has held for k what it holds now. */
  ghost predicate Steady(s: State, k: Key, b: nat) {
    forall j | b <= j < |s.past| :: k in s.past[j] && k in s.source && s.past[j][k] == s.source[k]
  }

  /**
   * The promise of the facade, under the exact condition. Take a state after a bump b in
   * which the reads are fenced for k. Any Get for k that starts later and returns a value
   * returns one the source held at or after b, or one a Set supplied at or after b; if the
   * source has been steady since b, a value not supplied by a Set is the current one.
   */
  lemma LaterGetSeesTheWrite(s: State, run: seq<Action>, t: Tid, k: Key, b: nat)
    requires Inv(s) && b in s.bumps && ReadsFenced(s, k, b) && Valid(s, run)
    requires t !in s.threads && t in Exec(s, run).threads
    requires Exec(s, run).threads[t].GetDone? && Exec(s, run).threads[t].key == k && Exec(s, run).threads[t].result.Hit?
    ensures var s', e := Exec(s, run), Exec(s, run).threads[t].result.entry;
            && e.birth >= b
            && Sound(s'.past, k, e)
            && (!e.fromSet && Steady(s', k, b) ==> e.value == s'.source[k])
  {
    ReadsRun(s, run, s.threads.Keys, k, b);
    RunInv(s, run);
    var s' := Exec(s, run);
    assert LateOk(s'.threads, s'.threads[t], k, b);
    assert LocalOk(s'.omitL1, s'.past, s'.bumps, s'.threads[t]);
  }
}
