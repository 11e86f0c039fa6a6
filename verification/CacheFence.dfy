/**
 * The stale-write fence of the read-through cache facade as a step machine.
 *
 * Any number of Get, Invalidate, InvalidateMany and Set calls interleave over one
 * facade. Every access to L1, L2, the generation counter, the singleflight table and
 * the source of truth is a step of its own, so a call can be preempted between any two
 * of them.
 *
 * Instants are counted in steps. `past[i]` is the source as it stood at instant i and
 * `bumps` lists the instants at which the generation counter was incremented, so the
 * counter itself is |bumps|.
 */
module CacheFence {

  type Key = string
  type Value = string
  type Tid = nat
  type Source = map<Key, Value>

  /** A cached value with the instant it dates from: the instant its source read took
      place, or, for a value stored by Set, the instant of that Set's bump. */
  datatype Entry = Entry(value: Value, birth: nat, fromSet: bool)

  datatype Result = Hit(entry: Entry) | Error

  /** Where a call stands; each constructor names the access it performs next. */
  datatype Pc =
    | ReadL1(key: Key)
    | ReadL2(key: Key)
    | Refill(key: Key, entry: Entry)
    | EnterFlight(key: Key)
    | Join(key: Key, leader: Tid)
    | CaptureGen(key: Key)
    | ReadSource(key: Key, gen: nat)
    | CheckGen(key: Key, gen: nat, entry: Entry)
    | WriteL2(key: Key, entry: Entry)
    | WriteL1(key: Key, entry: Entry)
    | CloseFlight(key: Key, result: Result)
    | GetDone(key: Key, result: Result)
    | Bump(keys: seq<Key>)
    | EvictL1(keys: seq<Key>, next: nat, bump: nat)
    | EvictL2(keys: seq<Key>, bump: nat)
    | InvalidateDone(keys: seq<Key>, bump: nat, ok: bool)
    | SetBump(key: Key, value: Value)
    | SetL2(key: Key, entry: Entry)
    | SetL1(key: Key, entry: Entry)
    | SetDone(ok: bool)
  {
    predicate IsDone() {
      GetDone? || InvalidateDone? || SetDone?
    }

    /** The call leads k's flight: it runs the factory closure for k, or has run it and is
        about to take the flight out of the table. */
    predicate Fills(k: Key) {
      (CaptureGen? || ReadSource? || CheckGen? || WriteL2? || WriteL1? || CloseFlight?) && key == k
    }

    /** The call leads k's flight and is not about to store, but whoever joins the flight can
        receive a value older than b from it. */
    predicate AnswersStale(k: Key, b: nat) {
      || (CheckGen? && key == k && entry.birth < b)
      || (CloseFlight? && key == k && result.Hit? && result.entry.birth < b)
    }

    /** The call is past every check and is about to store its entry for k. */
    predicate WillStore(k: Key) {
      (Refill? || WriteL2? || WriteL1? || SetL2? || SetL1?) && key == k
    }

    predicate UsesL1() {
      ReadL1? || Refill? || WriteL1? || EvictL1? || SetL1?
    }
  }

  datatype State = State(
    omitL1: bool,
    past: seq<Source>,
    source: Source,
    bumps: seq<nat>,
    l1: map<Key, Entry>,
    l2: map<Key, Entry>,
    flights: map<Key, Tid>,
    threads: map<Tid, Pc>)

  /** What one access does to a tier: nothing, store an entry, or delete keys. */
  datatype TierOp = Keep | Put(key: Key, entry: Entry) | Drop(keys: set<Key>)

  /** A flight opens with its leader and closes when that leader returns. */
  datatype FlightOp = Same | Open(key: Key) | Close(key: Key)

  /** The effect of one access of one call. */
  datatype Delta = Delta(pc: Pc, l1: TierOp, l2: TierOp, flight: FlightOp, bump: bool)

  function Only(pc: Pc): Delta {
    Delta(pc, Keep, Keep, Same, false)
  }

  /** The closure returns; the flight is still in the table. */
  function Land(k: Key, r: Result): Delta {
    Only(CloseFlight(k, r))
  }

  /** An L1 insert may be dropped; overwriting a stored key takes effect in place. */
  function PutL1(s: State, k: Key, e: Entry, applied: bool): TierOp {
    if applied || k in s.l1 then Put(k, e) else Keep
  }

  function PutL2(k: Key, e: Entry, applied: bool): TierOp {
    if applied then Put(k, e) else Keep
  }

  /** The next access of a call at pc. `ok` is the reply the access gets (a decode, a
      Redis round trip, the factory, an encode); `applied` says whether a write took
      effect, which a lost reply leaves open. */
  function React(s: State, t: Tid, pc: Pc, ok: bool, applied: bool): Delta
    requires !pc.IsDone()
    requires pc.Join? ==> pc.leader in s.threads && s.threads[pc.leader].GetDone?
  {
    var now := |s.past|;
    match pc
    case ReadL1(k) =>
      Only(if ok && k in s.l1 then GetDone(k, Hit(s.l1[k])) else ReadL2(k))
    case ReadL2(k) =>
      Only(if !(ok && k in s.l2) then EnterFlight(k)
           else if s.omitL1 then GetDone(k, Hit(s.l2[k])) else Refill(k, s.l2[k]))
    case Refill(k, e) =>
      Delta(GetDone(k, Hit(e)), PutL1(s, k, e, applied), Keep, Same, false)
    case EnterFlight(k) =>
      if k in s.flights then Only(Join(k, s.flights[k]))
      else Delta(CaptureGen(k), Keep, Keep, Open(k), false)
    case Join(k, leader) =>
      Only(GetDone(k, s.threads[leader].result))
    case CaptureGen(k) =>
      Only(ReadSource(k, |s.bumps|))
    case ReadSource(k, g) =>
      if ok && k in s.source then Only(CheckGen(k, g, Entry(s.source[k], now, false))) else Land(k, Error)
    case CheckGen(k, g, e) =>
      if ok && |s.bumps| == g then Only(WriteL2(k, e)) else Land(k, Hit(e))
    case WriteL2(k, e) =>
      (if s.omitL1 then Land(k, Hit(e)) else Only(WriteL1(k, e))).(l2 := PutL2(k, e, ok || applied))
    case WriteL1(k, e) =>
      Land(k, Hit(e)).(l1 := PutL1(s, k, e, applied))
    case CloseFlight(k, r) =>
      Only(GetDone(k, r)).(flight := Close(k))
    case Bump(ks) =>
      Only(if s.omitL1 then EvictL2(ks, now) else EvictL1(ks, 0, now)).(bump := true)
    case EvictL1(ks, i, b) =>
      if i < |ks| then Only(EvictL1(ks, i + 1, b)).(l1 := Drop({ks[i]})) else Only(EvictL2(ks, b))
    case EvictL2(ks, b) =>
      Only(InvalidateDone(ks, b, ok)).(l2 := if ok || applied then Drop(set k | k in ks) else Keep)
    case SetBump(k, v) =>
      if ok then Only(SetL2(k, Entry(v, now, true))).(bump := true) else Only(SetDone(false))
    case SetL2(k, e) =>
      Only(if !ok then SetDone(false) else if s.omitL1 then SetDone(true) else SetL1(k, e))
        .(l2 := PutL2(k, e, ok || applied))
    case SetL1(k, e) =>
      Only(SetDone(true)).(l1 := PutL1(s, k, e, applied))
  }

  function ApplyTier(m: map<Key, Entry>, op: TierOp): map<Key, Entry> {
    match op
    case Keep => m
    case Put(k, e) => m[k := e]
    case Drop(ks) => m - ks
  }

  function ApplyFlight(m: map<Key, Tid>, t: Tid, op: FlightOp): map<Key, Tid> {
    match op
    case Same => m
    case Open(k) => m[k := t]
    case Close(k) => m - {k}
  }

  function Apply(s: State, t: Tid, d: Delta): State {
    State(s.omitL1,
          s.past + [s.source],
          s.source,
          if d.bump then s.bumps + [|s.past|] else s.bumps,
          ApplyTier(s.l1, d.l1),
          ApplyTier(s.l2, d.l2),
          ApplyFlight(s.flights, t, d.flight),
          s.threads[t := d.pc])
  }

  datatype Action =
    | CallGet(t: Tid, key: Key)
    | CallInvalidate(t: Tid, keys: seq<Key>)
    | CallSet(t: Tid, key: Key, value: Value)
    | Advance(t: Tid, ok: bool, applied: bool)
    | SourceWrite(next: Source)
    | ExpireL1(key: Key)
    | ExpireL2(key: Key)

  function Init(omitL1: bool, source: Source): State {
    State(omitL1, [], source, [], map[], map[], map[], map[])
  }

  predicate Movable(s: State, t: Tid) {
    && t in s.threads
    && !s.threads[t].IsDone()
    && (s.threads[t].Join? ==>
          s.threads[t].leader in s.threads && s.threads[s.threads[t].leader].GetDone?)
  }

  predicate Enabled(s: State, a: Action) {
    match a
    case CallGet(t, _) => t !in s.threads
    case CallInvalidate(t, _) => t !in s.threads
    case CallSet(t, _, _) => t !in s.threads
    case Advance(t, _, _) => Movable(s, t)
    case SourceWrite(_) => true
    case ExpireL1(_) => true
    case ExpireL2(_) => true
  }

  /** The access a call starts with. InvalidateMany of no keys returns at once. */
  function Entrance(s: State, a: Action): Pc
    requires a.CallGet? || a.CallInvalidate? || a.CallSet?
  {
    match a
    case CallGet(_, k) => if s.omitL1 then ReadL2(k) else ReadL1(k)
    case CallInvalidate(_, ks) => if ks == [] then InvalidateDone(ks, |s.past|, true) else Bump(ks)
    case CallSet(_, k, v) => SetBump(k, v)
  }

  function Step(s: State, a: Action): State
    requires Enabled(s, a)
  {
    match a
    case Advance(t, ok, applied) => Apply(s, t, React(s, t, s.threads[t], ok, applied))
    case SourceWrite(next) => s.(source := next, past := s.past + [s.source])
    case ExpireL1(k) => s.(l1 := s.l1 - {k}, past := s.past + [s.source])
    case ExpireL2(k) => s.(l2 := s.l2 - {k}, past := s.past + [s.source])
    case _ => Apply(s, a.t, Only(Entrance(s, a)))
  }

  predicate Valid(s: State, run: seq<Action>)
    decreases |run|
  {
    run == [] || (Enabled(s, run[0]) && Valid(Step(s, run[0]), run[1..]))
  }

  function Exec(s: State, run: seq<Action>): State
    requires Valid(s, run)
    decreases |run|
  {
    if run == [] then s else Exec(Step(s, run[0]), run[1..])
  }

  // ----- What every reachable state satisfies ---------------------------------------

  /** The entry is older than now and, unless a Set supplied it, is what the source held
      for k at the instant it dates from. */
  ghost predicate Sound(past: seq<Source>, k: Key, e: Entry) {
    && e.birth < |past|
    && (!e.fromSet ==> k in past[e.birth] && past[e.birth][k] == e.value)
  }

  ghost predicate SoundTier(past: seq<Source>, m: map<Key, Entry>) {
    forall k | k in m :: Sound(past, k, m[k])
  }

  /** The first g bumps all precede the instant. */
  ghost predicate BumpsBefore(bumps: seq<nat>, g: nat, instant: nat) {
    g <= |bumps| && forall i | 0 <= i < g :: bumps[i] < instant
  }

  /** What a call knows on its own: the generation it captured counts bumps that precede
      its source read, and the entry it carries is sound. */
  ghost predicate LocalOk(omitL1: bool, past: seq<Source>, bumps: seq<nat>, pc: Pc) {
    && (omitL1 ==> !pc.UsesL1())
    && (pc.ReadSource? ==> pc.gen <= |bumps|)
    && (pc.CheckGen? ==> BumpsBefore(bumps, pc.gen, pc.entry.birth))
    && (pc.CheckGen? || pc.Refill? || pc.WriteL2? || pc.WriteL1? || pc.SetL2? || pc.SetL1? ==>
          Sound(past, pc.key, pc.entry))
    && ((pc.GetDone? || pc.CloseFlight?) && pc.result.Hit? ==> Sound(past, pc.key, pc.result.entry))
  }

  /** A leader owns its flight, and whoever joined a flight waits for its leader. */
  ghost predicate LinkOk(flights: map<Key, Tid>, threads: map<Tid, Pc>, t: Tid, pc: Pc) {
    && (forall k | pc.Fills(k) :: k in flights && flights[k] == t)
    && (pc.Join? ==> pc.leader in threads && Leads(threads[pc.leader], pc.key))
  }

  predicate Leads(pc: Pc, k: Key) {
    pc.Fills(k) || (pc.GetDone? && pc.key == k)
  }

  ghost predicate FlightsOk(flights: map<Key, Tid>, threads: map<Tid, Pc>) {
    forall k | k in flights :: flights[k] in threads && threads[flights[k]].Fills(k)
  }

  ghost predicate Inv(s: State) {
    && BumpsBefore(s.bumps, |s.bumps|, |s.past|)
    && (s.omitL1 ==> s.l1 == map[])
    && SoundTier(s.past, s.l1)
    && SoundTier(s.past, s.l2)
    && FlightsOk(s.flights, s.threads)
    && (forall t | t in s.threads :: LocalOk(s.omitL1, s.past, s.bumps, s.threads[t]))
    && (forall t | t in s.threads :: LinkOk(s.flights, s.threads, t, s.threads[t]))
  }

  lemma InitInv(omitL1: bool, source: Source)
    ensures Inv(Init(omitL1, source))
  {
  }

  /** What one access may do, seen from outside the call that performs it. */
  ghost predicate DeltaOk(s: State, t: Tid, pc: Pc, d: Delta) {
    && (d.l1.Put? ==> pc.WillStore(d.l1.key) && d.l1.entry == pc.entry && !s.omitL1)
    && (d.l2.Put? ==> pc.WillStore(d.l2.key) && d.l2.entry == pc.entry)
    && (d.flight.Same? ==> forall k :: pc.Fills(k) <==> d.pc.Fills(k))
    && (d.flight.Open? ==> pc == EnterFlight(d.flight.key) && d.flight.key !in s.flights && d.pc.Fills(d.flight.key))
    && (d.flight.Close? ==> pc.Fills(d.flight.key) && d.pc.GetDone? && d.pc.key == d.flight.key)
  }

  lemma ReactDelta(s: State, t: Tid, ok: bool, applied: bool)
    requires Movable(s, t) && (s.omitL1 ==> !s.threads[t].UsesL1())
    ensures DeltaOk(s, t, s.threads[t], React(s, t, s.threads[t], ok, applied))
  {
  }

  lemma LookupLocal(s: State, t: Tid, ok: bool, applied: bool)
    requires Movable(s, t)
    requires s.threads[t].ReadL1? || s.threads[t].ReadL2? || s.threads[t].EnterFlight? || s.threads[t].Join?
    requires SoundTier(s.past, s.l1) && SoundTier(s.past, s.l2)
    requires s.threads[t].Join? ==> LocalOk(s.omitL1, s.past, s.bumps, s.threads[s.threads[t].leader])
                                    && s.threads[s.threads[t].leader].key == s.threads[t].key
    ensures LocalOk(s.omitL1, s.past + [s.source], s.bumps, React(s, t, s.threads[t], ok, applied).pc)
  {
  }

  lemma CarrierLocal(s: State, t: Tid, ok: bool, applied: bool)
    requires Movable(s, t) && BumpsBefore(s.bumps, |s.bumps|, |s.past|)
    requires LocalOk(s.omitL1, s.past, s.bumps, s.threads[t])
    requires !(s.threads[t].ReadL1? || s.threads[t].ReadL2? || s.threads[t].EnterFlight? || s.threads[t].Join?)
    ensures var d := React(s, t, s.threads[t], ok, applied);
            LocalOk(s.omitL1, s.past + [s.source], if d.bump then s.bumps + [|s.past|] else s.bumps, d.pc)
  {
  }

  lemma ReactLocal(s: State, t: Tid, ok: bool, applied: bool)
    requires Inv(s) && Movable(s, t)
    ensures var d := React(s, t, s.threads[t], ok, applied);
            LocalOk(s.omitL1, s.past + [s.source], if d.bump then s.bumps + [|s.past|] else s.bumps, d.pc)
  {
    var pc := s.threads[t];
    assert LocalOk(s.omitL1, s.past, s.bumps, pc);
    if pc.ReadL1? || pc.ReadL2? || pc.EnterFlight? || pc.Join? {
      assert LinkOk(s.flights, s.threads, t, pc);
      LookupLocal(s, t, ok, applied);
    } else {
      CarrierLocal(s, t, ok, applied);
    }
  }

  lemma LocalLater(omitL1: bool, past: seq<Source>, bumps: seq<nat>, pc: Pc, src: Source, more: seq<nat>)
    requires LocalOk(omitL1, past, bumps, pc)
    ensures LocalOk(omitL1, past + [src], bumps + more, pc)
  {
  }

  lemma LinkOther(s: State, t: Tid, d: Delta, u: Tid)
    requires u in s.threads && u != t && LinkOk(s.flights, s.threads, u, s.threads[u])
    requires t in s.threads ==> LinkOk(s.flights, s.threads, t, s.threads[t]) && DeltaOk(s, t, s.threads[t], d) && !s.threads[t].IsDone()
    requires t !in s.threads ==> d.flight.Same?
    ensures LinkOk(ApplyFlight(s.flights, t, d.flight), s.threads[t := d.pc], u, s.threads[u])
  {
  }

  lemma LinkMoved(s: State, t: Tid, ok: bool, applied: bool)
    requires Movable(s, t) && LinkOk(s.flights, s.threads, t, s.threads[t])
    requires FlightsOk(s.flights, s.threads)
    requires DeltaOk(s, t, s.threads[t], React(s, t, s.threads[t], ok, applied))
    ensures var d := React(s, t, s.threads[t], ok, applied);
            LinkOk(ApplyFlight(s.flights, t, d.flight), s.threads[t := d.pc], t, d.pc)
  {
  }

  lemma FlightsMoved(s: State, t: Tid, d: Delta)
    requires FlightsOk(s.flights, s.threads)
    requires t in s.threads ==> LinkOk(s.flights, s.threads, t, s.threads[t]) && DeltaOk(s, t, s.threads[t], d)
    requires t !in s.threads ==> d.flight.Same?
    ensures FlightsOk(ApplyFlight(s.flights, t, d.flight), s.threads[t := d.pc])
  {
  }

  lemma TierMoved(past: seq<Source>, src: Source, m: map<Key, Entry>, op: TierOp)
    requires SoundTier(past, m) && (op.Put? ==> Sound(past, op.key, op.entry))
    ensures SoundTier(past + [src], ApplyTier(m, op))
  {
  }

  lemma AdvanceInv(s: State, t: Tid, ok: bool, applied: bool)
    requires Inv(s) && Movable(s, t)
    ensures Inv(Apply(s, t, React(s, t, s.threads[t], ok, applied)))
  {
    var pc := s.threads[t];
    var d := React(s, t, pc, ok, applied);
    assert LocalOk(s.omitL1, s.past, s.bumps, pc) && LinkOk(s.flights, s.threads, t, pc);
    ReactDelta(s, t, ok, applied);
    ReactLocal(s, t, ok, applied);
    LinkMoved(s, t, ok, applied);
    ApplyInv(s, t, d);
  }

  lemma ApplyInv(s: State, t: Tid, d: Delta)
    requires Inv(s)
    requires t in s.threads ==> !s.threads[t].IsDone() && DeltaOk(s, t, s.threads[t], d)
    requires t !in s.threads ==> d == Only(d.pc)
    requires LocalOk(s.omitL1, s.past + [s.source], if d.bump then s.bumps + [|s.past|] else s.bumps, d.pc)
    requires LinkOk(ApplyFlight(s.flights, t, d.flight), s.threads[t := d.pc], t, d.pc)
    ensures Inv(Apply(s, t, d))
  {
    var s' := Apply(s, t, d);
    var more := if d.bump then [|s.past|] else [];
    assert s'.bumps == s.bumps + more;
    if t in s.threads {
      assert LocalOk(s.omitL1, s.past, s.bumps, s.threads[t]) && LinkOk(s.flights, s.threads, t, s.threads[t]);
    }
    forall u | u in s'.threads ensures LocalOk(s'.omitL1, s'.past, s'.bumps, s'.threads[u]) {
      if u != t { LocalLater(s.omitL1, s.past, s.bumps, s.threads[u], s.source, more); }
    }
    forall u | u in s'.threads ensures LinkOk(s'.flights, s'.threads, u, s'.threads[u]) {
      if u != t { LinkOther(s, t, d, u); }
    }
    FlightsMoved(s, t, d);
    TierMoved(s.past, s.source, s.l1, d.l1);
    TierMoved(s.past, s.source, s.l2, d.l2);
  }

  lemma EnvironmentInv(s: State, a: Action)
    requires Inv(s) && (a.SourceWrite? || a.ExpireL1? || a.ExpireL2?)
    ensures Inv(Step(s, a))
  {
    var s' := Step(s, a);
    forall u | u in s'.threads ensures LocalOk(s'.omitL1, s'.past, s'.bumps, s'.threads[u]) {
      LocalLater(s.omitL1, s.past, s.bumps, s.threads[u], s.source, []);
      assert s.bumps + [] == s.bumps;
    }
  }

  lemma StepInv(s: State, a: Action)
    requires Inv(s) && Enabled(s, a)
    ensures Inv(Step(s, a))
  {
    if a.Advance? {
      AdvanceInv(s, a.t, a.ok, a.applied);
    } else if a.CallGet? || a.CallInvalidate? || a.CallSet? {
      ApplyInv(s, a.t, Only(Entrance(s, a)));
    } else {
      EnvironmentInv(s, a);
    }
  }

  lemma {:induction false} RunInv(s: State, run: seq<Action>)
    requires Inv(s) && Valid(s, run)
    ensures Inv(Exec(s, run))
    decreases |run|
  {
    if run != [] {
      StepInv(s, run[0]);
      RunInv(Step(s, run[0]), run[1..]);
    }
  }

  // ----- The fence ------------------------------------------------------------------

  /** Entry e for k sits in a tier, or in the hands of a call about to store it. */
  ghost predicate Held(s: State, k: Key, e: Entry) {
    || (k in s.l1 && s.l1[k] == e)
    || (k in s.l2 && s.l2[k] == e)
    || (exists t | t in s.threads :: s.threads[t].WillStore(k) && s.threads[t].entry == e)
  }

  /** A call comes to hold an entry only by taking it from L2, by passing the generation
      check, by storing it a tier at a time, or by a Set bumping now. The generation check
      lets no entry through that is older than a bump. */
  lemma ReactHolds(s: State, t: Tid, ok: bool, applied: bool, k: Key, b: nat)
    requires Movable(s, t) && b in s.bumps && b < |s.past|
    requires LocalOk(s.omitL1, s.past, s.bumps, s.threads[t])
    ensures var pc, pc' := s.threads[t], React(s, t, s.threads[t], ok, applied).pc;
            pc'.WillStore(k) && pc'.entry.birth < b ==>
              (pc.WillStore(k) && pc.entry == pc'.entry) || (k in s.l2 && s.l2[k] == pc'.entry && !s.omitL1)
  {
    var i :| 0 <= i < |s.bumps| && s.bumps[i] == b;
  }

  lemma HeldBefore(s: State, t: Tid, d: Delta, k: Key, e: Entry)
    requires t in s.threads ==> DeltaOk(s, t, s.threads[t], d)
    requires t !in s.threads ==> d == Only(d.pc)
    requires d.pc.WillStore(k) && d.pc.entry == e ==> Held(s, k, e)
    requires Held(Apply(s, t, d), k, e)
    ensures Held(s, k, e)
  {
    var s' := Apply(s, t, d);
    if k in s'.l1 && s'.l1[k] == e {
    } else if k in s'.l2 && s'.l2[k] == e {
    } else {
      var u :| u in s'.threads && s'.threads[u].WillStore(k) && s'.threads[u].entry == e;
      assert u != t ==> s.threads[u] == s'.threads[u];
    }
  }

  /** Once a bump has happened, no step brings an entry older than it back. */
  lemma StaleStep(s: State, a: Action, k: Key, b: nat, e: Entry)
    requires Inv(s) && Enabled(s, a) && b in s.bumps && e.birth < b
    requires Held(Step(s, a), k, e)
    ensures Held(s, k, e)
  {
    if a.Advance? {
      assert LocalOk(s.omitL1, s.past, s.bumps, s.threads[a.t]);
      ReactDelta(s, a.t, a.ok, a.applied);
      ReactHolds(s, a.t, a.ok, a.applied, k, b);
      HeldBefore(s, a.t, React(s, a.t, s.threads[a.t], a.ok, a.applied), k, e);
    } else if a.CallGet? || a.CallInvalidate? || a.CallSet? {
      HeldBefore(s, a.t, Only(Entrance(s, a)), k, e);
    }
  }

  lemma BumpsGrow(s: State, a: Action)
    requires Enabled(s, a)
    ensures s.bumps <= Step(s, a).bumps && |Step(s, a).past| == |s.past| + 1
    ensures Step(s, a).omitL1 == s.omitL1
  {
  }

  /** Over every run: entries older than a bump only ever disappear after it. */
  lemma {:induction false} StaleNeverReturns(s: State, run: seq<Action>, k: Key, b: nat, e: Entry)
    requires Inv(s) && Valid(s, run) && b in s.bumps && e.birth < b
    requires Held(Exec(s, run), k, e)
    ensures Held(s, k, e)
    decreases |run|
  {
    if run != [] {
      StepInv(s, run[0]);
      BumpsGrow(s, run[0]);
      StaleNeverReturns(Step(s, run[0]), run[1..], k, b, e);
      StaleStep(s, run[0], k, b, e);
    }
  }

  ghost predicate TiersFresh(s: State, k: Key, b: nat) {
    && (k in s.l1 ==> s.l1[k].birth >= b)
    && (k in s.l2 ==> s.l2[k].birth >= b)
  }

  ghost predicate Fenced(s: State, k: Key, b: nat) {
    && TiersFresh(s, k, b)
    && forall t | t in s.threads && s.threads[t].WillStore(k) :: s.threads[t].entry.birth >= b
  }

  lemma FencedRun(s: State, run: seq<Action>, k: Key, b: nat)
    requires Inv(s) && Valid(s, run) && b in s.bumps && Fenced(s, k, b)
    ensures Fenced(Exec(s, run), k, b)
  {
    var s' := Exec(s, run);
    forall e | Held(s', k, e) ensures e.birth >= b {
      if e.birth < b {
        StaleNeverReturns(s, run, k, b, e);
        assert false;
      }
    }
    if k in s'.l1 { assert Held(s', k, s'.l1[k]); }
    if k in s'.l2 { assert Held(s', k, s'.l2[k]); }
    forall t | t in s'.threads && s'.threads[t].WillStore(k) ensures s'.threads[t].entry.birth >= b {
      assert Held(s', k, s'.threads[t].entry);
    }
  }

  lemma Unroll(s: State, a: Action, rest: seq<Action>)
    requires Enabled(s, a) && Valid(Step(s, a), rest)
    ensures Valid(s, [a] + rest) && Exec(s, [a] + rest) == Exec(Step(s, a), rest)
  {
    assert ([a] + rest)[0] == a && ([a] + rest)[1..] == rest;
  }

  lemma {:induction false} ExecConcat(s: State, xs: seq<Action>, ys: seq<Action>)
    requires Valid(s, xs) && Valid(Exec(s, xs), ys)
    ensures Valid(s, xs + ys) && Exec(s, xs + ys) == Exec(Exec(s, xs), ys)
    decreases |xs|
  {
    if xs == [] {
      assert xs + ys == ys;
    } else {
      ExecConcat(Step(s, xs[0]), xs[1..], ys);
      assert (xs + ys)[0] == xs[0] && (xs + ys)[1..] == xs[1..] + ys;
    }
  }

  /** A call past its checks can store its entry in one step. */
  lemma StoreLands(s: State, t: Tid, k: Key)
    requires t in s.threads && s.threads[t].WillStore(k)
    ensures Enabled(s, Advance(t, true, true))
    ensures var s' := Step(s, Advance(t, true, true));
            && s'.threads.Keys == s.threads.Keys
            && ((k in s'.l1 && s'.l1[k] == s.threads[t].entry) || (k in s'.l2 && s'.l2[k] == s.threads[t].entry))
  {
  }

  /** Without the fence, at most one more step puts an old entry into a tier. */
  lemma Unfenced(s: State, k: Key, b: nat) returns (run: seq<Action>)
    requires !Fenced(s, k, b)
    ensures Valid(s, run) && !TiersFresh(Exec(s, run), k, b)
  {
    if TiersFresh(s, k, b) {
      var t :| t in s.threads && s.threads[t].WillStore(k) && s.threads[t].entry.birth < b;
      StoreLands(s, t, k);
      var a := Advance(t, true, true);
      Unroll(s, a, []);
      run := [a] + [];
    } else {
      run := [];
    }
  }

  /**
   * The exact fence. After a bump b, the tiers stay free of entries for k older than b
   * in every possible continuation if and only if they are free of them now and no call
   * past its checks carries one.
   */
  lemma FenceExact(s: State, k: Key, b: nat)
    requires Inv(s) && b in s.bumps
    ensures (forall run | Valid(s, run) :: TiersFresh(Exec(s, run), k, b)) <==> Fenced(s, k, b)
  {
    if Fenced(s, k, b) {
      forall run | Valid(s, run) ensures TiersFresh(Exec(s, run), k, b) {
        FencedRun(s, run, k, b);
      }
    } else {
      var run := Unfenced(s, k, b);
      assert Valid(s, run) && !TiersFresh(Exec(s, run), k, b);
    }
  }
}
