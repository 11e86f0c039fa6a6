/**
 * Message deliveries through the resilience stack as a step machine: inbox lookup, handler
 * attempts, audit write, inbox insert, dead-letter publish, ack or nack. Any number of
 * deliveries, duplicates included, interleave, and a crash may wipe out any of them
 * between two steps.
 */
module Delivery {
  import opened Naturals
  import opened Errors

  /** One unit of work: a message as seen by one named handler. */
  datatype Item = Item(message: string, handler: string)

  datatype Attempt = Succeeds | Fails(err: GoError) | Panics(text: string)

  datatype Run = Run(item: Item, attempt: Attempt)

  datatype AuditEntry = AuditEntry(item: Item, succeeded: bool)

  /** What deliveries leave behind: processed rows, dead letters, audit writes and the
      handler attempts made, the last three in order. `tick` counts accesses. */
  datatype World = World(tick: nat, inbox: set<Item>, dead: seq<Item>, audits: seq<AuditEntry>, runs: seq<Run>)

  /** A database statement or a publish succeeds, fails, or takes effect with its reply lost. */
  datatype Reply = Done | Broken(err: GoError) | Lost(err: GoError)

  /** What the surroundings answer to one access; `cancelled` is read while Retry backs off. */
  datatype Signal = Signal(io: Reply, attempt: Attempt, cancelled: bool)

  datatype Why = FoundRow | Recorded | DeadLettered

  /** Where a delivery stands; each constructor names the access it performs next. */
  datatype Pc =
    | Lookup
    | Try(retries: nat)
    | Audit(outcome: Nilable)
    | Record
    | Salvage(err: GoError)
    | Acked(why: Why)
    | Nacked
    | Crashed
  {
    predicate IsDone() {
      Acked? || Nacked? || Crashed?
    }
  }

  /** What one access adds to the world. */
  datatype Delta = Delta(pc: Pc, runs: seq<Attempt>, audits: seq<bool>, row: bool, dead: bool)

  function Only(pc: Pc): Delta {
    Delta(pc, [], [], false, false)
  }

  /** Recoverer turns a panic into an error. */
  function Recovered(a: Attempt): Nilable {
    match a
    case Succeeds => Nil
    case Fails(e) => Some(e)
    case Panics(text) => Some(Plain("panic occurred: " + text))
  }

  /** Retry goes on while the error is retryable, retries are left and nobody cancelled. */
  predicate Retries(maxRetries: nat, retries: nat, e: GoError, cancelled: bool) {
    !IsNonRetryable(e) && retries < maxRetries && !cancelled
  }

  function React(maxRetries: nat, item: Item, inbox: set<Item>, pc: Pc, s: Signal): Delta
    requires !pc.IsDone()
  {
    match pc
    case Lookup =>
      Only(if !s.io.Done? then Salvage(Wrap("inbox: lookup", [s.io.err]))
           else if item in inbox then Acked(FoundRow) else Try(0))
    case Try(n) =>
      var out := Recovered(s.attempt);
      var next := if out.Some? && Retries(maxRetries, n, out.err, s.cancelled) then Try(n + 1) else Audit(out);
      Only(next).(runs := [s.attempt])
    case Audit(out) =>
      Only(if out.Nil? then Record else Salvage(out.err)).(audits := [out.Nil?])
    case Record =>
      Only(if s.io.Done? then Acked(Recorded) else Salvage(Wrap("inbox: record", [s.io.err])))
        .(row := !s.io.Broken?)
    case Salvage(e) =>
      if IsCanceled(e) then Only(Nacked)
      else Only(if s.io.Done? then Acked(DeadLettered) else Nacked).(dead := !s.io.Broken?)
  }

  function Apply(w: World, item: Item, d: Delta): World {
    World(w.tick + 1,
          if d.row then w.inbox + {item} else w.inbox,
          if d.dead then w.dead + [item] else w.dead,
          if d.audits == [] then w.audits else w.audits + [AuditEntry(item, d.audits[0])],
          if d.runs == [] then w.runs else w.runs + [Run(item, d.runs[0])])
  }

  // ----- Many deliveries ----------------------------------------------------------------

  datatype Flow = Flow(item: Item, pc: Pc)

  datatype State = State(world: World, published: set<Item>, flows: map<nat, Flow>)

  /** The broker may deliver a published message any number of times, acked or not. */
  datatype Action =
    | Publish(item: Item)
    | Deliver(id: nat, item: Item)
    | Advance(id: nat, signal: Signal)
    | Crash(lost: set<nat>)

  const Start := State(World(0, {}, [], [], []), {}, map[])

  predicate Enabled(s: State, a: Action) {
    match a
    case Publish(_) => true
    case Deliver(id, item) => id !in s.flows && item in s.published
    case Advance(id, _) => id in s.flows && !s.flows[id].pc.IsDone()
    case Crash(_) => true
  }

  /** A crash takes the unfinished deliveries it hits; finished ones stay as they are. */
  function Struck(flows: map<nat, Flow>, lost: set<nat>): map<nat, Flow> {
    map id | id in flows ::
      if id in lost && !flows[id].pc.IsDone() then Flow(flows[id].item, Crashed) else flows[id]
  }

  function Step(maxRetries: nat, s: State, a: Action): State
    requires Enabled(s, a)
  {
    match a
    case Publish(item) => s.(published := s.published + {item})
    case Deliver(id, item) => s.(flows := s.flows[id := Flow(item, Lookup)])
    case Advance(id, sig) =>
      var f := s.flows[id];
      var d := React(maxRetries, f.item, s.world.inbox, f.pc, sig);
      State(Apply(s.world, f.item, d), s.published, s.flows[id := Flow(f.item, d.pc)])
    case Crash(lost) => s.(flows := Struck(s.flows, lost))
  }

  predicate Valid(maxRetries: nat, s: State, run: seq<Action>)
    decreases |run|
  {
    run == [] || (Enabled(s, run[0]) && Valid(maxRetries, Step(maxRetries, s, run[0]), run[1..]))
  }

  function Exec(maxRetries: nat, s: State, run: seq<Action>): State
    requires Valid(maxRetries, s, run)
    decreases |run|
  {
    if run == [] then s else Exec(maxRetries, Step(maxRetries, s, run[0]), run[1..])
  }

  // ----- What every run keeps -------------------------------------------------------------

  ghost predicate Succeeded(runs: seq<Run>, item: Item) {
    Run(item, Succeeds) in runs
  }

  ghost predicate FlowOk(maxRetries: nat, w: World, published: set<Item>, f: Flow) {
    && f.item in published
    && (f.pc.Try? ==> f.pc.retries <= maxRetries)
    && (f.pc.Record? || f.pc == Audit(Nil) ==> Succeeded(w.runs, f.item))
    && (f.pc == Acked(FoundRow) || f.pc == Acked(Recorded) ==> f.item in w.inbox)
    && (f.pc == Acked(DeadLettered) ==> f.item in w.dead)
  }

  ghost predicate Inv(maxRetries: nat, s: State) {
    && (forall item | item in s.world.inbox :: Succeeded(s.world.runs, item))
    && (forall id | id in s.flows :: FlowOk(maxRetries, s.world, s.published, s.flows[id]))
  }

  ghost predicate Grown(w: World, w': World) {
    w.inbox <= w'.inbox && w.dead <= w'.dead && w.audits <= w'.audits && w.runs <= w'.runs
  }

  lemma ApplyGrows(w: World, item: Item, d: Delta)
    ensures Grown(w, Apply(w, item, d))
  {
  }

  lemma SuccessKept(runs: seq<Run>, runs': seq<Run>, item: Item)
    requires Succeeded(runs, item) && runs <= runs'
    ensures Succeeded(runs', item)
  {
    var i :| 0 <= i < |runs| && runs[i] == Run(item, Succeeds);
    assert runs'[i] == runs[i];
  }

  lemma FlowOkLater(maxRetries: nat, w: World, w': World, published: set<Item>, published': set<Item>, f: Flow)
    requires FlowOk(maxRetries, w, published, f) && Grown(w, w') && published <= published'
    ensures FlowOk(maxRetries, w', published', f)
  {
    if Succeeded(w.runs, f.item) {
      SuccessKept(w.runs, w'.runs, f.item);
    }
  }

  lemma ReactOk(maxRetries: nat, w: World, published: set<Item>, f: Flow, sig: Signal)
    requires FlowOk(maxRetries, w, published, f) && !f.pc.IsDone()
    requires forall item | item in w.inbox :: Succeeded(w.runs, item)
    ensures var d := React(maxRetries, f.item, w.inbox, f.pc, sig);
            var w' := Apply(w, f.item, d);
            && FlowOk(maxRetries, w', published, Flow(f.item, d.pc))
            && forall item | item in w'.inbox :: Succeeded(w'.runs, item)
  {
    var d := React(maxRetries, f.item, w.inbox, f.pc, sig);
    var w' := Apply(w, f.item, d);
    ApplyGrows(w, f.item, d);
    forall item | Succeeded(w.runs, item) ensures Succeeded(w'.runs, item) {
      SuccessKept(w.runs, w'.runs, item);
    }
    if f.pc.Try? && sig.attempt.Succeeds? {
      assert w'.runs[|w.runs|] == Run(f.item, Succeeds);
    }
  }

  lemma StepInv(maxRetries: nat, s: State, a: Action)
    requires Inv(maxRetries, s) && Enabled(s, a)
    ensures Inv(maxRetries, Step(maxRetries, s, a))
    ensures Grown(s.world, Step(maxRetries, s, a).world)
  {
    var s' := Step(maxRetries, s, a);
    if a.Advance? {
      var f := s.flows[a.id];
      ReactOk(maxRetries, s.world, s.published, f, a.signal);
      ApplyGrows(s.world, f.item, React(maxRetries, f.item, s.world.inbox, f.pc, a.signal));
    }
    forall id | id in s'.flows ensures FlowOk(maxRetries, s'.world, s'.published, s'.flows[id]) {
      if id in s.flows && s'.flows[id] == s.flows[id] {
        FlowOkLater(maxRetries, s.world, s'.world, s.published, s'.published, s.flows[id]);
      }
    }
  }

  lemma {:induction false} RunInv(maxRetries: nat, s: State, run: seq<Action>)
    requires Inv(maxRetries, s) && Valid(maxRetries, s, run)
    ensures Inv(maxRetries, Exec(maxRetries, s, run))
    ensures Grown(s.world, Exec(maxRetries, s, run).world)
    decreases |run|
  {
    if run != [] {
      StepInv(maxRetries, s, run[0]);
      RunInv(maxRetries, Step(maxRetries, s, run[0]), run[1..]);
    }
  }

  // ----- No silent loss -------------------------------------------------------------------

  /**
   * Over every run of deliveries, duplicates and crashes: a delivery the broker was told to
   * forget either found or left a processed row, and then some attempt of that handler on
   * that message returned nil, or its message is among the dead letters. A processed row
   * never exists without such an attempt.
   */
  lemma NoSilentLoss(maxRetries: nat, run: seq<Action>, id: nat)
    requires Valid(maxRetries, Start, run)
    requires var s := Exec(maxRetries, Start, run); id in s.flows && s.flows[id].pc.Acked?
    ensures var s := Exec(maxRetries, Start, run);
            var f := s.flows[id];
            && f.item in s.published
            && (f.pc.why != DeadLettered ==> f.item in s.world.inbox && Succeeded(s.world.runs, f.item))
            && (f.pc.why == DeadLettered ==> f.item in s.world.dead)
  {
    RunInv(maxRetries, Start, run);
  }

  lemma RowsNeedASuccess(maxRetries: nat, run: seq<Action>, item: Item)
    requires Valid(maxRetries, Start, run) && item in Exec(maxRetries, Start, run).world.inbox
    ensures Succeeded(Exec(maxRetries, Start, run).world.runs, item)
  {
    RunInv(maxRetries, Start, run);
  }

  /** A delivery whose error is a cancellation, one that was nacked because its dead-letter
      publish failed, and one struck by a crash are not acked in any continuation. */
  lemma {:induction false} NeverAcked(maxRetries: nat, s: State, run: seq<Action>, id: nat)
    requires Valid(maxRetries, s, run) && id in s.flows
    requires Hopeless(s.flows[id].pc)
    ensures var s' := Exec(maxRetries, s, run); id in s'.flows && !s'.flows[id].pc.Acked?
    decreases |run|
  {
    if run != [] {
      NeverAcked(maxRetries, Step(maxRetries, s, run[0]), run[1..], id);
    }
  }

  predicate Hopeless(pc: Pc) {
    pc.Nacked? || pc.Crashed? || (pc.Salvage? && IsCanceled(pc.err)) || (pc.Audit? && pc.outcome.Some? && IsCanceled(pc.outcome.err))
  }

  predicate AckedIn(s: State, id: nat) {
    id in s.flows && s.flows[id].pc.Acked?
  }

  /** The error a delivery has given up on. */
  predicate GaveUp(pc: Pc, e: GoError) {
    pc == Audit(Some(e)) || pc == Salvage(e)
  }

  /** A delivery cancelled while Retry backs off gives up on its last error, whatever it is. */
  lemma CancelledGivesUp(maxRetries: nat, s: State, id: nat, sig: Signal)
    requires id in s.flows && s.flows[id].pc.Try? && sig.cancelled && Recovered(sig.attempt).Some?
    ensures GaveUp(Step(maxRetries, s, Advance(id, sig)).flows[id].pc, Recovered(sig.attempt).err)
  {
  }

  /** A delivery that has given up is acked in some continuation exactly when its last error is
      no cancellation. In particular one cancelled while Retry backed off after another error
      can be acked. */
  lemma GivenUpExact(maxRetries: nat, s: State, id: nat, e: GoError)
    requires id in s.flows && GaveUp(s.flows[id].pc, e)
    ensures (exists run :: Valid(maxRetries, s, run) && AckedIn(Exec(maxRetries, s, run), id)) <==> !IsCanceled(e)
  {
    if IsCanceled(e) {
      forall run | Valid(maxRetries, s, run) ensures !AckedIn(Exec(maxRetries, s, run), id) {
        NeverAcked(maxRetries, s, run, id);
      }
    } else {
      var run := SalvageRun(maxRetries, s, id, e);
    }
  }

  /** The audit write, if it is still to come, and an acknowledged publish. */
  lemma SalvageRun(maxRetries: nat, s: State, id: nat, e: GoError) returns (run: seq<Action>)
    requires id in s.flows && GaveUp(s.flows[id].pc, e) && !IsCanceled(e)
    ensures Valid(maxRetries, s, run)
    ensures var s' := Exec(maxRetries, s, run);
            s'.flows == s.flows[id := Flow(s.flows[id].item, Acked(DeadLettered))]
  {
    var a := Advance(id, Quiet);
    var none: seq<Action> := [];
    if s.flows[id].pc.Salvage? {
      Unroll(maxRetries, s, a, none);
      run := [a] + none;
    } else {
      var s1 := Step(maxRetries, s, a);
      Unroll(maxRetries, s1, a, none);
      Unroll(maxRetries, s, a, [a] + none);
      run := [a] + ([a] + none);
    }
  }

  /** The first delivery of an item, up to its first attempt. */
  lemma FirstAttempt(maxRetries: nat, item: Item) returns (run: seq<Action>)
    ensures Valid(maxRetries, Start, run)
    ensures Exec(maxRetries, Start, run).flows == map[0 := Flow(item, Try(0))]
    ensures Exec(maxRetries, Start, run).published == {item} && Exec(maxRetries, Start, run).world.inbox == {}
  {
    var s1 := Step(maxRetries, Start, Publish(item));
    var s2 := Step(maxRetries, s1, Deliver(0, item));
    var none: seq<Action> := [];
    Unroll(maxRetries, s2, Advance(0, Quiet), none);
    run := [Advance(0, Quiet)] + none;
    Unroll(maxRetries, s1, Deliver(0, item), run);
    run := [Deliver(0, item)] + run;
    Unroll(maxRetries, Start, Publish(item), run);
    run := [Publish(item)] + run;
  }

  /** For every item a run in which a delivery is cancelled while Retry backs off after a plain
      error, and is acked all the same. */
  lemma CancelledYetAcked(maxRetries: nat, item: Item, text: string)
    ensures exists run, i :: 0 <= i < |run| && Valid(maxRetries, Start, run)
              && run[i] == Advance(0, Signal(Done, Fails(Plain(text)), true))
              && Exec(maxRetries, Start, run).flows == map[0 := Flow(item, Acked(DeadLettered))]
  {
    var run := FirstAttempt(maxRetries, item);
    var s := Exec(maxRetries, Start, run);
    var sig := Signal(Done, Fails(Plain(text)), true);
    var a := Advance(0, sig);
    CancelledGivesUp(maxRetries, s, 0, sig);
    var s1 := Step(maxRetries, s, a);
    var rest := SalvageRun(maxRetries, s1, 0, Plain(text));
    Unroll(maxRetries, s, a, rest);
    ExecConcat(maxRetries, Start, run, [a] + rest);
    assert (run + ([a] + rest))[|run|] == a;
    assert s1.flows[0 := Flow(item, Acked(DeadLettered))] == map[0 := Flow(item, Acked(DeadLettered))];
  }

  lemma {:induction false} ExecConcat(maxRetries: nat, s: State, a: seq<Action>, b: seq<Action>)
    requires Valid(maxRetries, s, a) && Valid(maxRetries, Exec(maxRetries, s, a), b)
    ensures Valid(maxRetries, s, a + b)
    ensures Exec(maxRetries, s, a + b) == Exec(maxRetries, Exec(maxRetries, s, a), b)
    decreases |a|
  {
    if a == [] {
      assert a + b == b;
    } else {
      assert (a + b)[0] == a[0] && (a + b)[1..] == a[1..] + b;
      ExecConcat(maxRetries, Step(maxRetries, s, a[0]), a[1..], b);
    }
  }

  // ----- When the handler cannot run again -----------------------------------------------------

  /** The number of attempts made for the item. */
  function Attempts(runs: seq<Run>, item: Item): nat {
    if runs == [] then 0
    else Attempts(runs[..|runs| - 1], item) + (if runs[|runs| - 1].item == item then 1 else 0)
  }

  /** The row is there and no delivery of the item is past its lookup. */
  ghost predicate Settled(s: State, item: Item) {
    && item in s.world.inbox
    && forall id | id in s.flows && s.flows[id].item == item :: !s.flows[id].pc.Try?
  }

  lemma SettledStep(maxRetries: nat, s: State, a: Action, item: Item)
    requires Enabled(s, a) && Settled(s, item)
    ensures Settled(Step(maxRetries, s, a), item)
    ensures Attempts(Step(maxRetries, s, a).world.runs, item) == Attempts(s.world.runs, item)
  {
    if a.Advance? {
      var runs, runs' := s.world.runs, Step(maxRetries, s, a).world.runs;
      assert runs' == runs || runs'[..|runs'| - 1] == runs;
    }
  }

  lemma {:induction false} SettledRun(maxRetries: nat, s: State, run: seq<Action>, item: Item)
    requires Valid(maxRetries, s, run) && Settled(s, item)
    ensures Attempts(Exec(maxRetries, s, run).world.runs, item) == Attempts(s.world.runs, item)
    decreases |run|
  {
    if run != [] {
      SettledStep(maxRetries, s, run[0], item);
      SettledRun(maxRetries, Step(maxRetries, s, run[0]), run[1..], item);
    }
  }

  lemma Unroll(maxRetries: nat, s: State, a: Action, rest: seq<Action>)
    requires Enabled(s, a) && Valid(maxRetries, Step(maxRetries, s, a), rest)
    ensures Valid(maxRetries, s, [a] + rest)
    ensures Exec(maxRetries, s, [a] + rest) == Exec(maxRetries, Step(maxRetries, s, a), rest)
  {
    assert ([a] + rest)[0] == a && ([a] + rest)[1..] == rest;
  }

  const Quiet := Signal(Done, Succeeds, false)

  /** A delivery past its lookup runs the handler next. */
  lemma TryRuns(maxRetries: nat, s: State, id: nat, item: Item) returns (run: seq<Action>)
    requires id in s.flows && s.flows[id].pc.Try? && s.flows[id].item == item
    ensures Valid(maxRetries, s, run)
    ensures Attempts(Exec(maxRetries, s, run).world.runs, item) > Attempts(s.world.runs, item)
  {
    var s' := Step(maxRetries, s, Advance(id, Quiet));
    assert s'.world.runs[..|s'.world.runs| - 1] == s.world.runs;
    Unroll(maxRetries, s, Advance(id, Quiet), []);
    run := [Advance(id, Quiet)] + [];
  }

  /** Without a row, a redelivery runs the handler. */
  lemma RedeliveryRuns(maxRetries: nat, s: State, item: Item) returns (run: seq<Action>)
    requires item !in s.world.inbox
    ensures Valid(maxRetries, s, run)
    ensures Attempts(Exec(maxRetries, s, run).world.runs, item) > Attempts(s.world.runs, item)
  {
    var id := FreshNat(s.flows.Keys);
    var s1 := Step(maxRetries, s, Publish(item));
    var s2 := Step(maxRetries, s1, Deliver(id, item));
    var s3 := Step(maxRetries, s2, Advance(id, Quiet));
    run := TryRuns(maxRetries, s3, id, item);
    Unroll(maxRetries, s2, Advance(id, Quiet), run);
    run := [Advance(id, Quiet)] + run;
    Unroll(maxRetries, s1, Deliver(id, item), run);
    run := [Deliver(id, item)] + run;
    Unroll(maxRetries, s, Publish(item), run);
    run := [Publish(item)] + run;
  }

  /**
   * At most once, exactly. No continuation attempts the item again if and only if its
   * processed row exists and no delivery of it has passed the lookup and still has attempts
   * to make. The inbox documents at-most-once without the second half.
   */
  lemma AtMostOnceExact(maxRetries: nat, s: State, item: Item)
    ensures (forall run | Valid(maxRetries, s, run) ::
               Attempts(Exec(maxRetries, s, run).world.runs, item) == Attempts(s.world.runs, item))
            <==> Settled(s, item)
  {
    if Settled(s, item) {
      forall run | Valid(maxRetries, s, run)
        ensures Attempts(Exec(maxRetries, s, run).world.runs, item) == Attempts(s.world.runs, item)
      {
        SettledRun(maxRetries, s, run, item);
      }
    } else if item !in s.world.inbox {
      var run := RedeliveryRuns(maxRetries, s, item);
    } else {
      var id :| id in s.flows && s.flows[id].item == item && s.flows[id].pc.Try?;
      var run := TryRuns(maxRetries, s, id, item);
    }
  }

  /** A second delivery of the item finds no row while the first is at its attempts. */
  lemma SecondAttempt(maxRetries: nat, item: Item) returns (run: seq<Action>)
    ensures Valid(maxRetries, Start, run)
    ensures Exec(maxRetries, Start, run).flows == map[0 := Flow(item, Try(0)), 1 := Flow(item, Try(0))]
  {
    run := FirstAttempt(maxRetries, item);
    var s := Exec(maxRetries, Start, run);
    var s1 := Step(maxRetries, s, Deliver(1, item));
    var none: seq<Action> := [];
    Unroll(maxRetries, s1, Advance(1, Quiet), none);
    Unroll(maxRetries, s, Deliver(1, item), [Advance(1, Quiet)] + none);
    ExecConcat(maxRetries, Start, run, [Deliver(1, item)] + ([Advance(1, Quiet)] + none));
    run := run + ([Deliver(1, item)] + ([Advance(1, Quiet)] + none));
  }

  /** An undisturbed delivery at its attempts succeeds, writes its row and is acked. */
  lemma RecordRun(maxRetries: nat, s: State, id: nat) returns (run: seq<Action>)
    requires id in s.flows && s.flows[id].pc.Try?
    ensures Valid(maxRetries, s, run)
    ensures var s' := Exec(maxRetries, s, run);
            && s'.flows == s.flows[id := Flow(s.flows[id].item, Acked(Recorded))]
            && s.flows[id].item in s'.world.inbox
  {
    var a := Advance(id, Quiet);
    var item := s.flows[id].item;
    var s1 := Step(maxRetries, s, a);
    assert s1.flows == s.flows[id := Flow(item, Audit(Nil))];
    var s2 := Step(maxRetries, s1, a);
    assert s2.flows == s.flows[id := Flow(item, Record)];
    var none: seq<Action> := [];
    Unroll(maxRetries, s2, a, none);
    Unroll(maxRetries, s1, a, [a] + none);
    Unroll(maxRetries, s, a, [a] + ([a] + none));
    run := [a] + ([a] + ([a] + none));
  }

  /** For every item a run from the start after which its row exists, its delivery is acked, and
      another delivery of it attempts it again: the row alone does not settle the item. */
  lemma RowYetAttemptedAgain(maxRetries: nat, item: Item)
    ensures exists run, more ::
              && Valid(maxRetries, Start, run) && item in Exec(maxRetries, Start, run).world.inbox
              && AckedIn(Exec(maxRetries, Start, run), 0)
              && Valid(maxRetries, Exec(maxRetries, Start, run), more)
              && Attempts(Exec(maxRetries, Exec(maxRetries, Start, run), more).world.runs, item)
                 > Attempts(Exec(maxRetries, Start, run).world.runs, item)
  {
    var first := SecondAttempt(maxRetries, item);
    var s := Exec(maxRetries, Start, first);
    var rest := RecordRun(maxRetries, s, 0);
    ExecConcat(maxRetries, Start, first, rest);
    var run := first + rest;
    var more := TryRuns(maxRetries, Exec(maxRetries, Start, run), 1, item);
  }
}
