/**
 * The per-handler resilience stack as the router composes it:
 * PoisonQueue, Idempotency, Audit, Retry, Recoverer, handler, outermost first. Each
 * middleware maps a handler to a handler. The composed stack is shown to take exactly the
 * steps of the delivery machine, and each position in it to be needed.
 */
module Pipeline {
  import opened Errors
  import opened Delivery

  datatype Outcome = Returned(err: Nilable) | Panicked(text: string)

  /** A handler consumes a message, by its id, and changes the world. */
  type Handler = (string, World) -> (World, Outcome)

  /** How the surroundings answer at each tick. */
  type Oracle = nat -> Signal

  function Ticked(w: World): World {
    w.(tick := w.tick + 1)
  }

  /** The registered handler: one attempt, which may panic. */
  function Subscriber(o: Oracle, name: string): Handler {
    (m: string, w: World) =>
      var a := o(w.tick).attempt;
      (World(w.tick + 1, w.inbox, w.dead, w.audits, w.runs + [Run(Item(m, name), a)]),
       match a
       case Succeeds => Returned(Nil)
       case Fails(e) => Returned(Some(e))
       case Panics(text) => Panicked(text))
  }

  function Recoverer(h: Handler): Handler {
    (m: string, w: World) =>
      var (w1, r) := h(m, w);
      (w1, if r.Panicked? then Returned(Some(Plain("panic occurred: " + r.text))) else r)
  }

  function RetryFrom(maxRetries: nat, o: Oracle, h: Handler, m: string, w: World, n: nat): (World, Outcome)
    decreases if n <= maxRetries then maxRetries - n else 0
  {
    var (w1, r) := h(m, w);
    if r.Returned? && r.err.Some? && Retries(maxRetries, n, r.err.err, o(w.tick).cancelled) then
      RetryFrom(maxRetries, o, h, m, w1, n + 1)
    else
      (w1, r)
  }

  function Retry(maxRetries: nat, o: Oracle, h: Handler): Handler {
    (m: string, w: World) => RetryFrom(maxRetries, o, h, m, w, 0)
  }

  /** One audit write per handled message, after the fact, with the final outcome. */
  function Auditing(name: string, h: Handler): Handler {
    (m: string, w: World) =>
      var (w1, r) := h(m, w);
      (if r.Panicked? then w1
       else World(w1.tick + 1, w1.inbox, w1.dead, w1.audits + [AuditEntry(Item(m, name), r.err.Nil?)], w1.runs),
       r)
  }

  /** Check, run, insert on success. */
  function Idempotency(o: Oracle, name: string, h: Handler): Handler {
    (m: string, w: World) =>
      var look := o(w.tick).io;
      if !look.Done? then (Ticked(w), Returned(Some(Wrap("inbox: lookup", [look.err]))))
      else if Item(m, name) in w.inbox then (Ticked(w), Returned(Nil))
      else
        var (w1, r) := h(m, Ticked(w));
        if r != Returned(Nil) then (w1, r)
        else
          var insert := o(w1.tick).io;
          (World(w1.tick + 1, if insert.Broken? then w1.inbox else w1.inbox + {Item(m, name)}, w1.dead, w1.audits, w1.runs),
           if insert.Done? then Returned(Nil) else Returned(Some(Wrap("inbox: record", [insert.err]))))
  }

  /** Publishes what failed to the dead-letter topic and swallows the error; lets a
      cancellation through, and an error whose publish failed. */
  function PoisonQueue(o: Oracle, name: string, h: Handler): Handler {
    (m: string, w: World) =>
      var (w1, r) := h(m, w);
      if r == Returned(Nil) || r.Panicked? then (w1, r)
      else if IsCanceled(r.err.err) then (Ticked(w1), r)
      else
        var publish := o(w1.tick).io;
        (World(w1.tick + 1, w1.inbox, if publish.Broken? then w1.dead else w1.dead + [Item(m, name)], w1.audits, w1.runs),
         if publish.Done? then Returned(Nil) else Returned(Some(Wrap("cannot publish", [r.err.err, publish.err]))))
  }

  function Inner(o: Oracle, maxRetries: nat, name: string): Handler {
    Auditing(name, Retry(maxRetries, o, Recoverer(Subscriber(o, name))))
  }

  function Stack(o: Oracle, maxRetries: nat, name: string): Handler {
    PoisonQueue(o, name, Idempotency(o, name, Inner(o, maxRetries, name)))
  }

  // ----- The stack takes the steps of the delivery machine ---------------------------------

  function Stage(pc: Pc): nat {
    match pc
    case Lookup => 5
    case Try(_) => 4
    case Audit(_) => 3
    case Record => 2
    case Salvage(_) => 1
    case _ => 0
  }

  /** One delivery of the machine, driven to its end by the oracle's answers. */
  function Drive(o: Oracle, maxRetries: nat, item: Item, w: World, pc: Pc): (World, Pc)
    decreases Stage(pc), if pc.Try? && pc.retries <= maxRetries then maxRetries - pc.retries else 0
  {
    if pc.IsDone() then (w, pc)
    else
      var d := React(maxRetries, item, w.inbox, pc, o(w.tick));
      Drive(o, maxRetries, item, Apply(w, item, d), d.pc)
  }

  lemma {:induction false} RetryDrives(o: Oracle, maxRetries: nat, m: string, name: string, w: World, n: nat)
    ensures var (w', r) := RetryFrom(maxRetries, o, Recoverer(Subscriber(o, name)), m, w, n);
            r.Returned? && Drive(o, maxRetries, Item(m, name), w, Try(n)) == Drive(o, maxRetries, Item(m, name), w', Audit(r.err))
    decreases if n <= maxRetries then maxRetries - n else 0
  {
    var h := Recoverer(Subscriber(o, name));
    var (w1, r) := h(m, w);
    var d := React(maxRetries, Item(m, name), w.inbox, Try(n), o(w.tick));
    assert Apply(w, Item(m, name), d) == w1 && r == Returned(Recovered(o(w.tick).attempt));
    if r.err.Some? && Retries(maxRetries, n, r.err.err, o(w.tick).cancelled) {
      RetryDrives(o, maxRetries, m, name, w1, n + 1);
    }
  }

  /** What PoisonQueue does with an error is the machine's salvage step. */
  lemma SalvageDrives(o: Oracle, maxRetries: nat, m: string, name: string, w: World, h: Handler, w1: World, e: GoError)
    requires h(m, w) == (w1, Returned(Some(e)))
    ensures var (w', r) := PoisonQueue(o, name, h)(m, w);
            var (w2, pc) := Drive(o, maxRetries, Item(m, name), w1, Salvage(e));
            w' == w2 && r.Returned? && pc.IsDone() && (r.err.Nil? <==> pc.Acked?)
  {
    var d := React(maxRetries, Item(m, name), w1.inbox, Salvage(e), o(w1.tick));
    assert Drive(o, maxRetries, Item(m, name), w1, Salvage(e)) == (Apply(w1, Item(m, name), d), d.pc);
  }

  lemma AuditDrives(o: Oracle, maxRetries: nat, m: string, name: string, w: World, out: Nilable, w1: World)
    requires w1 == World(w.tick + 1, w.inbox, w.dead, w.audits + [AuditEntry(Item(m, name), out.Nil?)], w.runs)
    ensures Drive(o, maxRetries, Item(m, name), w, Audit(out))
         == Drive(o, maxRetries, Item(m, name), w1, if out.Nil? then Record else Salvage(out.err))
  {
    var d := React(maxRetries, Item(m, name), w.inbox, Audit(out), o(w.tick));
    assert Apply(w, Item(m, name), d) == w1;
  }

  /** The handler with its retries and its audit write takes the machine to its row or to its
      salvage. */
  lemma InnerDrives(o: Oracle, maxRetries: nat, m: string, name: string, w: World)
    ensures var (w', r) := Inner(o, maxRetries, name)(m, w);
            r.Returned? && Drive(o, maxRetries, Item(m, name), w, Try(0))
                        == Drive(o, maxRetries, Item(m, name), w', if r.err.Nil? then Record else Salvage(r.err.err))
  {
    RetryDrives(o, maxRetries, m, name, w, 0);
    var (w1, r) := Retry(maxRetries, o, Recoverer(Subscriber(o, name)))(m, w);
    var (w2, _) := Inner(o, maxRetries, name)(m, w);
    AuditDrives(o, maxRetries, m, name, w1, r.err, w2);
  }

  /** The insert takes the machine to its ack or to its salvage. */
  lemma RecordDrives(o: Oracle, maxRetries: nat, item: Item, w: World)
    ensures var insert := o(w.tick).io;
            var w' := World(w.tick + 1, if insert.Broken? then w.inbox else w.inbox + {item}, w.dead, w.audits, w.runs);
            Drive(o, maxRetries, item, w, Record) ==
              if insert.Done? then (w', Acked(Recorded))
              else Drive(o, maxRetries, item, w', Salvage(Wrap("inbox: record", [insert.err])))
  {
    var d := React(maxRetries, item, w.inbox, Record, o(w.tick));
    var w' := Apply(w, item, d);
    assert Drive(o, maxRetries, item, w, Record) == Drive(o, maxRetries, item, w', d.pc);
  }

  /** Idempotency leaves the machine about to salvage, or acked. */
  lemma IdempotencyDrives(o: Oracle, maxRetries: nat, m: string, name: string, w: World)
    ensures var (w1, r) := Idempotency(o, name, Inner(o, maxRetries, name))(m, w);
            var end := Drive(o, maxRetries, Item(m, name), w, Lookup);
            && r.Returned?
            && (r.err.Nil? ==> end.0 == w1 && end.1.Acked?)
            && (r.err.Some? ==> end == Drive(o, maxRetries, Item(m, name), w1, Salvage(r.err.err)))
  {
    var item := Item(m, name);
    var d := React(maxRetries, item, w.inbox, Lookup, o(w.tick));
    assert Apply(w, item, d) == Ticked(w);
    assert Drive(o, maxRetries, item, w, Lookup) == Drive(o, maxRetries, item, Ticked(w), d.pc);
    if o(w.tick).io.Done? && item !in w.inbox {
      InnerDrives(o, maxRetries, m, name, Ticked(w));
      var (w2, _) := Inner(o, maxRetries, name)(m, Ticked(w));
      RecordDrives(o, maxRetries, item, w2);
    }
  }

  /**
   * Running the composed stack is driving one delivery of the machine from its lookup to its
   * end: the same world results, and nil is returned exactly when the delivery is acked.
   */
  lemma StackDrives(o: Oracle, maxRetries: nat, m: string, name: string, w: World)
    ensures var (w', r) := Stack(o, maxRetries, name)(m, w);
            var (w2, pc) := Drive(o, maxRetries, Item(m, name), w, Lookup);
            w' == w2 && r.Returned? && pc.IsDone() && (r.err.Nil? <==> pc.Acked?)
  {
    IdempotencyDrives(o, maxRetries, m, name, w);
    var h := Idempotency(o, name, Inner(o, maxRetries, name));
    var (w1, r) := h(m, w);
    if r.err.Some? {
      SalvageDrives(o, maxRetries, m, name, w, h, w1, r.err.err);
    }
  }

  /** Driving is a run of the machine, with nothing interleaved. */
  lemma {:induction false} DriveIsARun(o: Oracle, maxRetries: nat, s: State, id: nat) returns (run: seq<Action>)
    requires id in s.flows
    ensures Valid(maxRetries, s, run)
    ensures var f := s.flows[id];
            var (w, pc) := Drive(o, maxRetries, f.item, s.world, f.pc);
            Exec(maxRetries, s, run) == State(w, s.published, s.flows[id := Flow(f.item, pc)])
    decreases Stage(s.flows[id].pc),
              if s.flows[id].pc.Try? && s.flows[id].pc.retries <= maxRetries then maxRetries - s.flows[id].pc.retries else 0
  {
    var f := s.flows[id];
    if f.pc.IsDone() {
      run := [];
      assert s.flows[id := f] == s.flows;
    } else {
      var a := Advance(id, o(s.world.tick));
      var s1 := Step(maxRetries, s, a);
      run := DriveIsARun(o, maxRetries, s1, id);
      Unroll(maxRetries, s, a, run);
      run := [a] + run;
      var pc := Drive(o, maxRetries, f.item, s.world, f.pc).1;
      assert s1.flows[id := Flow(f.item, pc)] == s.flows[id := Flow(f.item, pc)];
    }
  }

  /**
   * The stack refines the machine: from any state, handling a published message with the
   * composed stack is one of the machine's runs, so all the machine's theorems speak of it.
   */
  lemma StackRefinesDelivery(o: Oracle, maxRetries: nat, s: State, id: nat, m: string, name: string) returns (run: seq<Action>)
    requires id !in s.flows && Item(m, name) in s.published
    ensures Valid(maxRetries, s, run)
    ensures var (w', r) := Stack(o, maxRetries, name)(m, s.world);
            var s' := Exec(maxRetries, s, run);
            s'.world == w' && id in s'.flows && s'.flows[id].item == Item(m, name)
            && r.Returned? && (r.err.Nil? <==> s'.flows[id].pc.Acked?)
  {
    var s1 := Step(maxRetries, s, Deliver(id, Item(m, name)));
    run := DriveIsARun(o, maxRetries, s1, id);
    Unroll(maxRetries, s, Deliver(id, Item(m, name)), run);
    run := [Deliver(id, Item(m, name))] + run;
    StackDrives(o, maxRetries, m, name, s.world);
  }

  // ----- Bounded work ----------------------------------------------------------------------

  /** The attempts added to `runs` are for the item, and all but the last failed retryably. */
  ghost predicate Tried(before: seq<Run>, after: seq<Run>, item: Item) {
    && before < after
    && (forall i | |before| <= i < |after| :: after[i].item == item)
    && (forall i | |before| <= i < |after| - 1 ::
          Recovered(after[i].attempt).Some? && !IsNonRetryable(Recovered(after[i].attempt).err))
  }

  lemma {:induction false} RetryBounded(o: Oracle, maxRetries: nat, m: string, name: string, w: World, n: nat)
    requires n <= maxRetries
    ensures var (w', r) := RetryFrom(maxRetries, o, Recoverer(Subscriber(o, name)), m, w, n);
            && Tried(w.runs, w'.runs, Item(m, name))
            && |w'.runs| - |w.runs| <= maxRetries - n + 1
            && r == Returned(Recovered(w'.runs[|w'.runs| - 1].attempt))
            && w'.tick == w.tick + (|w'.runs| - |w.runs|)
            && (r.err.Some? && !IsNonRetryable(r.err.err) ==>
                  |w'.runs| - |w.runs| == maxRetries - n + 1 || o(w'.tick - 1).cancelled)
            && w'.inbox == w.inbox && w'.dead == w.dead && w'.audits == w.audits
    decreases maxRetries - n
  {
    var h := Recoverer(Subscriber(o, name));
    var (w1, r) := h(m, w);
    assert w1.runs == w.runs + [Run(Item(m, name), o(w.tick).attempt)];
    assert r == Returned(Recovered(o(w.tick).attempt));
    if r.err.Some? && Retries(maxRetries, n, r.err.err, o(w.tick).cancelled) {
      RetryBounded(o, maxRetries, m, name, w1, n + 1);
    }
  }

  /**
   * Past the inbox check a delivery makes between one and maxRetries + 1 attempts, stopping at
   * the first that succeeds or is NonRetryable at any wrapping depth; it gives up on a
   * retryable error only when the budget is spent or the context was cancelled. It issues
   * exactly one audit write, whose flag is that of the last attempt.
   */
  lemma BoundedWork(o: Oracle, maxRetries: nat, m: string, name: string, w: World)
    ensures var (w', r) := Inner(o, maxRetries, name)(m, w);
            && Tried(w.runs, w'.runs, Item(m, name))
            && |w'.runs| - |w.runs| <= maxRetries + 1
            && r == Returned(Recovered(w'.runs[|w'.runs| - 1].attempt))
            && w'.tick == w.tick + (|w'.runs| - |w.runs|) + 1
            && (r.err.Some? && !IsNonRetryable(r.err.err) ==>
                  |w'.runs| - |w.runs| == maxRetries + 1 || o(w'.tick - 2).cancelled)
            && w'.audits == w.audits + [AuditEntry(Item(m, name), w'.runs[|w'.runs| - 1].attempt.Succeeds?)]
            && w'.inbox == w.inbox && w'.dead == w.dead
  {
    RetryBounded(o, maxRetries, m, name, w, 0);
  }

  // ----- The order of the stack ----------------------------------------------------------------

  /** The delivery went through to the handler, with this world and result. */
  ghost predicate Handled(o: Oracle, maxRetries: nat, m: string, name: string, w: World, w1: World, out: Nilable) {
    && o(w.tick).io.Done? && Item(m, name) !in w.inbox
    && Inner(o, maxRetries, name)(m, Ticked(w)) == (w1, Returned(out))
  }

  /** What Idempotency makes of a handled delivery. */
  lemma HandledThrough(o: Oracle, maxRetries: nat, m: string, name: string, w: World, w1: World, out: Nilable)
    requires Handled(o, maxRetries, m, name, w, w1, out)
    ensures w1.inbox == w.inbox && w1.dead == w.dead
    ensures var (w2, r) := Idempotency(o, name, Inner(o, maxRetries, name))(m, w);
            var insert := o(w1.tick).io;
            && w2.dead == w.dead
            && (out.Some? ==> w2 == w1 && r == Returned(out))
            && (out.Nil? ==> w2.tick == w1.tick + 1
                             && w2.inbox == (if insert.Broken? then w.inbox else w.inbox + {Item(m, name)})
                             && r == (if insert.Done? then Returned(Nil) else Returned(Some(Wrap("inbox: record", [insert.err])))))
  {
    BoundedWork(o, maxRetries, m, name, Ticked(w));
  }

  /**
   * The stack writes a row only for a delivery whose last attempt succeeded, and exactly when
   * the insert took effect.
   */
  lemma RowExact(o: Oracle, maxRetries: nat, m: string, name: string, w: World, w1: World, out: Nilable)
    requires Handled(o, maxRetries, m, name, w, w1, out)
    ensures w1.runs != [] && (out.Nil? <==> w1.runs[|w1.runs| - 1] == Run(Item(m, name), Succeeds))
    ensures var (w', r) := Stack(o, maxRetries, name)(m, w);
            Item(m, name) in w'.inbox <==> out.Nil? && !o(w1.tick).io.Broken?
  {
    BoundedWork(o, maxRetries, m, name, Ticked(w));
    HandledThrough(o, maxRetries, m, name, w, w1, out);
  }

  /** What becomes of a delivery's error: the publish that follows it, if any. */
  predicate Published(o: Oracle, e: GoError, tick: nat) {
    !IsCanceled(e) && !o(tick).io.Broken?
  }

  /** The delivery's message goes to the dead letters. */
  ghost predicate SalvageDue(o: Oracle, maxRetries: nat, m: string, name: string, w: World) {
    var look := o(w.tick).io;
    if !look.Done? then Published(o, look.err, w.tick + 1)
    else if Item(m, name) in w.inbox then false
    else
      var (w1, r) := Inner(o, maxRetries, name)(m, Ticked(w));
      var insert := o(w1.tick).io;
      r.Returned? &&
      if r.err.Some? then Published(o, r.err.err, w1.tick)
      else !insert.Done? && Published(o, insert.err, w1.tick + 1)
  }

  lemma LookupFails(o: Oracle, maxRetries: nat, m: string, name: string, w: World)
    requires !o(w.tick).io.Done?
    ensures var (w', r) := Stack(o, maxRetries, name)(m, w);
            var e := o(w.tick).io.err;
            && w'.runs == w.runs
            && w'.dead == (if Published(o, e, w.tick + 1) then w.dead + [Item(m, name)] else w.dead)
            && (r == Returned(Nil) <==> !IsCanceled(e) && o(w.tick + 1).io.Done?)
  {
    var e := Wrap("inbox: lookup", [o(w.tick).io.err]);
    assert Idempotency(o, name, Inner(o, maxRetries, name))(m, w) == (Ticked(w), Returned(Some(e)));
    WrapCancels("inbox: lookup", o(w.tick).io.err);
  }

  /**
   * Every delivery is salvaged exactly when its lookup failed, its attempts failed, or its
   * insert was not acknowledged, the error is no cancellation, and the publish took effect.
   */
  lemma SalvageExact(o: Oracle, maxRetries: nat, m: string, name: string, w: World)
    ensures var (w', r) := Stack(o, maxRetries, name)(m, w);
            w'.dead == if SalvageDue(o, maxRetries, m, name, w) then w.dead + [Item(m, name)] else w.dead
  {
    var look := o(w.tick).io;
    if !look.Done? {
      LookupFails(o, maxRetries, m, name, w);
    } else if Item(m, name) in w.inbox {
      assert Idempotency(o, name, Inner(o, maxRetries, name))(m, w) == (Ticked(w), Returned(Nil));
    } else {
      BoundedWork(o, maxRetries, m, name, Ticked(w));
      var (w1, r) := Inner(o, maxRetries, name)(m, Ticked(w));
      HandledThrough(o, maxRetries, m, name, w, w1, r.err);
      if r.err.Nil? && !o(w1.tick).io.Done? {
        WrapCancels("inbox: record", o(w1.tick).io.err);
      }
    }
  }

  /** A handled delivery that is salvaged has a row of its own exactly when its insert took
      effect and only the reply was lost. */
  lemma BothExact(o: Oracle, maxRetries: nat, m: string, name: string, w: World, w1: World, out: Nilable)
    requires Handled(o, maxRetries, m, name, w, w1, out)
    ensures var (w', r) := Stack(o, maxRetries, name)(m, w);
            var next := o(w1.tick).io;
            (SalvageDue(o, maxRetries, m, name, w) && Item(m, name) in w'.inbox) <==>
              (out.Nil? && next.Lost? && Published(o, next.err, w1.tick + 1))
  {
    RowExact(o, maxRetries, m, name, w, w1, out);
  }

  /** A failed lookup alone sends a message to the dead letters and acks it, whatever the
      handler would have done; it is not redelivered. */
  lemma FailedLookupDeadLetters(o: Oracle, maxRetries: nat, m: string, name: string, w: World)
    requires !o(w.tick).io.Done? && !IsCanceled(o(w.tick).io.err) && o(w.tick + 1).io.Done?
    ensures var (w', r) := Stack(o, maxRetries, name)(m, w);
            r == Returned(Nil) && w'.dead == w.dead + [Item(m, name)] && w'.runs == w.runs
  {
    LookupFails(o, maxRetries, m, name, w);
  }

  /** Replies under which a delivery ends with both a row and a dead letter: the handler succeeds
      at once and the reply to the insert is lost. */
  const LostInsert: Oracle := tick => if tick == 3 then Signal(Lost(Plain("reply lost")), Succeeds, false) else Quiet

  lemma LostInsertLeavesBoth(maxRetries: nat, m: string, name: string)
    ensures var (w', r) := Stack(LostInsert, maxRetries, name)(m, Start.world);
            && r == Returned(Nil)
            && Item(m, name) in w'.inbox && Item(m, name) in w'.dead
            && Run(Item(m, name), Succeeds) in w'.runs
  {
    var w := Start.world;
    var h := Recoverer(Subscriber(LostInsert, name));
    var (w1, r) := h(m, Ticked(w));
    assert r == Returned(Nil) && w1.tick == 2;
    assert Retry(maxRetries, LostInsert, h)(m, Ticked(w)) == (w1, r);
    var (w2, r2) := Inner(LostInsert, maxRetries, name)(m, Ticked(w));
    assert w2.tick == 3 && r2 == Returned(Nil) && w2.runs == [Run(Item(m, name), Succeeds)];
    WrapCancels("inbox: record", Plain("reply lost"));
  }

  lemma WrapCancels(text: string, e: GoError)
    ensures IsCanceled(Wrap(text, [e])) <==> IsCanceled(e)
  {
    if IsCanceled(e) {
      assert Finds([e][0], false);
    }
  }

  /** The stack with Idempotency moved outside PoisonQueue. */
  function SwappedStack(o: Oracle, maxRetries: nat, name: string): Handler {
    Idempotency(o, name, PoisonQueue(o, name, Inner(o, maxRetries, name)))
  }

  /**
   * With the two swapped, every message whose attempts all failed, was not cancelled and was
   * salvaged gets a processed row, provided the insert goes through: its replay from the
   * dead letters would be skipped.
   */
  lemma SwappedMarksThePoisoned(o: Oracle, maxRetries: nat, m: string, name: string, w: World, w1: World, out: Nilable)
    requires Handled(o, maxRetries, m, name, w, w1, out)
    requires out.Some? && !IsCanceled(out.err) && o(w1.tick).io.Done? && o(w1.tick + 1).io.Done?
    ensures var (w', r) := SwappedStack(o, maxRetries, name)(m, w);
            && r == Returned(Nil)
            && Item(m, name) in w'.inbox && w'.dead == w.dead + [Item(m, name)]
            && forall i | |w.runs| <= i < |w'.runs| :: !w'.runs[i].attempt.Succeeds?
  {
    BoundedWork(o, maxRetries, m, name, Ticked(w));
  }

  /**
   * A delivery cancelled while Retry backs off is acked exactly when the error of its last
   * attempt is no cancellation and the dead-letter publish is acknowledged. The filter of the
   * poison queue only sees the error.
   */
  lemma CancelledExact(o: Oracle, maxRetries: nat, item: Item, w: World, n: nat)
    requires o(w.tick).cancelled && Recovered(o(w.tick).attempt).Some?
    ensures var (w', pc) := Drive(o, maxRetries, item, w, Try(n));
            var e := Recovered(o(w.tick).attempt).err;
            pc.Acked? <==> !IsCanceled(e) && o(w.tick + 2).io.Done?
  {
    var e := Recovered(o(w.tick).attempt).err;
    var d := React(maxRetries, item, w.inbox, Try(n), o(w.tick));
    var w1 := Apply(w, item, d);
    assert d.pc == Audit(Some(e)) && w1.tick == w.tick + 1;
    var d1 := React(maxRetries, item, w1.inbox, Audit(Some(e)), o(w1.tick));
    var w2 := Apply(w1, item, d1);
    assert d1.pc == Salvage(e) && w2.tick == w.tick + 2;
    assert Drive(o, maxRetries, item, w, Try(n)) == Drive(o, maxRetries, item, w2, Salvage(e));
    var d2 := React(maxRetries, item, w2.inbox, Salvage(e), o(w2.tick));
    assert Drive(o, maxRetries, item, w2, Salvage(e)) == (Apply(w2, item, d2), d2.pc);
  }
}
