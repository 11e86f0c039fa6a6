/**
 * The transactional outbox and its forwarder. Committed transactions put their rows into one
 * relay table; the forwarder fetches a row, republishes it to the topic it names, and deletes
 * it once that publish was acknowledged. Units of work, forwarders and crashes interleave.
 */
module Outbox {
  import opened Transactions

  /** How far a forwarder has come with the row it fetched. */
  datatype Stage = Fetched | Sent

  /** The forwarder's copy of a row. */
  datatype Relay = Relay(row: Row, stage: Stage)

  /** A message on a destination topic; `origin` is the number of the row it was made from. */
  datatype Message = Message(event: string, origin: nat)

  type Topics = map<string, seq<Message>>

  /** Rows are numbered in commit order. `table` holds the rows not yet deleted, `topics` the
      messages on each destination topic, in order and with repetitions. */
  datatype State = State(committed: seq<Tx>, table: map<nat, Row>, relays: map<nat, Relay>, topics: Topics)

  /** Commit is the i-th commit of some unit of work running under some failures. Commits are
      actions of their own, so the units of concurrent callers interleave in any order. */
  datatype Action =
    | Commit(body: seq<Op>, faults: Oracle, i: nat)
    | Fetch(row: nat)
    | Republish(row: nat, reply: Reply)
    | Ack(row: nat, reply: Reply)
    | Nack(row: nat)
    | Crash

  const Start := State([], map[], map[], map[])

  /** All rows ever committed, in order. */
  function Ledger(txs: seq<Tx>): seq<Row> {
    if txs == [] then [] else Ledger(txs[..|txs| - 1]) + txs[|txs| - 1].rows
  }

  /** The transactions a unit of work commits, its own and those of the units inside it. */
  function Commits(body: seq<Op>, faults: Oracle): seq<Tx> {
    UnitRun(faults, Db(0, []), body).0.committed
  }

  predicate Enabled(s: State, a: Action) {
    match a
    case Commit(body, faults, i) => i < |Commits(body, faults)|
    case Fetch(n) => n in s.table && n !in s.relays
    case Republish(n, _) => n in s.relays && s.relays[n].stage == Fetched
    case Ack(n, _) => n in s.relays && s.relays[n].stage == Sent
    case Nack(n) => n in s.relays
    case Crash => true
  }

  /** The table after more transactions were committed: their rows join it. */
  function Inserted(table: map<nat, Row>, before: seq<Row>, after: seq<Row>): map<nat, Row> {
    table + (map n | |before| <= n < |after| :: after[n])
  }

  /** The envelope is unwrapped and its event published to the topic the row names. */
  function Delivered(topics: Topics, n: nat, row: Row): Topics {
    topics[row.topic := (if row.topic in topics then topics[row.topic] else []) + [Message(row.event, n)]]
  }

  function Step(s: State, a: Action): State
    requires Enabled(s, a)
  {
    match a
    case Commit(body, faults, i) =>
      var txs := s.committed + [Commits(body, faults)[i]];
      s.(committed := txs, table := Inserted(s.table, Ledger(s.committed), Ledger(txs)))
    case Fetch(n) => s.(relays := s.relays[n := Relay(s.table[n], Fetched)])
    case Republish(n, reply) =>
      var row := s.relays[n].row;
      s.(topics := if reply.Broken? then s.topics else Delivered(s.topics, n, row),
         relays := if reply.Done? then s.relays[n := Relay(row, Sent)] else s.relays - {n})
    case Ack(n, reply) =>
      s.(table := if reply.Broken? then s.table else s.table - {n}, relays := s.relays - {n})
    case Nack(n) => s.(relays := s.relays - {n})
    case Crash => s.(relays := map[])
  }

  predicate Valid(s: State, run: seq<Action>)
    decreases |run|
  {
    run == [] || (Enabled(s, run[0]) && Valid(Step(s, run[0]), run[1..]))
  }

  function Exec(s: State, run: seq<Action>): State
    requires Valid(s, run)
    decreases |run|
  {
    if run == [] then s else Exec(Step(s, run[0]), run[1..])
  }

  /** The row was published to the topic it names, with its event. */
  ghost predicate Republished(topics: Topics, n: nat, row: Row) {
    row.topic in topics && Message(row.event, n) in topics[row.topic]
  }

  /** Every message on a topic carries the event of a ledger row that names this topic. */
  ghost predicate Genuine(topics: Topics, all: seq<Row>) {
    forall topic, m | topic in topics && m in topics[topic] ::
      m.origin < |all| && all[m.origin] == Row(topic, m.event)
  }

  /** The table, the forwarders' copies and the topics agree with the ledger, and no row of it
      is missing. */
  ghost predicate Relayed(all: seq<Row>, table: map<nat, Row>, relays: map<nat, Relay>, topics: Topics) {
    && (forall n | n in table :: n < |all| && table[n] == all[n])
    && Genuine(topics, all)
    && (forall n | n in relays :: n < |all| && relays[n].row == all[n])
    && (forall n | n in relays && relays[n].stage == Sent :: Republished(topics, n, all[n]))
    && (forall n | 0 <= n < |all| :: n in table || Republished(topics, n, all[n]))
  }

  ghost predicate Inv(s: State) {
    && (forall i | 0 <= i < |s.committed| :: Balanced(s.committed[i]))
    && Relayed(Ledger(s.committed), s.table, s.relays, s.topics)
  }

  lemma {:induction false} LedgerGrows(txs: seq<Tx>, more: seq<Tx>)
    requires txs <= more
    ensures Ledger(txs) <= Ledger(more)
    decreases |more|
  {
    if txs != more {
      LedgerGrows(txs, more[..|more| - 1]);
    }
  }

  lemma InsertKeeps(before: seq<Row>, after: seq<Row>, table: map<nat, Row>, relays: map<nat, Relay>, topics: Topics)
    requires Relayed(before, table, relays, topics) && before <= after
    ensures Relayed(after, Inserted(table, before, after), relays, topics)
  {
    var all := Inserted(table, before, after);
    forall n | 0 <= n < |after| ensures n in all || Republished(topics, n, after[n]) {
      assert n < |before| ==> n in table || Republished(topics, n, before[n]);
    }
  }

  lemma CommitInv(s: State, a: Action)
    requires Inv(s) && Enabled(s, a) && a.Commit?
    ensures Inv(Step(s, a))
  {
    var tx := Commits(a.body, a.faults)[a.i];
    UnitBalanced(a.faults, Db(0, []), a.body);
    assert Balanced(tx);
    LedgerGrows(s.committed, s.committed + [tx]);
    InsertKeeps(Ledger(s.committed), Ledger(s.committed + [tx]), s.table, s.relays, s.topics);
  }

  lemma DeliveredKeeps(topics: Topics, n: nat, row: Row, all: seq<Row>)
    requires Genuine(topics, all) && n < |all| && all[n] == row
    ensures Genuine(Delivered(topics, n, row), all)
    ensures Republished(Delivered(topics, n, row), n, row)
    ensures forall k, r :: Republished(topics, k, r) ==> Republished(Delivered(topics, n, row), k, r)
  {
    var before := if row.topic in topics then topics[row.topic] else [];
    var after := Delivered(topics, n, row);
    assert after[row.topic] == before + [Message(row.event, n)];
    forall topic: string, m: Message | topic in after && m in after[topic] ensures m.origin < |all| && all[m.origin] == Row(topic, m.event) {
      assert topic == row.topic || after[topic] == topics[topic];
      assert m == Message(row.event, n) || (topic in topics && m in topics[topic]);
    }
  }

  lemma RepublishKeeps(all: seq<Row>, table: map<nat, Row>, relays: map<nat, Relay>, topics: Topics, n: nat)
    requires Relayed(all, table, relays, topics) && n in relays
    ensures Relayed(all, table, relays[n := Relay(relays[n].row, Sent)], Delivered(topics, n, relays[n].row))
    ensures Relayed(all, table, relays - {n}, Delivered(topics, n, relays[n].row))
  {
    DeliveredKeeps(topics, n, relays[n].row, all);
  }

  lemma DeleteKeeps(all: seq<Row>, table: map<nat, Row>, relays: map<nat, Relay>, topics: Topics, n: nat)
    requires Relayed(all, table, relays, topics) && n in relays && relays[n].stage == Sent
    ensures Relayed(all, table - {n}, relays - {n}, topics)
  {
  }

  lemma StepInv(s: State, a: Action)
    requires Inv(s) && Enabled(s, a)
    ensures Inv(Step(s, a))
  {
    var all := Ledger(s.committed);
    match a {
      case Commit(_, _, _) => CommitInv(s, a);
      case Republish(n, _) => RepublishKeeps(all, s.table, s.relays, s.topics, n);
      case Ack(n, _) => DeleteKeeps(all, s.table, s.relays, s.topics, n);
      case _ =>
    }
  }

  lemma {:induction false} RunInv(s: State, run: seq<Action>)
    requires Inv(s) && Valid(s, run)
    ensures Inv(Exec(s, run))
    decreases |run|
  {
    if run != [] {
      StepInv(s, run[0]);
      RunInv(Step(s, run[0]), run[1..]);
    }
  }

  /** The position in the ledger at which a committed transaction's rows begin. */
  function Offset(txs: seq<Tx>, i: nat): nat
    requires i <= |txs|
  {
    |Ledger(txs[..i])|
  }

  lemma {:induction false} LedgerSlice(txs: seq<Tx>, i: nat)
    requires i < |txs|
    ensures Offset(txs, i) + |txs[i].rows| <= |Ledger(txs)|
    ensures Ledger(txs)[Offset(txs, i)..Offset(txs, i) + |txs[i].rows|] == txs[i].rows
    decreases |txs|
  {
    var init := txs[..|txs| - 1];
    if i == |init| {
      assert txs[..i] == init;
    } else {
      LedgerSlice(init, i);
      assert init[..i] == txs[..i];
      assert Ledger(txs)[..|Ledger(init)|] == Ledger(init);
    }
  }

  /** The i-th committed transaction's stretch of the ledger is the rows of its writes. */
  ghost predicate RowsInPlace(txs: seq<Tx>, i: nat)
    requires i < |txs|
  {
    && Offset(txs, i) + |txs[i].rows| <= |Ledger(txs)|
    && Ledger(txs)[Offset(txs, i)..Offset(txs, i) + |txs[i].rows|] == AllRows(txs[i].writes)
  }

  lemma BalancedInPlace(txs: seq<Tx>, i: nat)
    requires i < |txs| && Balanced(txs[i])
    ensures RowsInPlace(txs, i)
  {
    LedgerSlice(txs, i);
  }

  /**
   * Outbox conservation. After any interleaving of units of work (committing, rolling back,
   * nested or joined), forwarders and crashes: every message on a destination topic carries the
   * event of a row of a committed transaction that names this topic; the rows of each committed
   * transaction are exactly those of its aggregate writes; and each of those rows is still in
   * the relay table, as committed, or its event has been published to its topic.
   */
  lemma OutboxConservation(run: seq<Action>)
    requires Valid(Start, run)
    ensures var s := Exec(Start, run);
            var all := Ledger(s.committed);
            && Genuine(s.topics, all)
            && (forall i: nat | i < |s.committed| :: RowsInPlace(s.committed, i))
            && (forall n | 0 <= n < |all| ::
                  (n in s.table && s.table[n] == all[n]) || Republished(s.topics, n, all[n]))
  {
    RunInv(Start, run);
    var s := Exec(Start, run);
    forall i: nat | i < |s.committed| ensures RowsInPlace(s.committed, i) {
      BalancedInPlace(s.committed, i);
    }
  }

  lemma Prepend(s: State, a: Action, rest: seq<Action>) returns (run: seq<Action>)
    requires Enabled(s, a) && Valid(Step(s, a), rest)
    ensures Valid(s, run) && Exec(s, run) == Exec(Step(s, a), rest)
  {
    run := [a] + rest;
    assert run[0] == a && run[1..] == rest;
  }

  /** One row of the table is fetched, published and deleted. */
  lemma DrainOne(s: State, n: nat) returns (run: seq<Action>)
    requires Inv(s) && n in s.table && s.relays == map[]
    ensures Valid(s, run)
    ensures var s' := Exec(s, run);
            Inv(s') && s'.committed == s.committed && s'.table == s.table - {n} && s'.relays == map[]
  {
    var s1 := Step(s, Fetch(n));
    StepInv(s, Fetch(n));
    var s2 := Step(s1, Republish(n, Done));
    StepInv(s1, Republish(n, Done));
    var s3 := Step(s2, Ack(n, Done));
    StepInv(s2, Ack(n, Done));
    run := [];
    run := Prepend(s2, Ack(n, Done), run);
    run := Prepend(s1, Republish(n, Done), run);
    run := Prepend(s, Fetch(n), run);
    assert s3.relays == map[];
  }

  lemma {:induction false} ExecConcat(s: State, a: seq<Action>, b: seq<Action>)
    requires Valid(s, a) && Valid(Exec(s, a), b)
    ensures Valid(s, a + b) && Exec(s, a + b) == Exec(Exec(s, a), b)
    decreases |a|
  {
    if a == [] {
      assert a + b == b;
    } else {
      assert (a + b)[0] == a[0] && (a + b)[1..] == a[1..] + b;
      ExecConcat(Step(s, a[0]), a[1..], b);
    }
  }

  lemma {:induction false} DrainAll(s: State) returns (run: seq<Action>)
    requires Inv(s) && s.relays == map[]
    ensures Valid(s, run)
    ensures var s' := Exec(s, run); Inv(s') && s'.committed == s.committed && s'.table == map[]
    decreases |s.table|
  {
    run := [];
    if s.table != map[] {
      var n :| n in s.table;
      var first := DrainOne(s, n);
      var rest := DrainAll(Exec(s, first));
      ExecConcat(s, first, rest);
      run := first + rest;
    }
  }

  /** Nothing gets stuck: from any state some continuation publishes every committed row to its
      topic and empties the table. */
  lemma CanDrain(s: State) returns (run: seq<Action>)
    requires Inv(s)
    ensures Valid(s, run) && Exec(s, run).committed == s.committed && Exec(s, run).table == map[]
    ensures var all := Ledger(s.committed);
            forall n | 0 <= n < |all| :: Republished(Exec(s, run).topics, n, all[n])
  {
    StepInv(s, Crash);
    run := DrainAll(Step(s, Crash));
    run := Prepend(s, Crash, run);
  }
}
