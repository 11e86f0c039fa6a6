/**
 * Units of work: begin, bind the scope, run the closure, commit if it returned nil and roll
 * back otherwise. Repository calls join the transaction found in their context and open
 * their own when there is none; each writes its aggregate and then, row by row, the outbox
 * events the aggregate recorded.
 */
module Transactions {

  /** A persisted aggregate state with the events it hands to the outbox. */
  datatype Write = Write(aggregate: string, state: string, topic: string, events: seq<string>)

  datatype Row = Row(topic: string, event: string)

  /** What a transaction has done so far; nobody else sees it before the commit. */
  datatype Tx = Tx(writes: seq<Write>, rows: seq<Row>)

  /** What a closure does: call a repository, open a unit of work inside this one, fail. */
  datatype Op = Persist(write: Write) | Unit(body: seq<Op>) | Refuse

  /** A statement succeeds, fails, or, for a commit, takes effect with its reply lost. A crash
      shows as a failure of the statement it hits. */
  datatype Reply = Done | Broken | Lost

  type Oracle = nat -> Reply

  /** The statements issued so far and the transactions committed, in commit order. */
  datatype Db = Db(tick: nat, committed: seq<Tx>)

  // ----- What the methods compute -----------------------------------------------------------

  function Asked(db: Db): Db {
    db.(tick := db.tick + 1)
  }

  /** The publish loop: one row per event, stopping at the first failing insert. */
  function Published(o: Oracle, db: Db, tx: Tx, topic: string, events: seq<string>): (Db, Tx, bool)
    decreases |events|
  {
    if events == [] then (db, tx, true)
    else if !o(db.tick).Done? then (Asked(db), tx, false)
    else Published(o, Asked(db), tx.(rows := tx.rows + [Row(topic, events[0])]), topic, events[1..])
  }

  /** A repository call inside a transaction: the state write, then its events. */
  function Persisted(o: Oracle, db: Db, tx: Tx, w: Write): (Db, Tx, bool) {
    if !o(db.tick).Done? then (Asked(db), tx, false)
    else Published(o, Asked(db), tx.(writes := tx.writes + [w]), w.topic, w.events)
  }

  /** The closure of a unit of work, inside its transaction. */
  function BodyRun(o: Oracle, db: Db, tx: Tx, body: seq<Op>): (Db, Tx, bool)
    decreases body, 0
  {
    if body == [] then (db, tx, true)
    else
      match body[0]
      case Refuse => (db, tx, false)
      case Persist(w) =>
        var (db1, tx1, ok) := Persisted(o, db, tx, w);
        if ok then BodyRun(o, db1, tx1, body[1..]) else (db1, tx1, false)
      case Unit(inner) =>
        var (db1, ok) := UnitRun(o, db, inner);
        if ok then BodyRun(o, db1, tx, body[1..]) else (db1, tx, false)
  }

  /** A unit of work opens a transaction of its own, even inside another one. */
  function UnitRun(o: Oracle, db: Db, body: seq<Op>): (Db, bool)
    decreases body, 1
  {
    if !o(db.tick).Done? then (Asked(db), false)
    else if !o(db.tick + 1).Done? then (Asked(Asked(db)), false)
    else
      var (db1, tx, ok) := BodyRun(o, Asked(Asked(db)), Tx([], []), body);
      if !ok then (db1, false)
      else if o(db1.tick).Broken? then (Asked(db1), false)
      else (Db(db1.tick + 1, db1.committed + [tx]), o(db1.tick).Done?)
  }

  // ----- The transactor -----------------------------------------------------------------------

  class Transactor {
    const o: Oracle
    var tick: nat
    var committed: seq<Tx>

    constructor (o: Oracle)
      ensures this.o == o && View() == Db(0, [])
    {
      this.o := o;
      tick, committed := 0, [];
    }

    ghost function View(): Db
      reads this
    {
      Db(tick, committed)
    }

    method Ask() returns (r: Reply)
      modifies this`tick
      ensures r == o(old(tick)) && tick == old(tick) + 1
    {
      r := o(tick);
      tick := tick + 1;
    }

    /** Begin, bind, run, commit; anything but a commit leaves the transaction to the rollback. */
    method WithinTx(body: seq<Op>) returns (ok: bool)
      modifies this
      ensures (View(), ok) == UnitRun(o, old(View()), body)
      decreases body, 1
    {
      var begun := Ask();
      if !begun.Done? {
        return false;
      }
      var bound := Ask();
      if !bound.Done? {
        return false;
      }
      var tx := Tx([], []);
      tx, ok := RunBody(tx, body);
      if !ok {
        return;
      }
      var reply := Ask();
      if reply.Broken? {
        return false;
      }
      committed := committed + [tx];
      ok := reply.Done?;
    }

    method RunBody(tx: Tx, body: seq<Op>) returns (tx': Tx, ok: bool)
      modifies this
      ensures (View(), tx', ok) == BodyRun(o, old(View()), tx, body)
      decreases body, 0
    {
      tx', ok := tx, true;
      if body == [] {
        return;
      }
      match body[0] {
        case Refuse => ok := false;
        case Persist(w) => tx', ok := PersistIn(tx, w);
        case Unit(inner) => ok := WithinTx(inner);
      }
      if ok {
        tx', ok := RunBody(tx', body[1..]);
      }
    }

    method PersistIn(tx: Tx, w: Write) returns (tx': Tx, ok: bool)
      modifies this`tick
      ensures (View(), tx', ok) == Persisted(o, old(View()), tx, w)
    {
      var reply := Ask();
      if !reply.Done? {
        return tx, false;
      }
      tx', ok := PublishOutbox(tx.(writes := tx.writes + [w]), w.topic, w.events);
    }

    method PublishOutbox(tx: Tx, topic: string, events: seq<string>) returns (tx': Tx, ok: bool)
      modifies this`tick
      ensures (View(), tx', ok) == Published(o, old(View()), tx, topic, events)
    {
      tx' := tx;
      ghost var before := View();
      for i := 0 to |events|
        invariant Published(o, before, tx, topic, events) == Published(o, View(), tx', topic, events[i..])
        invariant committed == old(committed)
      {
        var reply := Ask();
        if !reply.Done? {
          return tx', false;
        }
        tx' := tx'.(rows := tx'.rows + [Row(topic, events[i])]);
        assert events[i..][1..] == events[i + 1..];
      }
      ok := true;
    }
  }

  // ----- Every committed transaction is balanced -----------------------------------------------

  function RowsOf(w: Write): seq<Row> {
    seq(|w.events|, i requires 0 <= i < |w.events| => Row(w.topic, w.events[i]))
  }

  function AllRows(writes: seq<Write>): seq<Row> {
    if writes == [] then [] else AllRows(writes[..|writes| - 1]) + RowsOf(writes[|writes| - 1])
  }

  /** The transaction's outbox rows are exactly those of its aggregate writes, in order. */
  ghost predicate Balanced(tx: Tx) {
    tx.rows == AllRows(tx.writes)
  }

  /** The aggregate writes a closure makes in its own transaction. */
  function OwnWrites(body: seq<Op>): seq<Write> {
    if body == [] then []
    else (if body[0].Persist? then [body[0].write] else []) + OwnWrites(body[1..])
  }

  lemma {:induction false} PublishedRows(o: Oracle, db: Db, tx: Tx, topic: string, events: seq<string>)
    ensures var (db', tx', ok) := Published(o, db, tx, topic, events);
            && db'.committed == db.committed
            && (ok ==> tx' == Tx(tx.writes, tx.rows + RowsOf(Write("", "", topic, events))))
    decreases |events|
  {
    if events != [] && o(db.tick).Done? {
      PublishedRows(o, Asked(db), tx.(rows := tx.rows + [Row(topic, events[0])]), topic, events[1..]);
      var w := Write("", "", topic, events);
      assert RowsOf(w) == [Row(topic, events[0])] + RowsOf(Write("", "", topic, events[1..]));
      assert tx.rows + [Row(topic, events[0])] + RowsOf(Write("", "", topic, events[1..])) == tx.rows + RowsOf(w);
    } else {
      assert tx.rows + [] == tx.rows;
    }
  }

  lemma PersistedBalanced(o: Oracle, db: Db, tx: Tx, w: Write)
    requires Balanced(tx)
    ensures var (db', tx', ok) := Persisted(o, db, tx, w);
            && db'.committed == db.committed
            && (ok ==> Balanced(tx') && tx'.writes == tx.writes + [w])
  {
    if o(db.tick).Done? {
      PublishedRows(o, Asked(db), tx.(writes := tx.writes + [w]), w.topic, w.events);
      assert (tx.writes + [w])[..|tx.writes|] == tx.writes;
      assert RowsOf(w) == RowsOf(Write("", "", w.topic, w.events));
    }
  }

  /** New commits of a run: they extend the old ones and are all balanced. */
  ghost predicate Extends(db: Db, db': Db) {
    && db.committed <= db'.committed
    && forall i | |db.committed| <= i < |db'.committed| :: Balanced(db'.committed[i])
  }

  /** The writes already made, and those of the rest of a closure. */
  lemma WritesGoOn(writes: seq<Write>, body: seq<Op>)
    requires body != []
    ensures writes + OwnWrites(body)
         == (if body[0].Persist? then writes + [body[0].write] else writes) + OwnWrites(body[1..])
  {
  }

  lemma ExtendsOn(a: Db, b: Db, c: Db)
    requires Extends(a, b) && Extends(b, c)
    ensures Extends(a, c)
  {
  }

  lemma {:induction false} BodyBalanced(o: Oracle, db: Db, tx: Tx, body: seq<Op>)
    requires Balanced(tx)
    ensures var (db', tx', ok) := BodyRun(o, db, tx, body);
            && Extends(db, db')
            && (ok ==> Balanced(tx') && tx'.writes == tx.writes + OwnWrites(body))
    decreases body, 0
  {
    if body == [] {
      assert tx.writes + [] == tx.writes;
    } else if body[0].Persist? {
      var (db1, tx1, ok) := Persisted(o, db, tx, body[0].write);
      PersistedBalanced(o, db, tx, body[0].write);
      if ok {
        BodyBalanced(o, db1, tx1, body[1..]);
        ExtendsOn(db, db1, BodyRun(o, db1, tx1, body[1..]).0);
        WritesGoOn(tx.writes, body);
      }
    } else if body[0].Unit? {
      var (db1, ok) := UnitRun(o, db, body[0].body);
      UnitBalanced(o, db, body[0].body);
      if ok {
        BodyBalanced(o, db1, tx, body[1..]);
        ExtendsOn(db, db1, BodyRun(o, db1, tx, body[1..]).0);
        WritesGoOn(tx.writes, body);
      }
    }
  }

  /** What the units nested in a closure had committed when the closure came to its end. */
  function NestedCommits(o: Oracle, db: Db, body: seq<Op>): seq<Tx> {
    if o(db.tick).Done? && o(db.tick + 1).Done? then BodyRun(o, Asked(Asked(db)), Tx([], []), body).0.committed
    else db.committed
  }

  /**
   * Whatever a unit of work does and whatever fails or crashes: every transaction it commits
   * is balanced. Its own writes, those of all the repository calls that joined it, are
   * committed together in one transaction or not at all; if it returns nil they are committed.
   */
  lemma {:induction false} UnitBalanced(o: Oracle, db: Db, body: seq<Op>)
    ensures var (db', ok) := UnitRun(o, db, body);
            var nested := NestedCommits(o, db, body);
            && Extends(db, db')
            && (db'.committed == nested || (|db'.committed| > 0 && db'.committed[..|db'.committed| - 1] == nested
                                            && db'.committed[|db'.committed| - 1].writes == OwnWrites(body)))
            && (ok ==> |db'.committed| == |nested| + 1)
    decreases body, 1
  {
    if o(db.tick).Done? && o(db.tick + 1).Done? {
      BodyBalanced(o, Asked(Asked(db)), Tx([], []), body);
      assert [] + OwnWrites(body) == OwnWrites(body);
    }
  }
}
