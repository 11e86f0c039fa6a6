/**
 * Concurrent updates of one refresh-token family. An update reads the row of the family, then
 * its tokens, rotates or revokes this copy, and writes it back in one transaction. Reads take no
 * lock and see what is committed, so another update may commit between any two of these; the
 * row lock on the family makes the writes follow one another.
 */
module RefreshRaces {
  import opened RefreshTokens
  import Naturals

  /** The row of a family, without its tokens. */
  datatype Row = Row(lastUsedAt: Time, revokedAt: Time, reason: string)

  /** Of the updates under way, `rows` holds what those have that have not read the tokens yet,
      `loads` the copies of the others. `accepted` has the hashes of the tokens accepted so far,
      in order. */
  datatype Db = Db(family: State, rows: map<nat, Row>, loads: map<nat, State>, accepted: seq<string>)

  /** A `wary` update leaves a copy alone that is revoked already. */
  datatype Action = ReadRow(id: nat) | ReadTokens(id: nat) | Update(id: nat, e: Event, wary: bool)

  function IndexOf(tokens: seq<Token>, id: nat): (i: nat)
    ensures i <= |tokens| && (i < |tokens| ==> tokens[i].id == id) && forall j | 0 <= j < i :: tokens[j].id != id
  {
    if tokens == [] || tokens[0].id == id then 0 else 1 + IndexOf(tokens[1..], id)
  }

  /** A stored token with its two mutable columns as in the copy. */
  function Overwritten(t: Token, copy: Token): Token {
    t.(consumedAt := copy.consumedAt, replacedBy := copy.replacedBy)
  }

  function Upserted(t: Token, mine: seq<Token>): Token {
    var i := IndexOf(mine, t.id);
    if i < |mine| then Overwritten(t, mine[i]) else t
  }

  /** The tokens of the copy that are not stored yet. */
  function NewOnes(stored: seq<Token>, mine: seq<Token>): seq<Token> {
    if mine == [] then []
    else
      var rest, last := NewOnes(stored, mine[..|mine| - 1]), mine[|mine| - 1];
      if IndexOf(stored, last.id) < |stored| then rest else rest + [last]
  }

  function Upserts(stored: seq<Token>, mine: seq<Token>): seq<Token> {
    seq(|stored|, i requires 0 <= i < |stored| => Upserted(stored[i], mine)) + NewOnes(stored, mine)
  }

  /** Writing a copy back: family columns overwritten, tokens upserted. */
  function Merged(family: State, mine: State): State {
    State(Upserts(family.tokens, mine.tokens), mine.lastUsedAt, mine.revokedAt, mine.reason)
  }

  /** Tokens are minted with ids and hashes that occur nowhere yet. */
  ghost predicate Fresh(tokens: seq<Token>, e: Event) {
    && e.now != UNSET
    && (e.op.Use? ==>
          && e.op.nextId != NO_ID
          && forall i | 0 <= i < |tokens| :: tokens[i].id != e.op.nextId && tokens[i].hash != e.op.newHash)
  }

  function Copy(row: Row, tokens: seq<Token>): State {
    State(tokens, row.lastUsedAt, row.revokedAt, row.reason)
  }

  ghost predicate Enabled(db: Db, a: Action) {
    match a
    case ReadRow(id) => id !in db.rows && id !in db.loads
    case ReadTokens(id) => id in db.rows && id !in db.loads
    case Update(id, e, _) => id in db.loads && Fresh(db.family.tokens, e)
  }

  /** Accepted uses, detected reuses and revocations are written, the last even on a copy that
      is revoked already, unless the update is wary; an empty reason is refused. */
  predicate Persists(s: State, e: Event, wary: bool) {
    match e.op
    case Use(p, h, ttl, id) => Rotate(s, p, h, ttl, e.now, id).1 in {Rotated, Reused}
    case End(_, blank) => !blank && !(wary && IsRevoked(s))
  }

  ghost function Step(db: Db, a: Action): Db
    requires Enabled(db, a)
  {
    match a
    case ReadRow(id) => db.(rows := db.rows[id := Row(db.family.lastUsedAt, db.family.revokedAt, db.family.reason)])
    case ReadTokens(id) => db.(rows := db.rows - {id}, loads := db.loads[id := Copy(db.rows[id], db.family.tokens)])
    case Update(id, e, wary) =>
      var copy := db.loads[id];
      db.(family := if Persists(copy, e, wary) then Merged(db.family, Apply(copy, e)) else db.family,
          loads := db.loads - {id},
          accepted := if Accepts(copy, e) then db.accepted + [e.op.presented] else db.accepted)
  }

  ghost predicate Valid(db: Db, run: seq<Action>)
    decreases |run|
  {
    run == [] || (Enabled(db, run[0]) && Valid(Step(db, run[0]), run[1..]))
  }

  ghost function Exec(db: Db, run: seq<Action>): Db
    requires Valid(db, run)
    decreases |run|
  {
    if run == [] then db else Exec(Step(db, run[0]), run[1..])
  }

  // ----- One write --------------------------------------------------------------------------------

  ghost predicate Distinct(tokens: seq<Token>) {
    forall i, j | 0 <= i < j < |tokens| :: tokens[i].id != tokens[j].id && tokens[i].hash != tokens[j].hash
  }

  /** The tokens of a copy are the first ones of the family, perhaps in an earlier state. */
  ghost predicate Earlier(copy: seq<Token>, tokens: seq<Token>) {
    |copy| <= |tokens| && forall i | 0 <= i < |copy| :: SameIssue(copy[i], tokens[i])
  }

  /** What an update makes of its copy: the tokens it had, and at most one that is new to the
      family as well. */
  ghost predicate Grown(was: seq<Token>, copy: seq<Token>, mine: seq<Token>) {
    && |mine| <= |copy| + 1 && Earlier(copy, mine)
    && (|mine| > |copy| ==> forall i | 0 <= i < |was| :: was[i].id != mine[|copy|].id && was[i].hash != mine[|copy|].hash)
  }

  /** The family's tokens, those of the copy overwritten, and the new one behind them. */
  ghost predicate Written(was: seq<Token>, copy: seq<Token>, mine: seq<Token>, t: seq<Token>)
    requires |copy| <= |was| && |copy| <= |mine| <= |copy| + 1
  {
    && |t| == |was| + (|mine| - |copy|)
    && (forall i | 0 <= i < |copy| :: t[i] == Overwritten(was[i], mine[i]))
    && (forall i | |copy| <= i < |was| :: t[i] == was[i])
    && (|mine| > |copy| ==> t[|was|] == mine[|copy|])
  }

  lemma IndexIs(tokens: seq<Token>, id: nat, i: nat)
    requires i <= |tokens| && (i < |tokens| ==> tokens[i].id == id) && forall j | 0 <= j < i :: tokens[j].id != id
    ensures IndexOf(tokens, id) == i
  {
    var k := IndexOf(tokens, id);
    assert !(k < i) && !(i < k);
  }

  lemma {:induction false} NoneNew(stored: seq<Token>, copy: seq<Token>)
    requires Distinct(stored) && Earlier(copy, stored)
    ensures NewOnes(stored, copy) == []
    decreases |copy|
  {
    if copy != [] {
      var n := |copy| - 1;
      assert SameIssue(copy[n], stored[n]);
      IndexIs(stored, copy[n].id, n);
      NoneNew(stored, copy[..n]);
    }
  }

  lemma NewOnesOf(was: seq<Token>, copy: seq<Token>, mine: seq<Token>)
    requires Distinct(was) && Earlier(copy, was) && Grown(was, copy, mine)
    ensures NewOnes(was, mine) == mine[|copy|..]
  {
    var n := |copy|;
    forall i | 0 <= i < n ensures SameIssue(mine[..n][i], was[i]) {
      assert SameIssue(copy[i], was[i]) && SameIssue(copy[i], mine[i]);
    }
    NoneNew(was, mine[..n]);
    if |mine| > n {
      assert mine[..|mine| - 1] == mine[..n];
      IndexIs(was, mine[n].id, |was|);
    } else {
      assert mine[..n] == mine;
    }
  }

  lemma UpsertedIs(was: seq<Token>, copy: seq<Token>, mine: seq<Token>, i: nat)
    requires Distinct(was) && Earlier(copy, was) && Grown(was, copy, mine) && i < |was|
    ensures Upserted(was[i], mine) == if i < |copy| then Overwritten(was[i], mine[i]) else was[i]
  {
    var id := was[i].id;
    forall j | 0 <= j < |mine| && j != i ensures mine[j].id != id {
      if j < |copy| {
        assert SameIssue(copy[j], was[j]) && SameIssue(copy[j], mine[j]);
      }
    }
    if i < |copy| {
      assert SameIssue(copy[i], was[i]) && SameIssue(copy[i], mine[i]);
      IndexIs(mine, id, i);
    } else {
      assert i == |copy| < |mine| ==> mine[i].id != id;
      IndexIs(mine, id, |mine|);
    }
  }

  lemma WriteIs(was: seq<Token>, copy: seq<Token>, mine: seq<Token>)
    requires Distinct(was) && Earlier(copy, was) && Grown(was, copy, mine)
    ensures Written(was, copy, mine, Upserts(was, mine))
  {
    NewOnesOf(was, copy, mine);
    forall i | 0 <= i < |was|
      ensures Upserts(was, mine)[i] == if i < |copy| then Overwritten(was[i], mine[i]) else was[i]
    {
      UpsertedIs(was, copy, mine, i);
    }
  }

  lemma WrittenDistinct(was: seq<Token>, copy: seq<Token>, mine: seq<Token>, t: seq<Token>)
    requires Distinct(was) && Earlier(copy, was) && Grown(was, copy, mine) && Written(was, copy, mine, t)
    ensures Distinct(t) && Earlier(was, t)
  {
    assert forall i | 0 <= i < |was| :: SameIssue(was[i], t[i]);
    forall i, j | 0 <= i < j < |t| ensures t[i].id != t[j].id && t[i].hash != t[j].hash {
      assert SameIssue(was[i], t[i]);
      if j < |was| {
        assert SameIssue(was[j], t[j]);
      }
    }
  }

  lemma ApplyGrown(was: seq<Token>, copy: State, e: Event)
    requires Fresh(was, e)
    ensures Grown(was, copy.tokens, Apply(copy, e).tokens)
    ensures |Apply(copy, e).tokens| == |copy.tokens| + if Accepts(copy, e) then 1 else 0
  {
  }

  // ----- What every run keeps -------------------------------------------------------------------

  ghost predicate Inv(db: Db) {
    && Distinct(db.family.tokens) && db.rows.Keys !! db.loads.Keys
    && forall id | id in db.loads :: Earlier(db.loads[id].tokens, db.family.tokens)
  }

  /** What the write of one update does to the tokens. */
  lemma UpdateWrites(db: Db, a: Action)
    requires Inv(db) && Enabled(db, a) && a.Update? && Persists(db.loads[a.id], a.e, a.wary)
    ensures var was, copy := db.family.tokens, db.loads[a.id].tokens;
            var mine, t := Apply(db.loads[a.id], a.e).tokens, Step(db, a).family.tokens;
            Earlier(copy, was) && Grown(was, copy, mine) && Written(was, copy, mine, t) && Distinct(t) && Earlier(was, t)
  {
    var was, copy := db.family.tokens, db.loads[a.id];
    ApplyGrown(was, copy, a.e);
    WriteIs(was, copy.tokens, Apply(copy, a.e).tokens);
    WrittenDistinct(was, copy.tokens, Apply(copy, a.e).tokens, Step(db, a).family.tokens);
  }

  lemma EarlierStays(copy: seq<Token>, was: seq<Token>, t: seq<Token>)
    requires Earlier(copy, was) && Earlier(was, t)
    ensures Earlier(copy, t)
  {
    forall i | 0 <= i < |copy| ensures SameIssue(copy[i], t[i]) {
      assert SameIssue(copy[i], was[i]) && SameIssue(was[i], t[i]);
    }
  }

  lemma StepInv(db: Db, a: Action)
    requires Inv(db) && Enabled(db, a)
    ensures Inv(Step(db, a)) && Earlier(db.family.tokens, Step(db, a).family.tokens)
  {
    if a.Update? && Persists(db.loads[a.id], a.e, a.wary) {
      UpdateWrites(db, a);
      forall id | id in Step(db, a).loads ensures Earlier(Step(db, a).loads[id].tokens, Step(db, a).family.tokens) {
        EarlierStays(db.loads[id].tokens, db.family.tokens, Step(db, a).family.tokens);
      }
    }
  }

  /** In every run tokens keep their place, id, hash, generation and dates, and copies hold the
      first of them. */
  lemma {:induction false} RunInv(db: Db, run: seq<Action>)
    requires Inv(db) && Valid(db, run)
    ensures Inv(Exec(db, run)) && Earlier(db.family.tokens, Exec(db, run).family.tokens)
    decreases |run|
  {
    if run != [] {
      StepInv(db, run[0]);
      RunInv(Step(db, run[0]), run[1..]);
      EarlierStays(db.family.tokens, Step(db, run[0]).family.tokens, Exec(db, run).family.tokens);
    }
  }

  /** In every run the family gains one token for each acceptance, and none otherwise. */
  lemma {:induction false} OneTokenEach(db: Db, run: seq<Action>)
    requires Inv(db) && Valid(db, run)
    ensures db.accepted <= Exec(db, run).accepted
    ensures |Exec(db, run).family.tokens| - |db.family.tokens| == |Exec(db, run).accepted| - |db.accepted|
    decreases |run|
  {
    if run != [] {
      var a := run[0];
      if a.Update? {
        if Persists(db.loads[a.id], a.e, a.wary) {
          UpdateWrites(db, a);
          ApplyGrown(db.family.tokens, db.loads[a.id], a.e);
        }
      }
      StepInv(db, a);
      OneTokenEach(Step(db, a), run[1..]);
    }
  }

  // ----- Accepted once --------------------------------------------------------------------------

  predicate Has(tokens: seq<Token>, hash: string) {
    Find(tokens, hash) < |tokens|
  }

  predicate Unconsumed(tokens: seq<Token>, hash: string) {
    Has(tokens, hash) && !Consumed(tokens[Find(tokens, hash)])
  }

  /** A copy in which the token can be accepted. */
  predicate Acceptable(s: State, hash: string) {
    !IsRevoked(s) && Unconsumed(s.tokens, hash)
  }

  /** No token of the copy can be accepted. */
  ghost predicate Powerless(s: State) {
    forall hash :: !Acceptable(s, hash)
  }

  function Times(accepted: seq<string>, hash: string): nat {
    multiset(accepted)[hash]
  }

  /** The family is revoked, and so is every row read; no copy can accept a token. */
  ghost predicate Final(db: Db) {
    && IsRevoked(db.family)
    && (forall id | id in db.rows :: db.rows[id].revokedAt != UNSET)
    && (forall id | id in db.loads :: Powerless(db.loads[id]))
  }

  /** The token is issued, and consumed wherever it is. */
  ghost predicate Gone(db: Db, hash: string) {
    && Spent(db.family, hash)
    && forall id | id in db.loads :: !Unconsumed(db.loads[id].tokens, hash)
  }

  lemma OnlyAcceptable(s: State, e: Event)
    requires Accepts(s, e)
    ensures Acceptable(s, e.op.presented)
  {
  }

  lemma FindIs(tokens: seq<Token>, hash: string, i: nat)
    requires i <= |tokens| && (i < |tokens| ==> tokens[i].hash == hash) && forall j | 0 <= j < i :: tokens[j].hash != hash
    ensures Find(tokens, hash) == i
  {
    var k := Find(tokens, hash);
    assert !(k < i) && !(i < k);
  }

  /** Where a token of the family is in the copy, and in what is written. */
  lemma WrittenFind(was: seq<Token>, copy: seq<Token>, mine: seq<Token>, t: seq<Token>, hash: string)
    requires Distinct(was) && Earlier(copy, was) && Grown(was, copy, mine) && Written(was, copy, mine, t) && Has(was, hash)
    ensures var i := Find(was, hash);
            && Find(copy, hash) == (if i < |copy| then i else |copy|)
            && Find(t, hash) == i
            && t[i].consumedAt == if i < |copy| then mine[i].consumedAt else was[i].consumedAt
  {
    var i := Find(was, hash);
    forall j | 0 <= j < |copy| ensures copy[j].hash == was[j].hash {
      assert SameIssue(copy[j], was[j]);
    }
    FindIs(copy, hash, if i < |copy| then i else |copy|);
    assert forall j | 0 <= j < |was| :: t[j].hash == was[j].hash;
    FindIs(t, hash, i);
  }

  /** A write leaves a token unconsumed only if the copy had it so, or did not have it and the
      family had it so. */
  lemma WriteKeeps(db: Db, a: Action, hash: string)
    requires Inv(db) && Enabled(db, a) && a.Update? && Persists(db.loads[a.id], a.e, a.wary) && Has(db.family.tokens, hash)
    ensures var copy, t := db.loads[a.id].tokens, Step(db, a).family.tokens;
            && Has(t, hash)
            && (Unconsumed(t, hash) ==> if Has(copy, hash) then Unconsumed(copy, hash) else Unconsumed(db.family.tokens, hash))
  {
    var copy := db.loads[a.id];
    var mine := Apply(copy, a.e).tokens;
    UpdateWrites(db, a);
    WrittenFind(db.family.tokens, copy.tokens, mine, Step(db, a).family.tokens, hash);
    ApplyExtends(copy, a.e);
  }

  /** What is written unrevoked comes from a copy that accepts a token. */
  lemma UnrevokedWrite(s: State, e: Event, wary: bool)
    requires e.now != UNSET && Persists(s, e, wary) && !IsRevoked(Apply(s, e))
    ensures !Powerless(s) && Accepts(s, e)
  {
    OnlyAcceptable(s, e);
  }

  lemma GoneStep(db: Db, a: Action, hash: string)
    requires Inv(db) && Enabled(db, a) && Gone(db, hash)
    ensures Gone(Step(db, a), hash) && Times(Step(db, a).accepted, hash) == Times(db.accepted, hash)
  {
    if a.Update? {
      if Accepts(db.loads[a.id], a.e) {
        OnlyAcceptable(db.loads[a.id], a.e);
      }
      if Persists(db.loads[a.id], a.e, a.wary) {
        WriteKeeps(db, a, hash);
      }
    }
  }

  lemma {:induction false} GoneRun(db: Db, run: seq<Action>, hash: string)
    requires Inv(db) && Valid(db, run) && Gone(db, hash)
    ensures Times(Exec(db, run).accepted, hash) == Times(db.accepted, hash)
    decreases |run|
  {
    if run != [] {
      StepInv(db, run[0]);
      GoneStep(db, run[0], hash);
      GoneRun(Step(db, run[0]), run[1..], hash);
    }
  }

  lemma FinalStep(db: Db, a: Action)
    requires Enabled(db, a) && Final(db)
    ensures Final(Step(db, a)) && Step(db, a).accepted == db.accepted
  {
    if a.Update? {
      var copy := db.loads[a.id];
      if Accepts(copy, a.e) {
        OnlyAcceptable(copy, a.e);
      }
      if Persists(copy, a.e, a.wary) && !IsRevoked(Apply(copy, a.e)) {
        UnrevokedWrite(copy, a.e, a.wary);
      }
    }
  }

  lemma {:induction false} FinalRun(db: Db, run: seq<Action>)
    requires Valid(db, run) && Final(db)
    ensures Final(Exec(db, run)) && Exec(db, run).accepted == db.accepted
    decreases |run|
  {
    if run != [] {
      FinalStep(db, run[0]);
      FinalRun(Step(db, run[0]), run[1..]);
    }
  }

  lemma {:induction false} FreshHash(tokens: seq<Token>) returns (hash: string)
    ensures hash != "" && forall i | 0 <= i < |tokens| :: |tokens[i].hash| < |hash|
  {
    hash := "h";
    if tokens != [] {
      var n := |tokens| - 1;
      hash := FreshHash(tokens[..n]);
      hash := hash + tokens[n].hash + "h";
    }
  }

  /** A use of the token, at an instant at which it has not expired, with a new successor. */
  lemma UseOf(tokens: seq<Token>, s: State, hash: string) returns (e: Event)
    requires Acceptable(s, hash)
    ensures Fresh(tokens, e) && Accepts(s, e) && e.op.presented == hash
  {
    var newHash := FreshHash(tokens);
    var ids := set i | 0 <= i < |tokens| :: tokens[i].id;
    var nextId := Naturals.FreshNat(ids + {NO_ID});
    e := Event(Use(hash, newHash, 1, nextId), 1);
    forall i | 0 <= i < |tokens| ensures tokens[i].id != nextId {
      assert tokens[i].id in ids;
    }
  }

  lemma OneStep(db: Db, a: Action)
    requires Enabled(db, a)
    ensures Valid(db, [a]) && Exec(db, [a]) == Step(db, a)
  {
    assert [a][1..] == [];
  }

  lemma {:induction false} ExecConcat(db: Db, a: seq<Action>, b: seq<Action>)
    requires Valid(db, a) && Valid(Exec(db, a), b)
    ensures Valid(db, a + b) && Exec(db, a + b) == Exec(Exec(db, a), b)
    decreases |a|
  {
    if a == [] {
      assert a + b == b;
    } else {
      assert (a + b)[0] == a[0] && (a + b)[1..] == a[1..] + b;
      ExecConcat(Step(db, a[0]), a[1..], b);
    }
  }

  ghost predicate Reaches(db: Db, after: Db) {
    exists run :: Valid(db, run) && Exec(db, run) == after
  }

  lemma Starts(db: Db)
    ensures Reaches(db, db)
  {
    assert Valid(db, []) && Exec(db, []) == db;
  }

  /** One more step at the end of a run. */
  lemma Then(db: Db, now: Db, a: Action)
    requires Reaches(db, now) && Enabled(now, a)
    ensures Reaches(db, Step(now, a))
  {
    var run :| Valid(db, run) && Exec(db, run) == now;
    OneStep(now, a);
    ExecConcat(db, run, [a]);
  }

  lemma ThenOn(db: Db, now: Db, after: Db)
    requires Reaches(db, now) && Reaches(now, after)
    ensures Reaches(db, after)
  {
    var run :| Valid(db, run) && Exec(db, run) == now;
    var more :| Valid(now, more) && Exec(now, more) == after;
    ExecConcat(db, run, more);
  }

  /** An update whose copy can accept the token accepts it and writes the copy. */
  lemma AcceptsNow(db: Db, id: nat, hash: string) returns (a: Action)
    requires id in db.loads && Acceptable(db.loads[id], hash)
    ensures Enabled(db, a) && a.Update? && a.id == id && Persists(db.loads[id], a.e, a.wary)
    ensures Accepts(db.loads[id], a.e) && a.e.op.presented == hash
    ensures Step(db, a).accepted == db.accepted + [hash] && !IsRevoked(Step(db, a).family)
  {
    var e := UseOf(db.family.tokens, db.loads[id], hash);
    a := Update(id, e, false);
  }

  /** A logout on a revoked copy that holds the token unconsumed puts it back. */
  lemma PutsBack(db: Db, id: nat, hash: string) returns (after: Db)
    requires Inv(db) && Has(db.family.tokens, hash)
    requires id in db.loads && Unconsumed(db.loads[id].tokens, hash) && IsRevoked(db.loads[id])
    ensures Reaches(db, after) && Inv(after) && Unconsumed(after.family.tokens, hash)
    ensures after.rows == db.rows && after.accepted == db.accepted
  {
    var a := Update(id, Event(End("logout", false), 1), false);
    Starts(db);
    Then(db, db, a);
    StepInv(db, a);
    after := Step(db, a);
    UpdateWrites(db, a);
    WrittenFind(db.family.tokens, db.loads[id].tokens, db.loads[id].tokens, after.family.tokens, hash);
  }

  /** An update that has read an unrevoked row accepts any token that is unconsumed. */
  lemma ReadsAndAccepts(db: Db, id: nat, hash: string) returns (after: Db)
    requires Inv(db) && Unconsumed(db.family.tokens, hash) && id in db.rows && db.rows[id].revokedAt == UNSET
    ensures Reaches(db, after) && after.accepted == db.accepted + [hash] && !IsRevoked(after.family)
  {
    Starts(db);
    var loaded := Step(db, ReadTokens(id));
    Then(db, db, ReadTokens(id));
    var use := AcceptsNow(loaded, id, hash);
    Then(db, loaded, use);
    after := Step(loaded, use);
  }

  lemma BackByRow(db: Db, holder: nat, reader: nat, hash: string) returns (after: Db)
    requires Inv(db) && Has(db.family.tokens, hash) && holder in db.loads && reader in db.rows
    requires Unconsumed(db.loads[holder].tokens, hash) && IsRevoked(db.loads[holder]) && db.rows[reader].revokedAt == UNSET
    ensures Reaches(db, after) && after.accepted == db.accepted + [hash]
  {
    var back := PutsBack(db, holder, hash);
    after := ReadsAndAccepts(back, reader, hash);
    ThenOn(db, back, after);
  }

  lemma BackByFamily(db: Db, holder: nat, hash: string) returns (after: Db)
    requires Inv(db) && Has(db.family.tokens, hash) && holder in db.loads && !IsRevoked(db.family)
    requires Unconsumed(db.loads[holder].tokens, hash) && IsRevoked(db.loads[holder])
    ensures Reaches(db, after) && after.accepted == db.accepted + [hash]
  {
    var id := Naturals.FreshNat(db.rows.Keys + db.loads.Keys);
    var now := Step(db, ReadRow(id));
    Starts(db);
    Then(db, db, ReadRow(id));
    StepInv(db, ReadRow(id));
    after := BackByRow(now, holder, id, hash);
    ThenOn(db, now, after);
  }

  lemma BackByCopy(db: Db, holder: nat, user: nat, other: string, hash: string) returns (after: Db)
    requires Inv(db) && Has(db.family.tokens, hash) && holder in db.loads && user in db.loads && other != hash
    requires Unconsumed(db.loads[holder].tokens, hash) && IsRevoked(db.loads[holder]) && Acceptable(db.loads[user], other)
    ensures Reaches(db, after) && after.accepted == db.accepted + [other] + [hash]
  {
    var a := AcceptsNow(db, user, other);
    var now := Step(db, a);
    Starts(db);
    Then(db, db, a);
    StepInv(db, a);
    WriteKeeps(db, a, hash);
    after := BackByFamily(now, holder, hash);
    ThenOn(db, now, after);
  }

  /** A copy that holds the token unconsumed brings it back, unless the revocation is final. */
  lemma AcceptedAgain(db: Db, holder: nat, hash: string) returns (after: Db)
    requires Inv(db) && Has(db.family.tokens, hash)
    requires holder in db.loads && Unconsumed(db.loads[holder].tokens, hash) && !Final(db)
    ensures Reaches(db, after) && Times(after.accepted, hash) == Times(db.accepted, hash) + 1
  {
    if id :| id in db.loads && Acceptable(db.loads[id], hash) {
      var a := AcceptsNow(db, id, hash);
      Starts(db);
      Then(db, db, a);
      after := Step(db, a);
    } else if !IsRevoked(db.family) {
      after := BackByFamily(db, holder, hash);
    } else if id :| id in db.rows && db.rows[id].revokedAt == UNSET {
      after := BackByRow(db, holder, id, hash);
    } else {
      var id, other :| id in db.loads && Acceptable(db.loads[id], other);
      after := BackByCopy(db, holder, id, other, hash);
    }
  }

  /**
   * Under concurrent rotations and revocations, a consumed token is accepted again in no
   * continuation if and only if no update under way holds it unconsumed or a revocation is
   * final.
   */
  lemma AcceptedOnceExact(db: Db, hash: string)
    requires Inv(db) && Spent(db.family, hash)
    ensures (forall after | Reaches(db, after) :: Times(after.accepted, hash) == Times(db.accepted, hash))
       <==> (forall id | id in db.loads :: !Unconsumed(db.loads[id].tokens, hash)) || Final(db)
  {
    if holder :| holder in db.loads && Unconsumed(db.loads[holder].tokens, hash) {
      if Final(db) {
        forall after | Reaches(db, after) ensures after.accepted == db.accepted {
          var run :| Valid(db, run) && Exec(db, run) == after;
          FinalRun(db, run);
        }
      } else {
        var after := AcceptedAgain(db, holder, hash);
      }
    } else {
      forall after | Reaches(db, after) ensures Times(after.accepted, hash) == Times(db.accepted, hash) {
        var run :| Valid(db, run) && Exec(db, run) == after;
        GoneRun(db, run, hash);
      }
    }
  }

  // ----- Revoked for good -----------------------------------------------------------------------

  ghost predicate Exhausted(tokens: seq<Token>) {
    forall hash :: !Unconsumed(tokens, hash)
  }

  /** No token of the family or of a copy is left to be accepted. */
  ghost predicate NoneLeft(db: Db) {
    && IsRevoked(db.family) && Exhausted(db.family.tokens)
    && (forall id | id in db.loads :: Exhausted(db.loads[id].tokens))
  }

  lemma NoneLeftWrite(db: Db, a: Action)
    requires Inv(db) && Enabled(db, a) && NoneLeft(db) && a.Update? && Persists(db.loads[a.id], a.e, a.wary)
    ensures NoneLeft(Step(db, a))
  {
    var copy, next := db.loads[a.id], Step(db, a);
    UpdateWrites(db, a);
    ApplyGrown(db.family.tokens, copy, a.e);
    if Accepts(copy, a.e) {
      OnlyAcceptable(copy, a.e);
    } else if !IsRevoked(Apply(copy, a.e)) {
      UnrevokedWrite(copy, a.e, a.wary);
    }
    forall hash ensures !Unconsumed(next.family.tokens, hash) {
      if Has(db.family.tokens, hash) {
        WriteKeeps(db, a, hash);
      } else {
        SameHashes(db.family.tokens, next.family.tokens, hash);
      }
    }
  }

  lemma SameHashes(tokens: seq<Token>, t: seq<Token>, hash: string)
    requires |tokens| == |t| && Earlier(tokens, t) && !Has(tokens, hash)
    ensures !Has(t, hash)
  {
    forall i | 0 <= i < |t| ensures t[i].hash != hash {
      assert SameIssue(tokens[i], t[i]);
    }
  }

  lemma {:induction false} NoneLeftRun(db: Db, run: seq<Action>)
    requires Inv(db) && Valid(db, run) && NoneLeft(db)
    ensures NoneLeft(Exec(db, run))
    decreases |run|
  {
    if run != [] {
      var a := run[0];
      if a.Update? && Persists(db.loads[a.id], a.e, a.wary) {
        NoneLeftWrite(db, a);
      }
      StepInv(db, a);
      NoneLeftRun(Step(db, a), run[1..]);
    }
  }

  lemma HolderLeft(db: Db) returns (holder: nat, hash: string)
    requires Inv(db) && IsRevoked(db.family) && !NoneLeft(db) && Exhausted(db.family.tokens)
    ensures holder in db.loads && Unconsumed(db.loads[holder].tokens, hash) && Has(db.family.tokens, hash)
  {
    holder :| holder in db.loads && !Exhausted(db.loads[holder].tokens);
    hash :| Unconsumed(db.loads[holder].tokens, hash);
    EarlierHas(db.loads[holder].tokens, db.family.tokens, hash);
  }

  /** With an unrevoked row read, any token left unconsumed takes the revocation back. */
  lemma Unrevokes(db: Db, id: nat) returns (after: Db)
    requires Inv(db) && IsRevoked(db.family) && id in db.rows && db.rows[id].revokedAt == UNSET && !NoneLeft(db)
    requires forall k | k in db.loads :: Powerless(db.loads[k])
    ensures Reaches(db, after) && !IsRevoked(after.family)
  {
    if hash :| Unconsumed(db.family.tokens, hash) {
      after := ReadsAndAccepts(db, id, hash);
    } else {
      var holder, left := HolderLeft(db);
      assert !Acceptable(db.loads[holder], left);
      var back := PutsBack(db, holder, left);
      after := ReadsAndAccepts(back, id, left);
      ThenOn(db, back, after);
    }
  }

  lemma EarlierHas(copy: seq<Token>, tokens: seq<Token>, hash: string)
    requires Earlier(copy, tokens) && Has(copy, hash)
    ensures Has(tokens, hash)
  {
    var i := Find(copy, hash);
    assert SameIssue(copy[i], tokens[i]);
  }

  /**
   * Under concurrent rotations and revocations, a revocation lasts in all continuations if and
   * only if it is final or no token is left.
   */
  lemma RevokedExact(db: Db)
    requires Inv(db) && IsRevoked(db.family)
    ensures (forall after | Reaches(db, after) :: IsRevoked(after.family)) <==> Final(db) || NoneLeft(db)
  {
    if Final(db) || NoneLeft(db) {
      forall after | Reaches(db, after) ensures IsRevoked(after.family) {
        var run :| Valid(db, run) && Exec(db, run) == after;
        if Final(db) {
          FinalRun(db, run);
        } else {
          NoneLeftRun(db, run);
        }
      }
    } else if id, hash :| id in db.loads && Acceptable(db.loads[id], hash) {
      var a := AcceptsNow(db, id, hash);
      Starts(db);
      Then(db, db, a);
    } else {
      var id :| id in db.rows && db.rows[id].revokedAt == UNSET;
      var after := Unrevokes(db, id);
    }
  }

  // ----- One current token ----------------------------------------------------------------------

  ghost predicate OneCurrent(tokens: seq<Token>) {
    exists i | 0 <= i < |tokens| :: !Consumed(tokens[i]) && forall j | 0 <= j < |tokens| && j != i :: Consumed(tokens[j])
  }

  lemma TwoCurrent(tokens: seq<Token>, i: nat, j: nat)
    requires i < j < |tokens| && !Consumed(tokens[i]) && !Consumed(tokens[j])
    ensures !OneCurrent(tokens)
  {
  }

  lemma ChainHasOne(tokens: seq<Token>)
    requires Chain(tokens)
    ensures OneCurrent(tokens)
  {
    assert !Consumed(tokens[|tokens| - 1]);
  }

  /** Writing a chain over a chain: one current token is left exactly when they are as long. */
  lemma ChainWrite(was: seq<Token>, copy: seq<Token>, mine: seq<Token>, t: seq<Token>)
    requires Chain(was) && Chain(copy) && Chain(mine) && Earlier(copy, was) && Grown(was, copy, mine) && Written(was, copy, mine, t)
    ensures Chain(t) <==> |copy| == |was|
    ensures OneCurrent(t) <==> |copy| == |was|
  {
    if |copy| == |was| {
      forall i | 0 <= i < |was| ensures t[i] == mine[i] {
        assert SameIssue(copy[i], was[i]) && SameIssue(copy[i], mine[i]);
      }
      assert t == mine;
      ChainHasOne(t);
    } else {
      TwoCurrent(t, if |mine| > |copy| then |was| - 1 else |copy| - 1, |t| - 1);
      if Chain(t) {
        ChainHasOne(t);
      }
    }
  }

  lemma ApplyChain(was: seq<Token>, copy: State, e: Event)
    requires Chain(copy.tokens) && Earlier(copy.tokens, was) && Fresh(was, e)
    ensures Chain(Apply(copy, e).tokens)
  {
    if Accepts(copy, e) {
      forall i | 0 <= i < |copy.tokens| ensures copy.tokens[i].id != e.op.nextId {
        assert SameIssue(copy.tokens[i], was[i]);
      }
      RotationExact(copy, e.op.presented, e.op.newHash, e.op.ttl, e.now, e.op.nextId);
    }
  }

  lemma WriteExact(db: Db, a: Action)
    requires Inv(db) && Enabled(db, a) && a.Update? && Persists(db.loads[a.id], a.e, a.wary)
    requires Chain(db.family.tokens) && Chain(db.loads[a.id].tokens)
    ensures var copy, t := db.loads[a.id].tokens, Step(db, a).family.tokens;
            && (Chain(t) <==> |copy| == |db.family.tokens|)
            && (OneCurrent(t) <==> |copy| == |db.family.tokens|)
  {
    var was, copy := db.family.tokens, db.loads[a.id];
    UpdateWrites(db, a);
    ApplyChain(was, copy, a.e);
    ChainWrite(was, copy.tokens, Apply(copy, a.e).tokens, Step(db, a).family.tokens);
  }

  lemma {:induction false} CopyKept(db: Db, run: seq<Action>, id: nat)
    requires Valid(db, run) && id in db.loads && forall a | a in run :: a.id != id
    ensures id in Exec(db, run).loads && Exec(db, run).loads[id] == db.loads[id]
    decreases |run|
  {
    if run != [] {
      assert run[0] in run;
      assert forall a | a in run[1..] :: a in run;
      CopyKept(Step(db, run[0]), run[1..], id);
    }
  }

  /**
   * A family that is a chain has exactly one token that is not consumed after the write of an
   * update, a rotation or a revocation, if and only if no token was accepted since that update
   * has read the tokens.
   */
  lemma OneCurrentExact(db: Db, id: nat, run: seq<Action>, e: Event, wary: bool)
    requires Inv(db) && Enabled(db, ReadTokens(id)) && Valid(Step(db, ReadTokens(id)), run) && forall a | a in run :: a.id != id
    requires var now := Exec(Step(db, ReadTokens(id)), run);
             && Fresh(now.family.tokens, e) && Persists(Copy(db.rows[id], db.family.tokens), e, wary)
             && Chain(db.family.tokens) && Chain(now.family.tokens)
    ensures var now := Exec(Step(db, ReadTokens(id)), run);
            && Enabled(now, Update(id, e, wary))
            && (OneCurrent(Step(now, Update(id, e, wary)).family.tokens) <==> now.accepted == db.accepted)
  {
    var loaded := Step(db, ReadTokens(id));
    StepInv(db, ReadTokens(id));
    CopyKept(loaded, run, id);
    RunInv(loaded, run);
    OneTokenEach(loaded, run);
    var now := Exec(loaded, run);
    WriteExact(now, Update(id, e, wary));
  }

  ghost predicate ChainThroughout(db: Db, run: seq<Action>)
    requires Valid(db, run)
    decreases |run|
  {
    Chain(db.family.tokens) && (run != [] ==> ChainThroughout(Step(db, run[0]), run[1..]))
  }

  /** No copy is written after another update has added a token. */
  ghost predicate NoStaleWrite(db: Db, run: seq<Action>)
    requires Valid(db, run)
    decreases |run|
  {
    run == [] ||
    (var a := run[0];
     && (a.Update? && Persists(db.loads[a.id], a.e, a.wary) ==> |db.loads[a.id].tokens| == |db.family.tokens|)
     && NoStaleWrite(Step(db, a), run[1..]))
  }

  /** Over whole runs: the tokens form a chain throughout if and only if no write is stale. */
  lemma {:induction false} ChainRunExact(db: Db, run: seq<Action>)
    requires Inv(db) && Valid(db, run)
    requires Chain(db.family.tokens) && forall id | id in db.loads :: Chain(db.loads[id].tokens)
    ensures ChainThroughout(db, run) <==> NoStaleWrite(db, run)
    decreases |run|
  {
    if run != [] {
      var a := run[0];
      StepInv(db, a);
      if a.Update? && Persists(db.loads[a.id], a.e, a.wary) {
        WriteExact(db, a);
      }
      if Chain(Step(db, a).family.tokens) {
        ChainRunExact(Step(db, a), run[1..]);
      }
    }
  }

  // ----- One update after the other --------------------------------------------------------------

  /** Every copy is the family when it is written. */
  ghost predicate Serial(db: Db, run: seq<Action>)
    requires Valid(db, run)
    decreases |run|
  {
    run == [] ||
    (var a := run[0];
     && (a.Update? && Persists(db.loads[a.id], a.e, a.wary) ==> db.loads[a.id] == db.family)
     && Serial(Step(db, a), run[1..]))
  }

  /** The events whose outcome is written, in order. */
  ghost function Committed(db: Db, run: seq<Action>): seq<Event>
    requires Valid(db, run)
    decreases |run|
  {
    if run == [] then []
    else
      var a, rest := run[0], Committed(Step(db, run[0]), run[1..]);
      if a.Update? && Persists(db.loads[a.id], a.e, a.wary) then [a.e] + rest else rest
  }

  lemma WritesItself(family: State, e: Event)
    requires Distinct(family.tokens) && Fresh(family.tokens, e)
    ensures Merged(family, Apply(family, e)) == Apply(family, e)
  {
    var was, mine := family.tokens, Apply(family, e).tokens;
    ApplyGrown(was, family, e);
    WriteIs(was, was, mine);
    forall i | 0 <= i < |was| ensures Upserts(was, mine)[i] == mine[i] {
      assert SameIssue(was[i], mine[i]);
    }
    assert Upserts(was, mine) == mine;
  }

  /** Such a run leads a family through one of its lives: there a token is accepted once, a
      revocation is final, and the tokens form a chain. */
  lemma {:induction false} SerialLife(db: Db, run: seq<Action>)
    requires Inv(db) && Valid(db, run) && Serial(db, run)
    ensures Exec(db, run).family == After(db.family, Committed(db, run))
    ensures Clocked(Committed(db, run)) && Minted(db.family, Committed(db, run))
    ensures Chain(db.family.tokens) ==> Chain(Exec(db, run).family.tokens)
    decreases |run|
  {
    if run != [] {
      var a := run[0];
      StepInv(db, a);
      SerialLife(Step(db, a), run[1..]);
      if a.Update? && Persists(db.loads[a.id], a.e, a.wary) {
        WritesItself(db.family, a.e);
        assert Committed(db, run)[1..] == Committed(Step(db, a), run[1..]);
      }
    }
    if Chain(db.family.tokens) {
      AlwaysAChain(db.family, Committed(db, run));
    }
  }

  // ----- Overlapping updates --------------------------------------------------------------------

  /** A family with no update under way. */
  function Quiet(family: State): Db {
    Db(family, map[], map[], [])
  }

  /** Both reads with nothing in between. */
  lemma Loads(start: Db, db: Db, id: nat) returns (after: Db)
    requires Reaches(start, db) && Inv(db) && id !in db.rows && id !in db.loads
    ensures Reaches(start, after) && Inv(after) && after == db.(loads := db.loads[id := db.family])
  {
    var row := Step(db, ReadRow(id));
    Then(start, db, ReadRow(id));
    StepInv(db, ReadRow(id));
    after := Step(row, ReadTokens(id));
    Then(start, row, ReadTokens(id));
    StepInv(row, ReadTokens(id));
    assert after.rows == db.rows;
  }

  lemma TwoLoads(family: State) returns (both: Db)
    requires Distinct(family.tokens)
    ensures Reaches(Quiet(family), both) && Inv(both) && both == Db(family, map[], map[0 := family, 1 := family], [])
  {
    Starts(Quiet(family));
    both := Loads(Quiet(family), Quiet(family), 0);
    both := Loads(Quiet(family), both, 1);
  }

  lemma NewestUnconsumed(s: State, e: Event)
    requires Accepts(s, e)
    ensures |Apply(s, e).tokens| == |s.tokens| + 1 && !Consumed(Apply(s, e).tokens[|s.tokens|])
  {
  }

  /** Two rotations of copies as long as the family leave both their successors unconsumed. */
  lemma BothSuccessors(db: Db, a: Action, b: Action)
    requires Inv(db) && a.Update? && b.Update? && a.id != b.id && Enabled(db, a) && Enabled(Step(db, a), b)
    requires db.loads[a.id] == db.family && db.loads[b.id] == db.family && Accepts(db.family, a.e) && Accepts(db.family, b.e)
    ensures var t, n := Step(Step(db, a), b).family.tokens, |db.family.tokens|;
            n + 1 < |t| && !Consumed(t[n]) && !Consumed(t[n + 1])
  {
    UpdateWrites(db, a);
    StepInv(db, a);
    UpdateWrites(Step(db, a), b);
    NewestUnconsumed(db.family, a.e);
    NewestUnconsumed(db.family, b.e);
  }

  /** For every family with a token that can be accepted: two updates that load it before either
      commits can both accept the token, and leave more than one token unconsumed. */
  lemma OverlapAcceptsTwice(family: State, hash: string)
    requires Acceptable(family, hash) && Distinct(family.tokens)
    ensures exists after :: Reaches(Quiet(family), after)
              && after.accepted == [hash, hash] && !IsRevoked(after.family)
              && exists i, j | 0 <= i < j < |after.family.tokens| :: !Consumed(after.family.tokens[i]) && !Consumed(after.family.tokens[j])
  {
    var both := TwoLoads(family);
    var a := AcceptsNow(both, 0, hash);
    Then(Quiet(family), both, a);
    var b := AcceptsNow(Step(both, a), 1, hash);
    Then(Quiet(family), Step(both, a), b);
    BothSuccessors(both, a, b);
    assert [] + [hash] + [hash] == [hash, hash];
  }

  /** For every such family, and every update that revokes it: a rotation that has loaded the
      family before takes the revocation back. */
  lemma RevocationUndone(family: State, hash: string, e: Event, wary: bool)
    requires Acceptable(family, hash) && Distinct(family.tokens)
    requires Fresh(family.tokens, e) && Persists(family, e, wary) && IsRevoked(Apply(family, e))
    ensures exists revoked, after :: Reaches(Quiet(family), revoked) && IsRevoked(revoked.family)
              && Reaches(revoked, after) && !IsRevoked(after.family)
  {
    var both := TwoLoads(family);
    var a := Update(0, e, wary);
    Then(Quiet(family), both, a);
    var revoked := Step(both, a);
    var b := AcceptsNow(revoked, 1, hash);
    Starts(revoked);
    Then(revoked, revoked, b);
  }

  lemma AcceptedAt(s: State, e: Event)
    requires Accepts(s, e)
    ensures var i := Find(s.tokens, e.op.presented); i < |s.tokens| && Apply(s, e).tokens[i].consumedAt == e.now
  {
  }

  /** Where the token is accepted by a copy with the tokens of the family, it is spent. */
  lemma Spends(start: Db, db: Db, user: nat, hash: string) returns (after: Db)
    requires Reaches(start, db) && Inv(db) && user in db.loads
    requires Acceptable(db.loads[user], hash) && db.loads[user].tokens == db.family.tokens
    ensures Reaches(start, after) && Inv(after) && after.loads == db.loads - {user}
    ensures Spent(after.family, hash) && !IsRevoked(after.family)
  {
    var a := AcceptsNow(db, user, hash);
    after := Step(db, a);
    Then(start, db, a);
    StepInv(db, a);
    SpentBy(db, a);
  }

  lemma SpentBy(db: Db, a: Action)
    requires Inv(db) && Enabled(db, a) && a.Update? && Persists(db.loads[a.id], a.e, a.wary)
    requires Accepts(db.loads[a.id], a.e) && db.loads[a.id].tokens == db.family.tokens
    ensures Spent(Step(db, a).family, a.e.op.presented)
  {
    var copy := db.loads[a.id];
    UpdateWrites(db, a);
    AcceptedAt(copy, a.e);
    WrittenFind(copy.tokens, copy.tokens, Apply(copy, a.e).tokens, Step(db, a).family.tokens, a.e.op.presented);
  }

  /** A logout by an update that holds the family as it is. */
  lemma LogsOut(start: Db, db: Db, id: nat) returns (after: Db)
    requires Reaches(start, db) && Inv(db) && id in db.loads && db.loads[id] == db.family
    ensures Reaches(start, after) && Inv(after) && after.rows == db.rows && after.loads == db.loads - {id}
    ensures IsRevoked(after.family) && after.family.tokens == db.family.tokens
  {
    var out := Update(id, Event(End("logout", false), 1), false);
    WritesItself(db.family, out.e);
    Then(start, db, out);
    StepInv(db, out);
    after := Step(db, out);
  }

  /** Two loads, a logout by one, a load, and a rotation by the other: the token is spent, and
      a revoked copy holds it unconsumed. */
  lemma SpentAndHeld(family: State, hash: string) returns (db: Db, held: State)
    requires Acceptable(family, hash) && Distinct(family.tokens)
    ensures Reaches(Quiet(family), db) && Inv(db) && Spent(db.family, hash) && !IsRevoked(db.family)
    ensures db.loads == map[2 := held] && IsRevoked(held) && Unconsumed(held.tokens, hash)
  {
    var both := TwoLoads(family);
    var out := LogsOut(Quiet(family), both, 0);
    assert out.loads == map[1 := family];
    held := out.family;
    var three := Loads(Quiet(family), out, 2);
    db := Spends(Quiet(family), three, 1, hash);
    assert db.loads == map[2 := held];
  }

  /** For every family with a token that can be accepted: a logout between the load and the
      write of a rotation leaves the token spent, no update under way able to accept it, and
      one that brings it back. */
  lemma RevivedByLogout(family: State, hash: string)
    requires Acceptable(family, hash) && Distinct(family.tokens)
    ensures exists db, after :: Reaches(Quiet(family), db) && Spent(db.family, hash)
              && (forall id | id in db.loads :: Powerless(db.loads[id]))
              && Reaches(db, after) && Times(after.accepted, hash) > Times(db.accepted, hash)
  {
    var db, held := SpentAndHeld(family, hash);
    var after := AcceptedAgain(db, 2, hash);
    assert Powerless(held);
  }
}
