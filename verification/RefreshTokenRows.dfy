/**
 * Refresh-token families in the database: a family is written by upserting all its tokens,
 * the newest first, and read back in the order of their generations.
 */
module RefreshTokenRows {
  import opened Options
  import opened RefreshTokens

  datatype Row = Row(family: nat, token: Token)

  /** The token table, by primary key. */
  type Rows = map<nat, Row>

  /** No other row has this token hash. */
  predicate HashFree(rows: Rows, hash: string) {
    forall id | id in rows :: rows[id].token.hash != hash
  }

  /** The row an upsert leaves: a new row as given, an old one with only its two mutable
      columns changed. */
  function Merged(rows: Rows, r: Row): Row {
    if r.token.id !in rows then r
    else var was := rows[r.token.id];
      was.(token := was.token.(consumedAt := r.token.consumedAt, replacedBy := r.token.replacedBy))
  }

  /** One upsert, refused when a new row repeats a hash or when the row would name a successor
      that is not in the table. */
  function Upserted(rows: Rows, r: Row): Option<Rows> {
    var after := rows[r.token.id := Merged(rows, r)];
    if r.token.id !in rows && !HashFree(rows, r.token.hash) then None
    else if r.token.replacedBy != NO_ID && r.token.replacedBy !in after then None
    else Some(after)
  }

  /** What the constraints of the table say: rows under their own ids, hashes unique, and every
      successor a row names in the table. */
  ghost predicate Sound(rows: Rows) {
    && (forall id | id in rows :: rows[id].token.id == id)
    && (forall x, y | x in rows && y in rows && x != y :: rows[x].token.hash != rows[y].token.hash)
    && (forall id | id in rows :: rows[id].token.replacedBy == NO_ID || rows[id].token.replacedBy in rows)
  }

  lemma UpsertSound(rows: Rows, r: Row)
    ensures Sound(rows) && Upserted(rows, r).Some? ==> Sound(Upserted(rows, r).value)
  {
  }

  /** The upserts of tokens[k-1], ..., tokens[0]. */
  function Descending(rows: Rows, family: nat, tokens: seq<Token>, k: nat): Option<Rows>
    requires k <= |tokens|
    decreases k
  {
    if k == 0 then Some(rows)
    else
      var after := Upserted(rows, Row(family, tokens[k - 1]));
      if after.None? then None else Descending(after.value, family, tokens, k - 1)
  }

  class TokenTable {
    var rows: Rows

    constructor ()
      ensures rows == map[]
    {
      rows := map[];
    }

    /** The statement is refused or leaves a table whose hashes are unique and whose references
        resolve, with the row in it and all other rows as they were. */
    method Upsert(r: Row) returns (ok: bool)
      modifies this
      ensures ok <==> Upserted(old(rows), r).Some?
      ensures rows == if ok then Upserted(old(rows), r).value else old(rows)
      ensures Sound(old(rows)) ==> Sound(rows)
      ensures ok ==> r.token.id in rows && rows.Keys == old(rows).Keys + {r.token.id}
      ensures ok ==> rows[r.token.id].token.consumedAt == r.token.consumedAt
      ensures forall id | id in old(rows) && id != r.token.id :: id in rows && rows[id] == old(rows)[id]
    {
      var known := r.token.id in rows;
      if !known && !HashFree(rows, r.token.hash) {
        return false;
      }
      if r.token.replacedBy != NO_ID && r.token.replacedBy != r.token.id && r.token.replacedBy !in rows {
        return false;
      }
      UpsertSound(rows, r);
      if known {
        var was := rows[r.token.id];
        rows := rows[r.token.id := was.(token := was.token.(consumedAt := r.token.consumedAt, replacedBy := r.token.replacedBy))];
      } else {
        rows := rows[r.token.id := r];
      }
      return true;
    }

    /** The loop over all tokens of a family, from the newest to the oldest. On failure the
        transaction is rolled back by the caller. */
    method UpsertFamily(family: nat, tokens: seq<Token>) returns (ok: bool)
      modifies this
      ensures ok <==> Descending(old(rows), family, tokens, |tokens|).Some?
      ensures ok ==> rows == Descending(old(rows), family, tokens, |tokens|).value
    {
      var i := |tokens|;
      while i > 0
        invariant 0 <= i <= |tokens|
        invariant Descending(old(rows), family, tokens, |tokens|) == Descending(rows, family, tokens, i)
      {
        i := i - 1;
        ok := Upsert(Row(family, tokens[i]));
        if !ok {
          return;
        }
      }
      return true;
    }
  }

  // ----- Writing ----------------------------------------------------------------------------------

  ghost predicate Has(tokens: seq<Token>, id: nat) {
    exists i | 0 <= i < |tokens| :: tokens[i].id == id
  }

  /** What the table may hold when a family is written: of its own tokens an earlier version,
      and no other row with one of its hashes. The tokens themselves may be linked in any way. */
  ghost predicate Writable(rows: Rows, family: nat, tokens: seq<Token>) {
    && (forall i, j | 0 <= i < j < |tokens| :: tokens[i].id != tokens[j].id && tokens[i].hash != tokens[j].hash)
    && (forall i | 0 <= i < |tokens| && tokens[i].id in rows ::
          rows[tokens[i].id].family == family && SameIssue(rows[tokens[i].id].token, tokens[i]))
    && (forall id | id in rows && !Has(tokens, id) ::
          forall i | 0 <= i < |tokens| :: rows[id].token.hash != tokens[i].hash)
  }

  /** The successor a token names, if any, is in the table or among the tokens from it on. */
  ghost predicate Resolves(rows: Rows, tokens: seq<Token>, i: nat)
    requires i < |tokens|
  {
    tokens[i].replacedBy == NO_ID || tokens[i].replacedBy in rows || Has(tokens[i..], tokens[i].replacedBy)
  }

  /** Every successor named is a later token. */
  ghost predicate Linked(tokens: seq<Token>) {
    forall i | 0 <= i < |tokens| ::
      tokens[i].replacedBy == NO_ID || exists j | i < j < |tokens| :: tokens[j].id == tokens[i].replacedBy
  }

  /** Tokens k and up are written; the rest is as it was. */
  ghost predicate Written(was: Rows, rows: Rows, family: nat, tokens: seq<Token>, k: nat) {
    && k <= |tokens|
    && (forall i | k <= i < |tokens| :: tokens[i].id in rows && rows[tokens[i].id] == Row(family, tokens[i]))
    && (forall id | id in rows :: id in was || Has(tokens[k..], id))
    && (forall id | id in was && !Has(tokens[k..], id) :: id in rows && rows[id] == was[id])
  }

  lemma HasTail(tokens: seq<Token>, k: nat, id: nat)
    requires 1 <= k <= |tokens|
    ensures Has(tokens[k - 1..], id) <==> id == tokens[k - 1].id || Has(tokens[k..], id)
  {
    var a, b := tokens[k - 1..], tokens[k..];
    assert a[1..] == b && a[0] == tokens[k - 1];
    if Has(b, id) {
      var i :| 0 <= i < |b| && b[i].id == id;
      assert a[i + 1].id == id;
    }
    if Has(a, id) && id != tokens[k - 1].id {
      var i :| 0 <= i < |a| && a[i].id == id;
      assert b[i - 1].id == id;
    }
  }

  lemma TailHas(tokens: seq<Token>, k: nat, id: nat)
    requires k <= |tokens| && Has(tokens[k..], id)
    ensures exists i | k <= i < |tokens| :: tokens[i].id == id
  {
    var i :| 0 <= i < |tokens[k..]| && tokens[k..][i].id == id;
    assert tokens[k + i].id == id;
  }

  /** The next upsert repeats no hash and leaves the token as it is in memory; it is refused
      exactly when the token's successor does not resolve. */
  lemma UpsertNext(was: Rows, rows: Rows, family: nat, tokens: seq<Token>, k: nat)
    requires Writable(was, family, tokens) && k >= 1 && Written(was, rows, family, tokens, k)
    ensures Upserted(rows, Row(family, tokens[k - 1])) ==
              if Resolves(was, tokens, k - 1) then Some(rows[tokens[k - 1].id := Row(family, tokens[k - 1])]) else None
  {
    var t := tokens[k - 1];
    if Has(tokens[k..], t.id) {
      TailHas(tokens, k, t.id);
    }
    assert t.id in rows <==> t.id in was;
    if t.id !in rows {
      forall id | id in rows ensures rows[id].token.hash != t.hash {
        RowHash(was, rows, family, tokens, k, id);
      }
    }
    HasTail(tokens, k, t.replacedBy);
    KeysWritten(was, rows, family, tokens, k, t.replacedBy);
  }

  lemma KeysWritten(was: Rows, rows: Rows, family: nat, tokens: seq<Token>, k: nat, id: nat)
    requires Written(was, rows, family, tokens, k)
    ensures id in rows <==> id in was || Has(tokens[k..], id)
  {
    if Has(tokens[k..], id) {
      TailHas(tokens, k, id);
    }
  }

  lemma RowHash(was: Rows, rows: Rows, family: nat, tokens: seq<Token>, k: nat, id: nat)
    requires Writable(was, family, tokens) && k >= 1 && Written(was, rows, family, tokens, k)
    requires tokens[k - 1].id !in rows && id in rows
    ensures rows[id].token.hash != tokens[k - 1].hash
  {
    if Has(tokens[k..], id) {
      TailHas(tokens, k, id);
      var i :| k <= i < |tokens| && tokens[i].id == id;
      assert rows[tokens[i].id] == Row(family, tokens[i]);
    } else if Has(tokens, id) {
      var i :| 0 <= i < |tokens| && tokens[i].id == id;
      assert SameIssue(was[id].token, tokens[i]);
      assert i != k - 1;
    }
  }

  lemma WrittenNext(was: Rows, rows: Rows, family: nat, tokens: seq<Token>, k: nat)
    requires Writable(was, family, tokens) && k >= 1 && Written(was, rows, family, tokens, k)
    ensures Written(was, rows[tokens[k - 1].id := Row(family, tokens[k - 1])], family, tokens, k - 1)
  {
    var t := tokens[k - 1];
    var after := rows[t.id := Row(family, t)];
    forall i | k - 1 <= i < |tokens| ensures tokens[i].id in after && after[tokens[i].id] == Row(family, tokens[i]) {
      assert i == k - 1 || tokens[i].id != t.id;
    }
    forall id | id in after ensures id in was || Has(tokens[k - 1..], id) {
      HasTail(tokens, k, id);
    }
    forall id | id in was && !Has(tokens[k - 1..], id) ensures id in after && after[id] == was[id] {
      HasTail(tokens, k, id);
    }
  }

  ghost predicate AllResolve(rows: Rows, tokens: seq<Token>, k: nat)
    requires k <= |tokens|
  {
    forall i | 0 <= i < k :: Resolves(rows, tokens, i)
  }

  /** The table with tokens k and up written over it. */
  ghost function Overlay(was: Rows, family: nat, tokens: seq<Token>, k: nat): Rows
    requires k <= |tokens|
    decreases |tokens| - k
  {
    if k == |tokens| then was else Overlay(was, family, tokens, k + 1)[tokens[k].id := Row(family, tokens[k])]
  }

  lemma {:induction false} OverlayWritten(was: Rows, family: nat, tokens: seq<Token>, k: nat)
    requires Writable(was, family, tokens) && k <= |tokens|
    ensures Written(was, Overlay(was, family, tokens, k), family, tokens, k)
    decreases |tokens| - k
  {
    if k == |tokens| {
      assert tokens[k..] == [];
    } else {
      OverlayWritten(was, family, tokens, k + 1);
      WrittenNext(was, Overlay(was, family, tokens, k + 1), family, tokens, k + 1);
    }
  }

  lemma UpsertOverlay(was: Rows, family: nat, tokens: seq<Token>, k: nat)
    requires Writable(was, family, tokens) && 1 <= k <= |tokens|
    ensures Upserted(Overlay(was, family, tokens, k), Row(family, tokens[k - 1])) ==
              if Resolves(was, tokens, k - 1) then Some(Overlay(was, family, tokens, k - 1)) else None
  {
    OverlayWritten(was, family, tokens, k);
    UpsertNext(was, Overlay(was, family, tokens, k), family, tokens, k);
  }

  lemma {:induction false} DescendingWrites(was: Rows, family: nat, tokens: seq<Token>, k: nat)
    requires Writable(was, family, tokens) && k <= |tokens|
    ensures Descending(Overlay(was, family, tokens, k), family, tokens, k) ==
              if AllResolve(was, tokens, k) then Some(Overlay(was, family, tokens, 0)) else None
    decreases k
  {
    if k > 0 {
      UpsertOverlay(was, family, tokens, k);
      DescendingWrites(was, family, tokens, k - 1);
    }
  }

  /** The rows of the family are its tokens. */
  ghost predicate Stored(rows: Rows, family: nat, tokens: seq<Token>) {
    && (forall i | 0 <= i < |tokens| :: tokens[i].id in rows && rows[tokens[i].id] == Row(family, tokens[i]))
    && (forall id | id in rows && rows[id].family == family :: Has(tokens, id))
  }

  /** Writing a family succeeds, statement by statement, exactly when the successor of every
      token is in the table or among the tokens from it on. It then leaves exactly the tokens
      as the family's rows and touches no other row. */
  lemma WriteExact(rows: Rows, family: nat, tokens: seq<Token>)
    requires Writable(rows, family, tokens)
    requires forall id | id in rows && rows[id].family == family :: Has(tokens, id)
    ensures var r := Descending(rows, family, tokens, |tokens|);
            && (r.Some? <==> AllResolve(rows, tokens, |tokens|))
            && (r.Some? ==>
                  && Stored(r.value, family, tokens)
                  && (forall id | id in rows && rows[id].family != family :: id in r.value && r.value[id] == rows[id])
                  && (forall id | id in r.value :: id in rows || Has(tokens, id)))
  {
    DescendingWrites(rows, family, tokens, |tokens|);
    OverlayWritten(rows, family, tokens, 0);
    assert tokens[0..] == tokens;
    var r := Descending(rows, family, tokens, |tokens|);
    if r.Some? {
      forall id | id in rows && rows[id].family != family ensures id in r.value && r.value[id] == rows[id] {
        assert !Has(tokens, id);
      }
    }
  }

  /** In particular when every successor named is a later token. */
  lemma WriteFamily(rows: Rows, family: nat, tokens: seq<Token>)
    requires Writable(rows, family, tokens) && Linked(tokens)
    requires forall id | id in rows && rows[id].family == family :: Has(tokens, id)
    ensures var r := Descending(rows, family, tokens, |tokens|);
            && r.Some? && Stored(r.value, family, tokens)
            && (forall id | id in rows && rows[id].family != family :: id in r.value && r.value[id] == rows[id])
            && (forall id | id in r.value :: id in rows || Has(tokens, id))
  {
    forall i | 0 <= i < |tokens| ensures Resolves(rows, tokens, i) {
      if tokens[i].replacedBy != NO_ID {
        var j :| i < j < |tokens| && tokens[j].id == tokens[i].replacedBy;
        assert tokens[i..][j - i].id == tokens[i].replacedBy;
      }
    }
    WriteExact(rows, family, tokens);
  }

  lemma ChainIsLinked(tokens: seq<Token>)
    requires Chain(tokens)
    ensures Linked(tokens)
  {
    forall i | 0 <= i < |tokens| && tokens[i].replacedBy != NO_ID
      ensures exists j | i < j < |tokens| :: tokens[j].id == tokens[i].replacedBy
    {
      assert i < |tokens| - 1 && tokens[i + 1].id == tokens[i].replacedBy;
    }
  }

  // ----- Reading ----------------------------------------------------------------------------------

  /** What a query of the family ordered by generation may return. */
  ghost predicate IsListing(rows: Rows, family: nat, s: seq<Token>) {
    && (forall t :: t in s <==> exists id :: id in rows && rows[id] == Row(family, t))
    && (forall i, j | 0 <= i < j < |s| :: s[i] != s[j] && s[i].generation <= s[j].generation)
  }

  lemma ListingMembers(rows: Rows, family: nat, tokens: seq<Token>, s: seq<Token>)
    requires Stored(rows, family, tokens) && IsListing(rows, family, s)
    ensures forall t :: t in s <==> t in tokens
  {
    forall t ensures t in s <==> t in tokens {
      if t in tokens {
        var i :| 0 <= i < |tokens| && tokens[i] == t;
        assert rows[tokens[i].id] == Row(family, t);
      }
      if t in s {
        var id :| id in rows && rows[id] == Row(family, t);
        var i :| 0 <= i < |tokens| && tokens[i].id == id;
        assert rows[tokens[i].id] == Row(family, tokens[i]);
      }
    }
  }

  /** Generations go up. */
  ghost predicate Increasing(tokens: seq<Token>) {
    forall i, j | 0 <= i < j < |tokens| :: tokens[i].generation < tokens[j].generation
  }

  ghost predicate InOrder(s: seq<Token>) {
    forall i, j | 0 <= i < j < |s| :: s[i] != s[j] && s[i].generation <= s[j].generation
  }

  lemma TailMembers(s: seq<Token>, t: Token)
    requires s != [] && InOrder(s)
    ensures t in s[1..] <==> t in s && t != s[0]
  {
    if t in s && t != s[0] {
      var i :| 0 <= i < |s| && s[i] == t;
      assert s[1..][i - 1] == t;
    }
    if t in s[1..] {
      var i :| 0 <= i < |s[1..]| && s[1..][i] == t;
      assert s[i + 1] == t;
    }
  }

  /** Sorting by generation determines a sequence whose generations are different. */
  lemma {:induction false} SortedIs(tokens: seq<Token>, s: seq<Token>)
    requires Increasing(tokens) && InOrder(s) && forall t :: t in s <==> t in tokens
    ensures s == tokens
    decreases |tokens|
  {
    assert |s| > 0 ==> s[0] in s;
    if tokens == [] {
      assert s == [];
    } else {
      assert tokens[0] in s && s[0] in tokens;
      assert s[0] == tokens[0];
      forall t ensures t in s[1..] <==> t in tokens[1..] {
        TailMembers(s, t);
        TailMembers(tokens, t);
      }
      SortedIs(tokens[1..], s[1..]);
    }
  }

  /** Reading a stored family back by generation returns its tokens in order, if their
      generations go up. */
  lemma ReadBack(rows: Rows, family: nat, tokens: seq<Token>, s: seq<Token>)
    requires Increasing(tokens) && Stored(rows, family, tokens) && IsListing(rows, family, s)
    ensures s == tokens
  {
    ListingMembers(rows, family, tokens, s);
    SortedIs(tokens, s);
  }

  // ----- A rotation through the database ------------------------------------------------------

  /** A token id and a hash that occur nowhere in the table. */
  ghost predicate Unused(rows: Rows, id: nat, hash: string) {
    id != NO_ID && id !in rows && HashFree(rows, hash)
  }

  ghost predicate HashesDiffer(tokens: seq<Token>) {
    forall i, j | 0 <= i < j < |tokens| :: tokens[i].hash != tokens[j].hash
  }

  /** A family that was read from the table, rotated, and written: the new version can be
      written. */
  lemma RotatedWritable(rows: Rows, family: nat, s: State, e: Event)
    requires Chain(s.tokens) && HashesDiffer(s.tokens) && Stored(rows, family, s.tokens)
    requires forall id | id in rows :: Has(s.tokens, id) || forall i | 0 <= i < |s.tokens| :: rows[id].token.hash != s.tokens[i].hash
    requires Accepts(s, e) && e.now != UNSET && Unused(rows, e.op.nextId, e.op.newHash)
    ensures var tokens := Apply(s, e).tokens;
            && Writable(rows, family, tokens)
            && forall id | id in rows && rows[id].family == family :: Has(tokens, id)
  {
    RotationExact(s, e.op.presented, e.op.newHash, e.op.ttl, e.now, e.op.nextId);
    RotatedTokens(s, e);
    LongerWritable(rows, family, s.tokens, Apply(s, e).tokens);
  }

  /** A rotation reissues no token and adds one. */
  lemma RotatedTokens(s: State, e: Event)
    requires Accepts(s, e)
    ensures var tokens := Apply(s, e).tokens;
            && |tokens| == |s.tokens| + 1
            && (forall i | 0 <= i < |s.tokens| :: SameIssue(s.tokens[i], tokens[i]))
            && tokens[|s.tokens|].id == e.op.nextId && tokens[|s.tokens|].hash == e.op.newHash
  {
  }

  lemma LongerWritable(rows: Rows, family: nat, was: seq<Token>, tokens: seq<Token>)
    requires HashesDiffer(was) && Stored(rows, family, was) && |tokens| == |was| + 1
    requires forall i, j | 0 <= i < j < |was| :: was[i].id != was[j].id
    requires forall id | id in rows :: Has(was, id) || forall i | 0 <= i < |was| :: rows[id].token.hash != was[i].hash
    requires forall i | 0 <= i < |was| :: SameIssue(was[i], tokens[i])
    requires Unused(rows, tokens[|was|].id, tokens[|was|].hash)
    ensures Writable(rows, family, tokens)
    ensures forall id | id in rows && rows[id].family == family :: Has(tokens, id)
  {
    forall id ensures Has(was, id) ==> Has(tokens, id) {
      LongerHas(was, tokens, id);
    }
    forall i, j | 0 <= i < j < |tokens| ensures tokens[i].id != tokens[j].id && tokens[i].hash != tokens[j].hash {
      assert was[i].id in rows && rows[was[i].id] == Row(family, was[i]);
    }
    forall i | 0 <= i < |tokens| && tokens[i].id in rows
      ensures rows[tokens[i].id].family == family && SameIssue(rows[tokens[i].id].token, tokens[i])
    {
      assert i < |was| && rows[was[i].id] == Row(family, was[i]);
    }
    forall id | id in rows && !Has(tokens, id) ensures forall i | 0 <= i < |tokens| :: rows[id].token.hash != tokens[i].hash {
      assert !Has(was, id);
    }
  }

  lemma LongerHas(was: seq<Token>, tokens: seq<Token>, id: nat)
    requires |tokens| == |was| + 1 && forall i | 0 <= i < |was| :: SameIssue(was[i], tokens[i])
    ensures Has(was, id) ==> Has(tokens, id)
  {
    if Has(was, id) {
      var i :| 0 <= i < |was| && was[i].id == id;
      assert tokens[i].id == id;
    }
  }

  /** A rotation survives the database: from the rows of a family, every accepted use with a
      new token id and hash is written without an error, and reading the family again returns
      the rotated chain. */
  lemma RotationPersists(rows: Rows, family: nat, s: State, e: Event, read: seq<Token>)
    requires Chain(s.tokens) && HashesDiffer(s.tokens) && Stored(rows, family, s.tokens)
    requires forall id | id in rows :: Has(s.tokens, id) || forall i | 0 <= i < |s.tokens| :: rows[id].token.hash != s.tokens[i].hash
    requires Accepts(s, e) && e.now != UNSET && Unused(rows, e.op.nextId, e.op.newHash)
    ensures var tokens := Apply(s, e).tokens;
            var r := Descending(rows, family, tokens, |tokens|);
            r.Some? && (IsListing(r.value, family, read) ==> read == tokens)
  {
    var tokens := Apply(s, e).tokens;
    RotationExact(s, e.op.presented, e.op.newHash, e.op.ttl, e.now, e.op.nextId);
    RotatedWritable(rows, family, s, e);
    ChainIsLinked(tokens);
    WriteFamily(rows, family, tokens);
    var after := Descending(rows, family, tokens, |tokens|).value;
    if IsListing(after, family, read) {
      ReadBack(after, family, tokens, read);
    }
  }

  /** The order of the writes matters: the token just consumed cannot be written before its
      successor. */
  lemma OldestFirstRefused(rows: Rows, family: nat, s: State, e: Event)
    requires Chain(s.tokens) && Accepts(s, e) && e.now != UNSET && FreshId(s.tokens, e.op.nextId)
    requires e.op.nextId !in rows
    ensures var tokens := Apply(s, e).tokens;
            Upserted(rows, Row(family, tokens[|s.tokens| - 1])).None?
  {
    RotationExact(s, e.op.presented, e.op.newHash, e.op.ttl, e.now, e.op.nextId);
  }
}
