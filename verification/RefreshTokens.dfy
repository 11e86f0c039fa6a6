/**
 * Refresh-token families: a chain of tokens in which each successful use consumes the last
 * token and issues the next. Presenting a consumed token revokes the whole family.
 */
module RefreshTokens {
  import opened Options

  /** Instants count from the zero time, which stands for "not set". */
  type Time = nat
  const UNSET: Time := 0
  /** The empty id, standing for "none". */
  const NO_ID: nat := 0

  datatype Token = Token(
    id: nat, hash: string, generation: nat, issuedAt: Time, expiresAt: Time,
    consumedAt: Time, replacedBy: nat)

  predicate Consumed(t: Token) {
    t.consumedAt != UNSET
  }

  /** The columns of a token that never change. */
  predicate SameIssue(a: Token, b: Token) {
    a.id == b.id && a.hash == b.hash && a.generation == b.generation && a.issuedAt == b.issuedAt && a.expiresAt == b.expiresAt
  }

  predicate Expired(t: Token, now: Time) {
    t.expiresAt != UNSET && now > t.expiresAt
  }

  datatype Outcome = Rotated | Revoked | Invalid | Unknown | Reused | TooLate

  datatype State = State(tokens: seq<Token>, lastUsedAt: Time, revokedAt: Time, reason: string)

  predicate IsRevoked(s: State) {
    s.revokedAt != UNSET
  }

  /** The first token with this hash; the number of tokens if there is none. */
  function Find(tokens: seq<Token>, hash: string): (i: nat)
    ensures i <= |tokens|
    ensures i < |tokens| ==> tokens[i].hash == hash
    ensures forall j | 0 <= j < i :: tokens[j].hash != hash
  {
    if tokens == [] || tokens[0].hash == hash then 0 else 1 + Find(tokens[1..], hash)
  }

  function Extended(tokens: seq<Token>, i: nat, newHash: string, ttl: nat, now: Time, nextId: nat): seq<Token>
    requires i < |tokens|
  {
    tokens[i := tokens[i].(consumedAt := now, replacedBy := nextId)]
    + [Token(nextId, newHash, tokens[i].generation + 1, now, now + ttl, UNSET, NO_ID)]
  }

  function Rotate(s: State, presented: string, newHash: string, ttl: int, now: Time, nextId: nat): (State, Outcome) {
    var i := Find(s.tokens, presented);
    if IsRevoked(s) then (s, Revoked)
    else if newHash == "" || ttl <= 0 then (s, Invalid)
    else if i == |s.tokens| then (s, Unknown)
    else if Consumed(s.tokens[i]) then (s.(revokedAt := now, reason := "reuse_detected"), Reused)
    else if Expired(s.tokens[i], now) then (s, TooLate)
    else (s.(tokens := Extended(s.tokens, i, newHash, ttl, now, nextId), lastUsedAt := now), Rotated)
  }

  /** An empty reason, once trimmed, is refused. */
  function Revoke(s: State, reason: string, blank: bool, now: Time): State {
    if blank || IsRevoked(s) then s else s.(revokedAt := now, reason := reason)
  }

  /** The last token that is not consumed. */
  function Current(tokens: seq<Token>): Option<Token> {
    if tokens == [] then None
    else if !Consumed(tokens[|tokens| - 1]) then Some(tokens[|tokens| - 1])
    else Current(tokens[..|tokens| - 1])
  }

  /** The last token that is neither consumed nor expired. */
  function Usable(tokens: seq<Token>, now: Time): Option<Token> {
    if tokens == [] then None
    else if !Consumed(tokens[|tokens| - 1]) && !Expired(tokens[|tokens| - 1], now) then Some(tokens[|tokens| - 1])
    else Usable(tokens[..|tokens| - 1], now)
  }

  /** The current token as documented: not consumed, not expired, none in a revoked family. */
  function Documented(s: State, now: Time): Option<Token> {
    if IsRevoked(s) then None else Usable(s.tokens, now)
  }

  class Family {
    var tokens: seq<Token>
    var lastUsedAt: Time
    var revokedAt: Time
    var reason: string

    function View(): State
      reads this
    {
      State(tokens, lastUsedAt, revokedAt, reason)
    }

    constructor (firstId: nat, firstHash: string, ttl: nat, now: Time)
      requires firstHash != "" && ttl > 0
      ensures View() == State([Token(firstId, firstHash, 0, now, now + ttl, UNSET, NO_ID)], now, UNSET, "")
    {
      tokens := [Token(firstId, firstHash, 0, now, now + ttl, UNSET, NO_ID)];
      lastUsedAt := now;
      revokedAt := UNSET;
      reason := "";
    }

    method FindToken(hash: string) returns (i: int)
      ensures if i < 0 then Find(tokens, hash) == |tokens| else i == Find(tokens, hash) < |tokens|
    {
      i := 0;
      while i < |tokens|
        invariant 0 <= i <= |tokens|
        invariant forall j | 0 <= j < i :: tokens[j].hash != hash
      {
        if tokens[i].hash == hash {
          return;
        }
        i := i + 1;
      }
      i := -1;
    }

    /** `nextId` is the id minted for the next token. */
    method RotateToken(presented: string, newHash: string, ttl: int, now: Time, nextId: nat) returns (o: Outcome)
      modifies this
      ensures (View(), o) == Rotate(old(View()), presented, newHash, ttl, now, nextId)
    {
      if revokedAt != UNSET {
        return Revoked;
      }
      if newHash == "" || ttl <= 0 {
        return Invalid;
      }
      var i := FindToken(presented);
      if i < 0 {
        return Unknown;
      }
      if tokens[i].consumedAt != UNSET {
        revokedAt := now;
        reason := "reuse_detected";
        return Reused;
      }
      if tokens[i].expiresAt != UNSET && now > tokens[i].expiresAt {
        return TooLate;
      }
      var next := Token(nextId, newHash, tokens[i].generation + 1, now, now + ttl, UNSET, NO_ID);
      tokens := tokens[i := tokens[i].(consumedAt := now, replacedBy := nextId)];
      tokens := tokens + [next];
      lastUsedAt := now;
      return Rotated;
    }

    method RevokeFamily(why: string, blank: bool, now: Time) returns (ok: bool)
      modifies this
      ensures View() == Revoke(old(View()), why, blank, now) && (ok <==> !blank)
    {
      if blank {
        return false;
      }
      if revokedAt != UNSET {
        return true;
      }
      revokedAt := now;
      reason := why;
      return true;
    }

    /** The last token not consumed, searched from the end. */
    method CurrentToken() returns (t: Option<Token>)
      ensures t == Current(tokens)
      ensures t.Some? <==> exists j | 0 <= j < |tokens| :: !Consumed(tokens[j])
      ensures Chain(tokens) ==> t == Some(tokens[|tokens| - 1])
    {
      var i := |tokens| - 1;
      assert tokens[..i + 1] == tokens;
      while i >= 0
        invariant -1 <= i < |tokens|
        invariant forall j | i < j < |tokens| :: Consumed(tokens[j])
        invariant Current(tokens) == Current(tokens[..i + 1])
      {
        assert tokens[..i + 1][..i] == tokens[..i];
        if tokens[i].consumedAt == UNSET {
          return Some(tokens[i]);
        }
        i := i - 1;
      }
      return None;
    }
  }

  /** A new family; `identified` says whether family, person, tenant and device are given. */
  method NewFamily(identified: bool, firstId: nat, firstHash: string, ttl: int, now: Time) returns (f: Family?)
    ensures f == null <==> !identified || firstHash == "" || ttl <= 0
    ensures f != null ==> fresh(f)
    ensures f != null && firstId != NO_ID ==> Chain(f.tokens) && f.tokens[0].hash == firstHash && !IsRevoked(f.View())
  {
    if !identified || firstHash == "" || ttl <= 0 {
      return null;
    }
    f := new Family(firstId, firstHash, ttl, now);
  }

  // ----- The chain --------------------------------------------------------------------------------

  /** Generations count up from zero; every token but the last is consumed and names its
      successor; the last is the one that can still be used. */
  ghost predicate Chain(tokens: seq<Token>) {
    && tokens != []
    && (forall i | 0 <= i < |tokens| :: tokens[i].generation == i && tokens[i].id != NO_ID)
    && (forall i, j | 0 <= i < j < |tokens| :: tokens[i].id != tokens[j].id)
    && (forall i | 0 <= i < |tokens| - 1 :: Consumed(tokens[i]) && tokens[i].replacedBy == tokens[i + 1].id)
    && !Consumed(tokens[|tokens| - 1]) && tokens[|tokens| - 1].replacedBy == NO_ID
  }

  ghost predicate FreshId(tokens: seq<Token>, id: nat) {
    id != NO_ID && forall i | 0 <= i < |tokens| :: tokens[i].id != id
  }

  lemma GrownIds(tokens: seq<Token>, t: seq<Token>, id: nat)
    requires |t| == |tokens| + 1 && t[|tokens|].id == id && FreshId(tokens, id)
    requires forall i | 0 <= i < |tokens| :: t[i].id == tokens[i].id
    requires forall i, j | 0 <= i < j < |tokens| :: tokens[i].id != tokens[j].id
    ensures forall i, j | 0 <= i < j < |t| :: t[i].id != t[j].id
  {
    forall i, j | 0 <= i < j < |t| ensures t[i].id != t[j].id {
      assert t[i].id == tokens[i].id;
    }
  }

  lemma GrownLink(tokens: seq<Token>, t: seq<Token>, i: nat)
    requires Chain(tokens) && |t| == |tokens| + 1 && i < |tokens|
    requires i < |tokens| - 1 ==> t[i] == tokens[i] && t[i + 1].id == tokens[i + 1].id
    requires i == |tokens| - 1 ==> Consumed(t[i]) && t[i].replacedBy == t[i + 1].id
    ensures Consumed(t[i]) && t[i].replacedBy == t[i + 1].id
  {
  }

  lemma GrownChain(tokens: seq<Token>, t: seq<Token>, last: Token, next: Token)
    requires Chain(tokens) && FreshId(tokens, next.id)
    requires t == tokens[..|tokens| - 1] + [last, next]
    requires last.generation == |tokens| - 1 && last.id == tokens[|tokens| - 1].id && last.replacedBy == next.id
    requires next.generation == |tokens| && !Consumed(next) && next.replacedBy == NO_ID
    ensures Chain(t) <==> Consumed(last)
  {
    var n := |tokens|;
    assert t[n - 1] == last && t[n] == next;
    assert forall i | 0 <= i < n - 1 :: t[i] == tokens[i];
    if Consumed(last) {
      GrownIds(tokens, t, next.id);
      forall i | 0 <= i < |t| - 1 ensures Consumed(t[i]) && t[i].replacedBy == t[i + 1].id {
        GrownLink(tokens, t, i);
      }
    }
  }

  /** A successful rotation consumes the last token of a chain. The result is a chain exactly
      when the clock does not show the zero time, which reads as "not consumed". */
  lemma RotationExact(s: State, presented: string, newHash: string, ttl: int, now: Time, nextId: nat)
    requires Chain(s.tokens) && FreshId(s.tokens, nextId)
    requires Rotate(s, presented, newHash, ttl, now, nextId).1 == Rotated
    ensures var s' := Rotate(s, presented, newHash, ttl, now, nextId).0;
            && Find(s.tokens, presented) == |s.tokens| - 1
            && |s'.tokens| == |s.tokens| + 1
            && (Chain(s'.tokens) <==> now != UNSET)
  {
    var n := |s.tokens|;
    assert Find(s.tokens, presented) == n - 1;
    var last := s.tokens[n - 1].(consumedAt := now, replacedBy := nextId);
    var next := Token(nextId, newHash, n, now, now + ttl, UNSET, NO_ID);
    var t := Rotate(s, presented, newHash, ttl, now, nextId).0.tokens;
    assert t == s.tokens[..n - 1] + [last, next];
    GrownChain(s.tokens, t, last, next);
  }

  // ----- The current token ----------------------------------------------------------------------

  lemma {:induction false} UsableIsUnexpired(tokens: seq<Token>, now: Time)
    ensures Usable(tokens, now).Some? ==> !Expired(Usable(tokens, now).value, now)
    ensures Current(tokens).None? ==> Usable(tokens, now).None?
    ensures Current(tokens).Some? && !Expired(Current(tokens).value, now) ==> Usable(tokens, now) == Current(tokens)
    decreases |tokens|
  {
    if tokens != [] {
      UsableIsUnexpired(tokens[..|tokens| - 1], now);
    }
  }

  /** The current token is the documented one exactly when there is none, or the family is not
      revoked and that token has not expired. */
  lemma CurrentExact(s: State, now: Time)
    ensures var t := Current(s.tokens);
            t == Documented(s, now) <==> t == None || (!IsRevoked(s) && !Expired(t.value, now))
  {
    UsableIsUnexpired(s.tokens, now);
  }

  /** In a chain: exactly when the family is not revoked and the last token has not expired. */
  lemma ChainCurrentExact(s: State, now: Time)
    requires Chain(s.tokens)
    ensures Current(s.tokens) == Some(s.tokens[|s.tokens| - 1])
    ensures Current(s.tokens) == Documented(s, now) <==> !IsRevoked(s) && !Expired(s.tokens[|s.tokens| - 1], now)
  {
    CurrentExact(s, now);
  }

  /** A family that has just been made and revoked still has a current token. */
  lemma RevokedStillCurrent(id: nat, hash: string, ttl: nat, now: Time, later: Time, why: string)
    requires later != UNSET
    ensures var first := Token(id, hash, 0, now, now + ttl, UNSET, NO_ID);
            var s := Revoke(State([first], now, UNSET, ""), why, false, later);
            IsRevoked(s) && Current(s.tokens) == Some(first) && Documented(s, later) == None
  {
  }

  /** A token past its expiry is still the current one. */
  lemma ExpiredStillCurrent(id: nat, hash: string, ttl: nat, now: Time, later: Time)
    requires 0 < now + ttl < later
    ensures var first := Token(id, hash, 0, now, now + ttl, UNSET, NO_ID);
            var s := State([first], now, UNSET, "");
            Current(s.tokens) == Some(first) && Documented(s, later) == None
  {
    var tokens := [Token(id, hash, 0, now, now + ttl, UNSET, NO_ID)];
    assert Usable(tokens, later) == Usable(tokens[..0], later);
  }

  // ----- Whole lives ------------------------------------------------------------------------------

  datatype Op =
    | Use(presented: string, newHash: string, ttl: int, nextId: nat)
    | End(why: string, blank: bool)

  /** An operation at an instant after the zero time. */
  datatype Event = Event(op: Op, now: Time)

  function Apply(s: State, e: Event): State {
    match e.op
    case Use(p, h, ttl, id) => Rotate(s, p, h, ttl, e.now, id).0
    case End(why, blank) => Revoke(s, why, blank, e.now)
  }

  predicate Accepts(s: State, e: Event) {
    e.op.Use? && Rotate(s, e.op.presented, e.op.newHash, e.op.ttl, e.now, e.op.nextId).1 == Rotated
  }

  function After(s: State, events: seq<Event>): State
    decreases |events|
  {
    if events == [] then s else After(Apply(s, events[0]), events[1..])
  }

  ghost predicate Clocked(events: seq<Event>) {
    forall e | e in events :: e.now != UNSET
  }

  /** The token ids minted along the way are new. */
  ghost predicate Minted(s: State, events: seq<Event>)
    decreases |events|
  {
    events == [] ||
    ((events[0].op.Use? ==> FreshId(s.tokens, events[0].op.nextId)) && Minted(Apply(s, events[0]), events[1..]))
  }

  /** In every life of a family its tokens form a chain. */
  lemma {:induction false} AlwaysAChain(s: State, events: seq<Event>)
    requires Chain(s.tokens) && Clocked(events) && Minted(s, events)
    ensures Chain(After(s, events).tokens)
    decreases |events|
  {
    if events != [] {
      var e := events[0];
      assert e in events;
      if Accepts(s, e) {
        RotationExact(s, e.op.presented, e.op.newHash, e.op.ttl, e.now, e.op.nextId);
      }
      assert forall x | x in events[1..] :: x in events;
      AlwaysAChain(Apply(s, e), events[1..]);
    }
  }

  /** The hash names a consumed token. */
  ghost predicate Spent(s: State, hash: string) {
    var i := Find(s.tokens, hash);
    i < |s.tokens| && Consumed(s.tokens[i])
  }

  lemma FindKept(tokens: seq<Token>, longer: seq<Token>, hash: string)
    requires |tokens| <= |longer| && Find(tokens, hash) < |tokens|
    requires forall i | 0 <= i < |tokens| :: longer[i].hash == tokens[i].hash
    ensures Find(longer, hash) == Find(tokens, hash)
  {
    var i, j := Find(tokens, hash), Find(longer, hash);
    assert longer[i].hash == hash;
    assert !(j < i);
  }

  /** Tokens keep their hashes, and consumed ones stay consumed. */
  ghost predicate Extends(tokens: seq<Token>, longer: seq<Token>) {
    && |tokens| <= |longer|
    && forall i | 0 <= i < |tokens| ::
         longer[i].hash == tokens[i].hash && (Consumed(tokens[i]) ==> Consumed(longer[i]))
  }

  lemma ApplyExtends(s: State, e: Event)
    requires e.now != UNSET
    ensures Extends(s.tokens, Apply(s, e).tokens)
  {
  }

  lemma SpentStays(s: State, e: Event, hash: string)
    requires Spent(s, hash) && e.now != UNSET
    ensures Spent(Apply(s, e), hash)
  {
    ApplyExtends(s, e);
    FindKept(s.tokens, Apply(s, e).tokens, hash);
  }

  lemma {:induction false} SpentForever(s: State, events: seq<Event>, hash: string)
    requires Spent(s, hash) && Clocked(events)
    ensures Spent(After(s, events), hash)
    decreases |events|
  {
    if events != [] {
      assert events[0] in events;
      SpentStays(s, events[0], hash);
      assert forall x | x in events[1..] :: x in events;
      SpentForever(Apply(s, events[0]), events[1..], hash);
    }
  }

  lemma UseSpends(s: State, e: Event)
    requires Accepts(s, e) && e.now != UNSET
    ensures Spent(Apply(s, e), e.op.presented)
  {
    FindKept(s.tokens, Apply(s, e).tokens, e.op.presented);
  }

  /** A token is accepted at most once: after it was, whatever happens in between, presenting
      it again is refused, and a well-formed attempt leaves the family revoked. */
  lemma AcceptedOnce(s: State, first: Event, between: seq<Event>, again: Event)
    requires Accepts(s, first) && first.now != UNSET && Clocked(between) && again.now != UNSET
    requires again.op.Use? && again.op.presented == first.op.presented
    ensures var s' := After(Apply(s, first), between);
            && !Accepts(s', again)
            && (again.op.newHash != "" && again.op.ttl > 0 ==> IsRevoked(Apply(s', again)))
  {
    UseSpends(s, first);
    SpentForever(Apply(s, first), between, first.op.presented);
  }

  /** Revocation is final: nothing is accepted any more, and tokens, instant and reason stay. */
  lemma {:induction false} RevokedForever(s: State, events: seq<Event>)
    requires IsRevoked(s)
    ensures After(s, events) == s
    ensures forall e :: !Accepts(After(s, events), e)
    decreases |events|
  {
    if events != [] {
      RevokedForever(Apply(s, events[0]), events[1..]);
    }
  }
}
