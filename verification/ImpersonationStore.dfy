/**
 * The in-memory store of impersonation sessions, which deletes expired sessions when it comes
 * across them, compared with a store that never does.
 */
module ImpersonationStore {
  import opened Options

  type Time = int

  datatype Session = Session(id: string, operator: string, expiresAt: Time)

  type Sessions = map<string, Session>

  predicate Expired(s: Session, now: Time) {
    !(now < s.expiresAt)
  }

  function Live(m: Sessions, now: Time): Sessions {
    map id | id in m && !Expired(m[id], now) :: m[id]
  }

  /** A session is found while it is live. */
  function Found(m: Sessions, id: string, now: Time): Option<Session> {
    if id in Live(m, now) then Some(m[id]) else None
  }

  function OfOperator(m: Sessions, operator: string): set<Session> {
    set id | id in m && m[id].operator == operator :: m[id]
  }

  class Store {
    var sessions: Sessions

    /** Sessions are kept under their own ids. */
    ghost predicate Valid()
      reads this
    {
      Keyed(sessions)
    }

    constructor ()
      ensures Valid() && sessions == map[]
    {
      sessions := map[];
    }

    /** The session is found under its id until it expires; others are found as before. */
    method Put(s: Session)
      requires Valid()
      modifies this
      ensures Valid() && sessions == old(sessions)[s.id := s]
      ensures forall now: Time :: Found(sessions, s.id, now) == if now < s.expiresAt then Some(s) else None
      ensures forall id, now: Time | id != s.id :: Found(sessions, id, now) == Found(old(sessions), id, now)
    {
      sessions := sessions[s.id := s];
    }

    method Get(id: string, now: Time) returns (r: Option<Session>)
      requires Valid()
      modifies this
      ensures Valid() && r == Found(old(sessions), id, now)
      ensures sessions == Evicting(old(sessions), Call(DoGet(id), now))
    {
      if id !in sessions {
        return None;
      }
      var s := sessions[id];
      if !(now < s.expiresAt) {
        sessions := sessions - {id};
        return None;
      }
      return Some(s);
    }

    /** The session is not found any more; others are found as before. */
    method Delete(id: string)
      requires Valid()
      modifies this
      ensures Valid() && sessions == old(sessions) - {id}
      ensures forall now: Time :: Found(sessions, id, now) == None
      ensures forall other, now: Time | other != id :: Found(sessions, other, now) == Found(old(sessions), other, now)
    {
      sessions := sessions - {id};
    }

    /** Visits every session once; deletes the expired ones and collects the operator's. */
    method ListByOperator(operator: string, now: Time) returns (out: seq<Session>)
      requires Valid()
      modifies this
      ensures Valid() && sessions == Evicting(old(sessions), Call(DoList(operator), now))
      ensures forall s :: s in out <==> s in OfOperator(Live(old(sessions), now), operator)
      ensures forall i, j | 0 <= i < j < |out| :: out[i] != out[j]
    {
      out := [];
      var pending := sessions.Keys;
      while pending != {}
        invariant Valid() && pending <= sessions.Keys <= old(sessions).Keys
        invariant forall id | id in sessions :: sessions[id] == old(sessions)[id]
        invariant forall id | id in sessions && id !in pending :: !Expired(sessions[id], now)
        invariant forall id | id in old(sessions) && id !in sessions :: Expired(old(sessions)[id], now)
        invariant forall s :: s in out <==> s.id in sessions && s.id !in pending && s == sessions[s.id] && s.operator == operator
        invariant forall i, j | 0 <= i < j < |out| :: out[i] != out[j]
        decreases |pending|
      {
        var id :| id in pending;
        pending := pending - {id};
        var s := sessions[id];
        if !(now < s.expiresAt) {
          sessions := sessions - {id};
        } else if s.operator == operator {
          out := out + [s];
        }
      }
    }
  }

  ghost predicate Keyed(m: Sessions) {
    forall id | id in m :: m[id].id == id
  }

  // ----- Eviction over whole runs -----------------------------------------------------------------

  datatype Op = DoPut(s: Session) | DoGet(id: string) | DoDelete(id: string) | DoList(operator: string)

  datatype Call = Call(op: Op, now: Time)

  datatype Reply = Nothing | Got(r: Option<Session>) | Listed(sessions: set<Session>)

  /** The answer depends on the live sessions only. */
  function Answer(m: Sessions, c: Call): Reply {
    match c.op
    case DoGet(id) => Got(Found(m, id, c.now))
    case DoList(operator) => Listed(OfOperator(Live(m, c.now), operator))
    case _ => Nothing
  }

  /** What the store keeps after a call, with the deletions of the code. */
  function Evicting(m: Sessions, c: Call): Sessions {
    match c.op
    case DoPut(s) => m[s.id := s]
    case DoGet(id) => if id in m && Expired(m[id], c.now) then m - {id} else m
    case DoDelete(id) => m - {id}
    case DoList(_) => Live(m, c.now)
  }

  /** The same without evictions. */
  function Keeping(m: Sessions, c: Call): Sessions {
    match c.op
    case DoPut(s) => m[s.id := s]
    case DoDelete(id) => m - {id}
    case _ => m
  }

  function Answers(m: Sessions, step: (Sessions, Call) -> Sessions, calls: seq<Call>): seq<Reply>
    decreases |calls|
  {
    if calls == [] then [] else [Answer(m, calls[0])] + Answers(step(m, calls[0]), step, calls[1..])
  }

  ghost predicate Forward(now: Time, calls: seq<Call>)
    decreases |calls|
  {
    calls == [] || (now <= calls[0].now && Forward(calls[0].now, calls[1..]))
  }

  /** The two stores hold the same live sessions, from an instant on. */
  ghost predicate Agree(a: Sessions, b: Sessions, now: Time) {
    Live(a, now) == Live(b, now)
  }

  lemma AgreeLater(a: Sessions, b: Sessions, now: Time, later: Time)
    requires Agree(a, b, now) && now <= later
    ensures Agree(a, b, later)
  {
    forall id ensures id in Live(a, later) <==> id in Live(b, later) {
      assert id in Live(a, now) <==> id in Live(b, now);
    }
    forall id | id in Live(a, later) ensures Live(a, later)[id] == Live(b, later)[id] {
      assert Live(a, now)[id] == Live(b, now)[id];
    }
  }

  lemma AgreeAnswer(a: Sessions, b: Sessions, c: Call)
    requires Agree(a, b, c.now)
    ensures Answer(a, c) == Answer(b, c)
  {
    forall id ensures Found(a, id, c.now) == Found(b, id, c.now) {
      assert id in Live(a, c.now) <==> id in Live(b, c.now);
      assert id in Live(a, c.now) ==> Live(a, c.now)[id] == Live(b, c.now)[id];
    }
  }

  lemma AgreeStep(a: Sessions, b: Sessions, c: Call)
    requires Agree(a, b, c.now)
    ensures Agree(Evicting(a, c), Keeping(b, c), c.now)
  {
    var a', b' := Evicting(a, c), Keeping(b, c);
    forall id ensures id in Live(a', c.now) <==> id in Live(b', c.now) {
      assert id in Live(a, c.now) <==> id in Live(b, c.now);
    }
    forall id | id in Live(a', c.now) ensures Live(a', c.now)[id] == Live(b', c.now)[id] {
      assert id in Live(a, c.now) ==> Live(a, c.now)[id] == Live(b, c.now)[id];
    }
  }

  /** Under a clock that does not go back, no answer of any run reveals the evictions. */
  lemma {:induction false} EvictionInvisible(a: Sessions, b: Sessions, now: Time, calls: seq<Call>)
    requires Agree(a, b, now) && Forward(now, calls)
    ensures Answers(a, Evicting, calls) == Answers(b, Keeping, calls)
    decreases |calls|
  {
    if calls != [] {
      var c := calls[0];
      AgreeLater(a, b, now, c.now);
      AgreeAnswer(a, b, c);
      AgreeStep(a, b, c);
      EvictionInvisible(Evicting(a, c), Keeping(b, c), c.now, calls[1..]);
    }
  }

  /** A clock that goes back reveals them: a session found expired once is not found again. */
  lemma ClockBackReveals(s: Session, before: Time, after: Time)
    requires before < s.expiresAt <= after
    ensures var calls := [Call(DoGet(s.id), after), Call(DoGet(s.id), before)];
            var m := map[s.id := s];
            Answers(m, Evicting, calls) != Answers(m, Keeping, calls)
  {
    var calls := [Call(DoGet(s.id), after), Call(DoGet(s.id), before)];
    var m: Sessions := map[s.id := s];
    var rest := calls[1..];
    assert Evicting(m, calls[0]) == map[];
    assert Keeping(m, calls[0]) == m;
    OneAnswer(map[], Evicting, rest[0]);
    OneAnswer(m, Keeping, rest[0]);
    assert rest == [rest[0]];
    assert Answers(m, Evicting, calls)[1] == Answer(map[], rest[0]) == Got(None);
    assert Answers(m, Keeping, calls)[1] == Answer(m, rest[0]) == Got(Some(s));
  }

  lemma OneAnswer(m: Sessions, step: (Sessions, Call) -> Sessions, c: Call)
    ensures Answers(m, step, [c]) == [Answer(m, c)]
  {
  }
}
