/**
 * One request through the idempotency middleware, from its header to its reply, over the
 * in-memory store.
 */
module IdempotencyMiddleware {
  import opened IdempotencyStore
  import opened Idempotency
  import Rec = ResponseRecorder

  /** The command id header after trimming: absent, not a UUID, or a UUID. */
  datatype Header = NoHeader | NotUuid | Id(key: nat)

  /** The body after reading it under the size limit. */
  datatype Body = Unreadable | Body(digest: nat)

  datatype Outcome =
    | BadRequest
    | TooLarge
    | KeyReused
    | Replay(seen: Rec.Seen)
    | Handled(seen: Rec.Seen)

  /** Twenty-four hours, in microseconds. */
  const DEFAULT_TTL: nat := 86_400_000_000

  function Retention(ttl: int): nat {
    if ttl <= 0 then DEFAULT_TTL else ttl
  }

  /** The requests that get as far as the store. */
  predicate Admitted(header: Header, caller: string, body: Body) {
    header.Id? && 1 <= |caller| <= MAX_CALLER_ID_LEN && body.Body?
  }

  class Middleware {
    const store: InMemoryStore
    const ttl: nat

    constructor (store: InMemoryStore, ttl: int)
      ensures this.store == store && this.ttl == Retention(ttl)
    {
      this.store := store;
      this.ttl := if ttl <= 0 then DEFAULT_TTL else ttl;
    }

    /** `acts` is what the handler would do with its response writer if it ran; the clock shows
        t0 at the lookup and t1 after the handler. A handler that runs is answered for by what
        it sent; what is stored is what the recorder has of it. */
    method Serve(header: Header, caller: string, body: Body, acts: seq<Rec.Act>, t0: Time, t1: Time)
      returns (reply: Outcome, ran: bool)
      modifies store
      ensures header.NoHeader? ==> ran && store.records == old(store.records)
      ensures !header.NoHeader? && !Admitted(header, caller, body) ==>
                !ran && (reply == BadRequest || reply == TooLarge) && store.records == old(store.records)
      ensures reply == TooLarge <==> header.Id? && 1 <= |caller| <= MAX_CALLER_ID_LEN && body.Unreadable?
      ensures ran ==> reply == Handled(Rec.ClientSees(acts))
      ensures Admitted(header, caller, body) ==>
                var q := Request(Scope(caller, header.key), body.digest);
                var s := Alone(q, old(store.records), ttl, Rec.Recorded(acts), t0, t1);
                && store.records == s.records
                && (ran <==> s.execs == [Execution(q, Rec.Recorded(acts))])
                && (!ran ==> reply == OutcomeOf(s.calls[0].pc))
    {
      if header.NoHeader? {
        return Handled(Rec.ClientSees(acts)), true;
      }
      if header.NotUuid? || |caller| == 0 || |caller| > MAX_CALLER_ID_LEN {
        return BadRequest, false;
      }
      if body.Unreadable? {
        return TooLarge, false;
      }
      var scope := Scope(caller, header.key);
      var found := store.Get(t0, scope, body.digest);
      if found.Mismatch? {
        return KeyReused, false;
      }
      if found.Hit? {
        return Replay(Rec.Replayed(found.record.response)), false;
      }
      var kept, seen := Rec.Handle(acts);
      if kept.status < 200 || kept.status >= 300 {
        return Handled(seen), true;
      }
      var _ := store.Put(Record(scope, body.digest, kept, t1, t1 + ttl));
      return Handled(seen), true;
    }
  }

  /** The answer to a request that ran no handler. */
  function OutcomeOf(pc: Pc): Outcome {
    match pc
    case Done(Replayed(r, _)) => Replay(Rec.Replayed(r.response))
    case Done(KeyReuse) => KeyReused
    case _ => BadRequest
  }

  /** The state a request leaves when it runs through the protocol undisturbed. */
  function Alone(q: Request, records: map<Scope, Record>, ttl: nat, answer: Response, t0: Time, t1: Time): State {
    var s := State(t0, ttl, records, map[0 := Call(q, Found(State(t0, ttl, records, map[], [], []), q, true))], [], []);
    if s.calls[0].pc != Missed then s
    else
      var ranTo := Moved(s, 0, Executed(answer)).(execs := [Execution(q, answer)], clock := t1);
      var done := Moved(ranTo, 0, AfterHandler(ranTo, q, answer));
      if done.calls[0].pc.Stamped?
      then Moved(Kept(done, done.calls[0].pc.record, true), 0, Done(Fresh(answer)))
      else done
  }

  /** The protocol steps of an undisturbed request. */
  function AloneRun(q: Request, s: State, answer: Response, t1: Time): seq<Action> {
    if Found(s, q, true) != Missed then [Arrive(0, q), Find(0, true)]
    else [Arrive(0, q), Find(0, true), Execute(0, answer), Tick(t1), Stamp(0)] +
         (if Succeeded(answer) then [Put(0, true)] else [])
  }

  /** An undisturbed request is a run of the concurrent protocol, so what holds of every run
      holds of requests served one after the other. */
  lemma AloneIsARun(q: Request, records: map<Scope, Record>, ttl: nat, answer: Response, t0: Time, t1: Time)
    requires 1 <= |q.scope.caller| <= MAX_CALLER_ID_LEN && t0 <= t1
    ensures var s := State(t0, ttl, records, map[], [], []);
            var run := AloneRun(q, s, answer, t1);
            Valid(s, run) && Exec(s, run) == Alone(q, records, ttl, answer, t0, t1)
  {
    var s := State(t0, ttl, records, map[], [], []);
    var run := AloneRun(q, s, answer, t1);
    var s1 := Step(s, run[0]);
    var s2 := Step(s1, run[1]);
    Unroll(s, run);
    Unroll(s1, run[1..]);
    if Found(s, q, true) == Missed {
      AloneExecutes(q, s2, answer, t1, run[1..][1..]);
    } else {
      assert run[1..][1..] == [];
      assert s2.calls == map[0 := Call(q, Found(s, q, true))];
    }
  }

  lemma AloneExecutes(q: Request, s2: State, answer: Response, t1: Time, tail: seq<Action>)
    requires s2.calls == map[0 := Call(q, Missed)] && s2.clock <= t1 && s2.execs == []
    requires tail == [Execute(0, answer), Tick(t1), Stamp(0)] + (if Succeeded(answer) then [Put(0, true)] else [])
    ensures Valid(s2, tail)
    ensures var ranTo := Moved(s2, 0, Executed(answer)).(execs := [Execution(q, answer)], clock := t1);
            var done := Moved(ranTo, 0, AfterHandler(ranTo, q, answer));
            Exec(s2, tail) ==
              if done.calls[0].pc.Stamped?
              then Moved(Kept(done, done.calls[0].pc.record, true), 0, Done(Fresh(answer)))
              else done
  {
    var s3 := Step(s2, tail[0]);
    var s4 := Step(s3, tail[1]);
    var s5 := Step(s4, tail[2]);
    Unroll(s2, tail);
    Unroll(s3, tail[1..]);
    Unroll(s4, tail[2..]);
    if Succeeded(answer) {
      Unroll(s5, tail[3..]);
    }
  }

  /** A client that repeats a request that was executed, over any store: the second one runs the
      handler again exactly when the first response was not kept (it was no success, or the
      command id is the nil UUID) or has expired. Otherwise it gets the first response. */
  lemma RepeatExact(records: map<Scope, Record>, q: Request, ttl: nat, first: Response, second: Response, t0: Time, t1: Time, t2: Time, t3: Time)
    requires 1 <= |q.scope.caller| <= MAX_CALLER_ID_LEN && t0 <= t1 <= t2 <= t3 && ttl >= 1
    requires LookUp(records, t0, q.scope, q.digest).Absent?
    requires q.scope.key == NIL_KEY ==> q.scope !in records
    ensures var after := Alone(q, records, ttl, first, t0, t1);
            var s := Alone(q, after.records, ttl, second, t2, t3);
            && (s.execs != [] <==> !Succeeded(first) || q.scope.key == NIL_KEY || t1 + ttl <= t2)
            && (s.execs == [] ==> OutcomeOf(s.calls[0].pc) == Replay(Rec.Replayed(first)))
  {
  }

  /** A client that repeats, before it expires, a request whose handler succeeded gets exactly
      what the first client got, header for header, if and only if the handler repeated its
      status last, set no content type afterwards, and no other header before. */
  lemma RepeatVerbatimExact(records: map<Scope, Record>, q: Request, ttl: nat, acts: seq<Rec.Act>, second: Response, t0: Time, t1: Time, t2: Time, t3: Time)
    requires 1 <= |q.scope.caller| <= MAX_CALLER_ID_LEN && t0 <= t1 <= t2 <= t3 && ttl >= 1 && q.scope.key != NIL_KEY
    requires LookUp(records, t0, q.scope, q.digest).Absent? && Succeeded(Rec.Recorded(acts)) && t2 < t1 + ttl
    ensures var after := Alone(q, records, ttl, Rec.Recorded(acts), t0, t1);
            var s := Alone(q, after.records, ttl, second, t2, t3);
            OutcomeOf(s.calls[0].pc) == Replay(Rec.ClientSees(acts)) <==>
              && Rec.LastHead(acts) == Rec.FirstSettled(acts)
              && Rec.TypeOf(Rec.SetBy(acts)) == Rec.TypeOf(Rec.SetBy(Rec.Before(acts)))
              && (forall name | name in Rec.SetBy(Rec.Before(acts)) ::
                    name == Rec.CONTENT_TYPE && Rec.SetBy(Rec.Before(acts))[name] != "")
  {
    RepeatExact(records, q, ttl, Rec.Recorded(acts), second, t0, t1, t2, t3);
    Rec.VerbatimExact(acts);
  }

  // ----- One request after the other --------------------------------------------------------------

  /** A request, what its handler would answer, and what the clock shows before and after. */
  datatype Visit = Visit(q: Request, answer: Response, t0: Time, t1: Time)

  function Served(records: map<Scope, Record>, ttl: nat, v: Visit): State {
    Alone(v.q, records, ttl, v.answer, v.t0, v.t1)
  }

  function AfterAll(records: map<Scope, Record>, ttl: nat, visits: seq<Visit>): map<Scope, Record>
    decreases |visits|
  {
    if visits == [] then records else AfterAll(Served(records, ttl, visits[0]).records, ttl, visits[1..])
  }

  lemma ServedOnce(records: map<Scope, Record>, ttl: nat, v: Visit, scope: Scope)
    requires scope in records && v.t0 < records[scope].expiresAt
    ensures var s := Served(records, ttl, v);
            && scope in s.records && s.records[scope] == records[scope]
            && (v.q.scope == scope ==>
                  && s.execs == []
                  && OutcomeOf(s.calls[0].pc) ==
                       if v.q.digest == records[scope].digest then Replay(Rec.Replayed(records[scope].response)) else KeyReused)
  {
  }

  /** Served one after the other, no request of a scope runs the handler before the record of
      the scope expires, whatever requests of this and other scopes come before it. It gets
      the recorded response if its body is the same and is refused if it is not, and the
      record is never overwritten. */
  lemma {:induction false} SerialOnce(records: map<Scope, Record>, ttl: nat, visits: seq<Visit>, last: Visit, scope: Scope)
    requires scope in records && last.q.scope == scope && last.t0 < records[scope].expiresAt
    requires forall v | v in visits :: v.t0 < records[scope].expiresAt
    ensures var now := AfterAll(records, ttl, visits);
            var s := Served(now, ttl, last);
            && scope in now && now[scope] == records[scope]
            && s.execs == []
            && OutcomeOf(s.calls[0].pc) ==
                 if last.q.digest == records[scope].digest then Replay(Rec.Replayed(records[scope].response)) else KeyReused
    decreases |visits|
  {
    if visits == [] {
      ServedOnce(records, ttl, last, scope);
    } else {
      assert visits[0] in visits;
      ServedOnce(records, ttl, visits[0], scope);
      assert forall v | v in visits[1..] :: v in visits;
      SerialOnce(Served(records, ttl, visits[0]).records, ttl, visits[1..], last, scope);
    }
  }
}
