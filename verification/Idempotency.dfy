/**
 * The idempotency middleware under concurrent requests. A request with a command id looks its
 * scope up; on a miss it executes the handler, reads the clock for the expiry, and stores a
 * successful response. Requests, the clock and sweeps interleave in any order.
 */
module Idempotency {
  import opened IdempotencyStore
  import Naturals

  datatype Request = Request(scope: Scope, digest: nat)

  datatype Reply =
    | Replayed(record: Record, at: Time)
    | Fresh(response: Response)
    | KeyReuse
    | LookupFailed

  /** How far a request has come. */
  datatype Pc = Arrived | Missed | Executed(response: Response) | Stamped(record: Record) | Done(reply: Reply)

  datatype Call = Call(request: Request, pc: Pc)

  /** A run of the handler. */
  datatype Execution = Execution(request: Request, response: Response)

  /** `puts` and `execs` are histories: what was stored and what ran, in order. */
  datatype State = State(
    clock: Time, ttl: nat, records: map<Scope, Record>, calls: map<nat, Call>,
    puts: seq<Record>, execs: seq<Execution>)

  datatype Action =
    | Arrive(id: nat, request: Request)
    | Find(id: nat, up: bool)
    | Execute(id: nat, response: Response)
    | Stamp(id: nat)
    | Put(id: nat, up: bool)
    | Tick(to: Time)
    | Purge(t: Time)

  function Start(clock: Time, ttl: nat): State {
    State(clock, ttl, map[], map[], [], [])
  }

  predicate Succeeded(r: Response) {
    200 <= r.status < 300
  }

  predicate At(s: State, id: nat, pc: Pc) {
    id in s.calls && s.calls[id].pc == pc
  }

  predicate Enabled(s: State, a: Action) {
    match a
    case Arrive(id, q) => id !in s.calls && 1 <= |q.scope.caller| <= MAX_CALLER_ID_LEN
    case Find(id, _) => At(s, id, Arrived)
    case Execute(id, _) => At(s, id, Missed)
    case Stamp(id) => id in s.calls && s.calls[id].pc.Executed?
    case Put(id, _) => id in s.calls && s.calls[id].pc.Stamped?
    case Tick(to) => s.clock <= to
    case Purge(t) => t <= s.clock
  }

  /** The lookup: the store may fail; a miss goes on to the handler. */
  function Found(s: State, q: Request, up: bool): Pc {
    if !up then Done(LookupFailed)
    else match LookUp(s.records, s.clock, q.scope, q.digest)
      case Absent => Missed
      case Mismatch => Done(KeyReuse)
      case Hit(r) => Done(Replayed(r, s.clock))
  }

  /** After the handler: only a successful response is going to be stored. */
  function AfterHandler(s: State, q: Request, r: Response): Pc {
    if Succeeded(r) then Stamped(Record(q.scope, q.digest, r, s.clock, s.clock + s.ttl))
    else Done(Fresh(r))
  }

  function Moved(s: State, id: nat, pc: Pc): State
    requires id in s.calls
  {
    s.(calls := s.calls[id := s.calls[id].(pc := pc)])
  }

  /** Storing a record, if the store is up and accepts it; the reply is the same either way. */
  function Kept(s: State, r: Record, up: bool): State {
    if up && Storable(r) then s.(records := s.records[r.scope := r], puts := s.puts + [r]) else s
  }

  function Step(s: State, a: Action): State
    requires Enabled(s, a)
  {
    match a
    case Arrive(id, q) => s.(calls := s.calls[id := Call(q, Arrived)])
    case Find(id, up) => Moved(s, id, Found(s, s.calls[id].request, up))
    case Execute(id, r) =>
      Moved(s, id, Executed(r)).(execs := s.execs + [Execution(s.calls[id].request, r)])
    case Stamp(id) => Moved(s, id, AfterHandler(s, s.calls[id].request, s.calls[id].pc.response))
    case Put(id, up) =>
      var r := s.calls[id].pc.record;
      Moved(Kept(s, r, up), id, Done(Fresh(r.response)))
    case Tick(to) => s.(clock := to)
    case Purge(t) => s.(records := Live(s.records, t))
  }

  ghost predicate Valid(s: State, run: seq<Action>)
    decreases |run|
  {
    run == [] || (Enabled(s, run[0]) && Valid(Step(s, run[0]), run[1..]))
  }

  ghost function Exec(s: State, run: seq<Action>): State
    requires Valid(s, run)
    decreases |run|
  {
    if run == [] then s else Exec(Step(s, run[0]), run[1..])
  }

  // ----- What every state of every run satisfies ---------------------------------------------

  /** The last record stored under a scope. */
  function LastPut(puts: seq<Record>, scope: Scope): seq<Record>
    decreases |puts|
  {
    if puts == [] then []
    else if puts[|puts| - 1].scope == scope then [puts[|puts| - 1]]
    else LastPut(puts[..|puts| - 1], scope)
  }

  /** A record is the successful response of a run of the handler for its scope and body. */
  ghost predicate Earned(s: State, r: Record) {
    && Execution(Request(r.scope, r.digest), r.response) in s.execs
    && Succeeded(r.response)
    && r.createdAt <= s.clock && r.expiresAt == r.createdAt + s.ttl
    && 1 <= |r.scope.caller| <= MAX_CALLER_ID_LEN
  }

  ghost predicate CallInv(s: State, c: Call) {
    && 1 <= |c.request.scope.caller| <= MAX_CALLER_ID_LEN
    && match c.pc
       case Executed(r) => Execution(c.request, r) in s.execs
       case Stamped(r) => Earned(s, r) && r.scope == c.request.scope
       case Done(Replayed(r, at)) =>
         Earned(s, r) && c.request == Request(r.scope, r.digest) && r.createdAt <= at < r.expiresAt && r in s.puts
       case _ => true
  }

  ghost predicate StoreInv(s: State, scope: Scope) {
    if scope in s.records
    then LastPut(s.puts, scope) == [s.records[scope]] && s.records[scope].scope == scope
         && Earned(s, s.records[scope]) && Storable(s.records[scope]) && s.records[scope] in s.puts
    else LastPut(s.puts, scope) == [] || Expired(LastPut(s.puts, scope)[0], s.clock)
  }

  ghost predicate Inv(s: State) {
    && (forall id | id in s.calls :: CallInv(s, s.calls[id]))
    && (forall scope: Scope :: StoreInv(s, scope))
  }

  lemma EarnedKept(s: State, s': State, r: Record)
    requires Earned(s, r) && s.clock <= s'.clock && s.ttl == s'.ttl
    requires forall e | e in s.execs :: e in s'.execs
    ensures Earned(s', r)
  {
  }

  lemma CallKept(s: State, s': State, c: Call)
    requires CallInv(s, c) && s.clock <= s'.clock && s.ttl == s'.ttl
    requires forall e | e in s.execs :: e in s'.execs
    requires forall r | r in s.puts :: r in s'.puts
    ensures CallInv(s', c)
  {
    match c.pc {
      case Stamped(r) => EarnedKept(s, s', r);
      case Done(Replayed(r, at)) => EarnedKept(s, s', r);
      case _ =>
    }
  }

  /** A request that is looked up gets the answer the history dictates. */
  lemma FindInv(s: State, id: nat, up: bool)
    requires Inv(s) && At(s, id, Arrived)
    ensures CallInv(s, Call(s.calls[id].request, Found(s, s.calls[id].request, up)))
  {
    var q := s.calls[id].request;
    assert CallInv(s, s.calls[id]);
    assert StoreInv(s, q.scope);
  }

  lemma StampInv(s: State, id: nat)
    requires Inv(s) && id in s.calls && s.calls[id].pc.Executed?
    ensures CallInv(s, Call(s.calls[id].request, AfterHandler(s, s.calls[id].request, s.calls[id].pc.response)))
  {
    assert CallInv(s, s.calls[id]);
  }

  lemma CallsStepInv(s: State, a: Action, id: nat)
    requires Inv(s) && Enabled(s, a) && id in Step(s, a).calls
    ensures CallInv(Step(s, a), Step(s, a).calls[id])
  {
    var s' := Step(s, a);
    assert id in s.calls ==> CallInv(s, s.calls[id]);
    if id in s.calls && s'.calls[id] == s.calls[id] {
      CallKept(s, s', s.calls[id]);
    } else {
      match a {
        case Find(_, up) =>
          FindInv(s, id, up);
          CallKept(s, s', s'.calls[id]);
        case Stamp(_) =>
          StampInv(s, id);
          CallKept(s, s', s'.calls[id]);
        case _ =>
      }
    }
  }

  lemma KeptInv(s: State, r: Record, up: bool, scope: Scope)
    requires Inv(s) && Earned(s, r)
    ensures StoreInv(Kept(s, r, up), scope)
  {
    assert StoreInv(s, scope);
    var s' := Kept(s, r, up);
    if s' != s {
      assert s'.puts[..|s'.puts| - 1] == s.puts;
    }
  }

  /** What a step keeps that does not touch the store. */
  lemma StoreSame(s: State, s': State, scope: Scope)
    requires StoreInv(s, scope) && s'.records == s.records && s'.puts == s.puts
    requires s.clock <= s'.clock && s.ttl == s'.ttl && forall e | e in s.execs :: e in s'.execs
    ensures StoreInv(s', scope)
  {
    if scope in s.records {
      EarnedKept(s, s', s.records[scope]);
    }
  }

  lemma PurgeInv(s: State, t: Time, scope: Scope)
    requires StoreInv(s, scope) && t <= s.clock
    ensures StoreInv(s.(records := Live(s.records, t)), scope)
  {
  }

  lemma StoreStepInv(s: State, a: Action, scope: Scope)
    requires Inv(s) && Enabled(s, a)
    ensures StoreInv(Step(s, a), scope)
  {
    assert StoreInv(s, scope);
    if a.Put? {
      var r := s.calls[a.id].pc.record;
      assert CallInv(s, s.calls[a.id]);
      KeptInv(s, r, a.up, scope);
      StoreSame(Kept(s, r, a.up), Step(s, a), scope);
    } else if a.Purge? {
      PurgeInv(s, a.t, scope);
    } else {
      StoreSame(s, Step(s, a), scope);
    }
  }

  lemma StepInv(s: State, a: Action)
    requires Inv(s) && Enabled(s, a)
    ensures Inv(Step(s, a))
  {
    forall id | id in Step(s, a).calls ensures CallInv(Step(s, a), Step(s, a).calls[id]) {
      CallsStepInv(s, a, id);
    }
    forall scope: Scope ensures StoreInv(Step(s, a), scope) {
      StoreStepInv(s, a, scope);
    }
  }

  lemma {:induction false} RunInv(s: State, run: seq<Action>)
    requires Inv(s) && Valid(s, run)
    ensures Inv(Exec(s, run))
    decreases |run|
  {
    if run != [] {
      StepInv(s, run[0]);
      RunInv(Step(s, run[0]), run[1..]);
    }
  }

  // ----- The promises -------------------------------------------------------------------------

  /** In every run, a replayed response is the successful response of a run of the handler for
      the same caller, command id and body, stored by a request whose retention covers the
      moment of the replay. */
  lemma ReplaySound(clock: Time, ttl: nat, run: seq<Action>, id: nat)
    requires Valid(Start(clock, ttl), run)
    ensures var s := Exec(Start(clock, ttl), run);
            id in s.calls && s.calls[id].pc.Done? && s.calls[id].pc.reply.Replayed? ==>
              var r := s.calls[id].pc.reply.record;
              && Execution(s.calls[id].request, r.response) in s.execs
              && Succeeded(r.response) && r in s.puts
              && r.createdAt <= s.calls[id].pc.reply.at < r.createdAt + ttl
  {
    RunInv(Start(clock, ttl), run);
    KeepsTtl(Start(clock, ttl), run);
    var s := Exec(Start(clock, ttl), run);
    assert id in s.calls ==> CallInv(s, s.calls[id]);
  }

  lemma {:induction false} KeepsTtl(s: State, run: seq<Action>)
    requires Valid(s, run)
    ensures Exec(s, run).ttl == s.ttl && s.clock <= Exec(s, run).clock
    decreases |run|
  {
    if run != [] {
      KeepsTtl(Step(s, run[0]), run[1..]);
    }
  }

  /** In every run, a lookup is answered by the last record stored under its scope: executed
      anew exactly when there is none or it has expired, refused when it holds another body,
      replayed otherwise. Sweeps and other scopes make no difference. */
  lemma LookupExact(clock: Time, ttl: nat, run: seq<Action>, q: Request)
    requires Valid(Start(clock, ttl), run)
    ensures var s := Exec(Start(clock, ttl), run);
            var last := LastPut(s.puts, q.scope);
            Found(s, q, true) ==
              if last == [] || Expired(last[0], s.clock) then Missed
              else if last[0].digest != q.digest then Done(KeyReuse)
              else Done(Replayed(last[0], s.clock))
  {
    RunInv(Start(clock, ttl), run);
    assert StoreInv(Exec(Start(clock, ttl), run), q.scope);
  }

  /** How often the handler ran for a scope. */
  function Runs(execs: seq<Execution>, scope: Scope): nat
    decreases |execs|
  {
    if execs == [] then 0
    else Runs(execs[..|execs| - 1], scope) + (if execs[|execs| - 1].request.scope == scope then 1 else 0)
  }

  /** No request of the scope is about to run the handler, and none is about to replace the
      record by one that expires before `until`. */
  ghost predicate Settled(s: State, scope: Scope, until: Time) {
    forall id | id in s.calls :: Harmless(s.calls[id], scope, until)
  }

  predicate Harmless(c: Call, scope: Scope, until: Time) {
    c.request.scope == scope ==> !c.pc.Missed? && (c.pc.Stamped? ==> c.pc.record.expiresAt >= until)
  }

  ghost predicate Protected(s: State, scope: Scope, until: Time) {
    && scope in s.records && s.records[scope].expiresAt >= until
    && until <= s.clock + s.ttl
    && Settled(s, scope, until)
  }

  lemma HarmlessStep(s: State, a: Action, scope: Scope, until: Time, id: nat)
    requires Enabled(s, a) && s.clock < until && Protected(s, scope, until)
    requires id in Step(s, a).calls
    ensures Harmless(Step(s, a).calls[id], scope, until)
  {
    assert id in s.calls ==> Harmless(s.calls[id], scope, until);
  }

  lemma RecordStep(s: State, a: Action, scope: Scope, until: Time)
    requires Inv(s) && Enabled(s, a) && s.clock < until && Protected(s, scope, until)
    ensures scope in Step(s, a).records && Step(s, a).records[scope].expiresAt >= until
  {
    if a.Put? {
      assert CallInv(s, s.calls[a.id]);
      assert Harmless(s.calls[a.id], scope, until);
    }
  }

  lemma NoRunStep(s: State, a: Action, scope: Scope, until: Time)
    requires Enabled(s, a) && Protected(s, scope, until)
    ensures Runs(Step(s, a).execs, scope) == Runs(s.execs, scope)
  {
    if a.Execute? {
      assert Harmless(s.calls[a.id], scope, until);
      assert Step(s, a).execs[..|s.execs|] == s.execs;
    }
  }

  lemma ProtectedStep(s: State, a: Action, scope: Scope, until: Time)
    requires Inv(s) && Enabled(s, a) && s.clock < until && Protected(s, scope, until)
    ensures Protected(Step(s, a), scope, until)
    ensures Runs(Step(s, a).execs, scope) == Runs(s.execs, scope)
  {
    NoRunStep(s, a, scope, until);
    RecordStep(s, a, scope, until);
    forall id | id in Step(s, a).calls ensures Harmless(Step(s, a).calls[id], scope, until) {
      HarmlessStep(s, a, scope, until, id);
    }
  }

  lemma {:induction false} ProtectedRun(s: State, run: seq<Action>, scope: Scope, until: Time)
    requires Inv(s) && Valid(s, run) && Protected(s, scope, until)
    requires Exec(s, run).clock < until
    ensures Runs(Exec(s, run).execs, scope) == Runs(s.execs, scope)
    decreases |run|
  {
    if run != [] {
      KeepsTtl(Step(s, run[0]), run[1..]);
      StepInv(s, run[0]);
      ProtectedStep(s, run[0], scope, until);
      ProtectedRun(Step(s, run[0]), run[1..], scope, until);
    }
  }

  /** A request of the scope that missed runs the handler once more. */
  lemma MissedRuns(s: State, id: nat, response: Response)
    requires At(s, id, Missed)
    ensures var run := [Execute(id, response)];
            && Valid(s, run) && Exec(s, run).clock == s.clock
            && Runs(Exec(s, run).execs, s.calls[id].request.scope) == Runs(s.execs, s.calls[id].request.scope) + 1
  {
    var run := [Execute(id, response)];
    var s1 := Step(s, run[0]);
    assert Exec(s, run) == Exec(s1, run[1..]) == s1;
    assert s1.execs[..|s.execs|] == s.execs;
  }

  /** A late write of an older stamp cuts the retention short: after it expires, a new request
      runs the handler. */
  lemma OldStampRuns(s: State, id: nat, until: Time, response: Response) returns (run: seq<Action>)
    requires Inv(s) && id in s.calls && s.calls[id].pc.Stamped?
    requires s.calls[id].pc.record.expiresAt < until && s.clock < until
    requires s.calls[id].request.scope in s.records
    requires s.clock < s.records[s.calls[id].request.scope].expiresAt
    ensures Valid(s, run) && Exec(s, run).clock < until
    ensures Runs(Exec(s, run).execs, s.calls[id].request.scope) == Runs(s.execs, s.calls[id].request.scope) + 1
  {
    var scope := s.calls[id].request.scope;
    assert CallInv(s, s.calls[id]) && StoreInv(s, scope);
    var r := s.calls[id].pc.record;
    var s1 := Step(s, Put(id, true));
    var t := if s.clock < r.expiresAt then r.expiresAt else s.clock;
    var s2 := Step(s1, Tick(t));
    var next := Naturals.FreshNat(s2.calls.Keys);
    var s3 := Step(s2, Arrive(next, Request(scope, 0)));
    var s4 := Step(s3, Find(next, true));
    assert s2.records == s1.records && s1.records[scope] == r;
    assert At(s4, next, Missed);
    MissedRuns(s4, next, response);
    run := [Put(id, true), Tick(t), Arrive(next, Request(scope, 0)), Find(next, true), Execute(next, response)];
    Unroll(s, run);
    Unroll(s1, run[1..]);
    Unroll(s2, run[2..]);
    Unroll(s3, run[3..]);
    assert run[4..] == [Execute(next, response)];
  }

  lemma Unroll(s: State, run: seq<Action>)
    requires run != [] && Enabled(s, run[0])
    ensures Valid(s, run) <==> Valid(Step(s, run[0]), run[1..])
    ensures Valid(s, run) ==> Exec(s, run) == Exec(Step(s, run[0]), run[1..])
  {
  }

  /** At most once: while the record of a scope is live, no continuation runs the handler for
      the scope again before the record's expiry, exactly when no request of the scope that
      missed earlier is still on its way to the handler or, with an older expiry, to the
      store. */
  lemma AtMostOnceExact(s: State, scope: Scope)
    requires Inv(s) && scope in s.records && s.clock < s.records[scope].expiresAt
    ensures var until := s.records[scope].expiresAt;
            ((forall run | Valid(s, run) && Exec(s, run).clock < until ::
                Runs(Exec(s, run).execs, scope) == Runs(s.execs, scope))
             <==> Settled(s, scope, until))
  {
    var until := s.records[scope].expiresAt;
    assert StoreInv(s, scope);
    if Settled(s, scope, until) {
      forall run | Valid(s, run) && Exec(s, run).clock < until
        ensures Runs(Exec(s, run).execs, scope) == Runs(s.execs, scope)
      {
        ProtectedRun(s, run, scope, until);
      }
    } else {
      var id :| id in s.calls && !Harmless(s.calls[id], scope, until);
      var response := Response(200, "", "");
      if s.calls[id].pc.Missed? {
        MissedRuns(s, id, response);
      } else {
        var run := OldStampRuns(s, id, until, response);
      }
    }
  }

  lemma {:induction false} ExecConcat(s: State, a: seq<Action>, b: seq<Action>)
    requires Valid(s, a) && Valid(Exec(s, a), b)
    ensures Valid(s, a + b) && Exec(s, a + b) == Exec(Exec(s, a), b)
    decreases |a|
  {
    if a == [] {
      assert a + b == b;
    } else {
      assert (a + b)[1..] == a[1..] + b;
      ExecConcat(Step(s, a[0]), a[1..], b);
    }
  }

  /** Two requests of one scope, both looked up before either has run. */
  lemma BothMiss(clock: Time, ttl: nat, q: Request)
    requires 1 <= |q.scope.caller| <= MAX_CALLER_ID_LEN
    ensures var run := [Arrive(0, q), Arrive(1, q), Find(0, true), Find(1, true)];
            && Valid(Start(clock, ttl), run)
            && Exec(Start(clock, ttl), run) ==
                 State(clock, ttl, map[], map[0 := Call(q, Missed), 1 := Call(q, Missed)], [], [])
  {
    var run := [Arrive(0, q), Arrive(1, q), Find(0, true), Find(1, true)];
    var s := Start(clock, ttl);
    var s1 := Step(s, run[0]);
    var s2 := Step(s1, run[1]);
    var s3 := Step(s2, run[2]);
    Unroll(s, run);
    Unroll(s1, run[1..]);
    Unroll(s2, run[2..]);
    Unroll(s3, run[3..]);
  }

  /** Two requests with one command id that overlap both run the handler, for every command id
      and body, and whatever the handler answers. */
  lemma OverlappingRunTwice(clock: Time, ttl: nat, q: Request, r0: Response, r1: Response)
    requires 1 <= |q.scope.caller| <= MAX_CALLER_ID_LEN
    ensures exists run :: Valid(Start(clock, ttl), run)
              && Runs(Exec(Start(clock, ttl), run).execs, q.scope) == 2
              && Exec(Start(clock, ttl), run).clock == clock
  {
    var start := Start(clock, ttl);
    var run := [Arrive(0, q), Arrive(1, q), Find(0, true), Find(1, true)];
    BothMiss(clock, ttl, q);
    var s := Exec(start, run);
    MissedRuns(s, 0, r0);
    ExecConcat(start, run, [Execute(0, r0)]);
    var s' := Exec(s, [Execute(0, r0)]);
    Unroll(s, [Execute(0, r0)]);
    MissedRuns(s', 1, r1);
    ExecConcat(start, run + [Execute(0, r0)], [Execute(1, r1)]);
  }

  /** A request under the nil command id is never stored, so it runs the handler every time. */
  lemma NilKeyNeverKept(clock: Time, ttl: nat, run: seq<Action>, q: Request)
    requires Valid(Start(clock, ttl), run) && q.scope.key == NIL_KEY
    ensures Found(Exec(Start(clock, ttl), run), q, true) == Missed
  {
    RunInv(Start(clock, ttl), run);
    assert StoreInv(Exec(Start(clock, ttl), run), q.scope);
  }
}
