/**
 * The recorder around a handler's response writer: it hands every call on and keeps status,
 * body and content type for the store, which the client may have received differently.
 */
module ResponseRecorder {
  import opened Options
  import opened IdempotencyStore

  /** What a handler does with its response writer: set a header, write a status, write a body. */
  datatype Act = Set(name: string, value: string) | Head(status: nat) | Send(text: string)

  type Headers = map<string, string>

  const STATUS_OK: nat := 200
  const CONTENT_TYPE := "Content-Type"

  /** A header that is not set reads as empty. */
  function TypeOf(h: Headers): string {
    if CONTENT_TYPE in h then h[CONTENT_TYPE] else ""
  }

  /** Informational statuses are sent and do not settle the response. */
  predicate Settles(status: nat) {
    !(100 <= status <= 199 && status != 101)
  }

  predicate AllowsBody(status: int) {
    !(100 <= status <= 199) && status != 204 && status != 304
  }

  // ----- The writer underneath: what the client gets ------------------------------------------

  /** The header map the handler works on, and what went out: a status with the headers as they
      stood when it settled the response, and the body. */
  datatype Wire = Wire(live: Headers, status: Option<nat>, headers: Headers, body: string)

  function Headed(w: Wire, status: nat): Wire {
    if w.status.None? && Settles(status) then w.(status := Some(status), headers := w.live) else w
  }

  /** A body without a status settles the response as 200. */
  function Sent(w: Wire, text: string): Wire {
    var w1 := Headed(w, STATUS_OK);
    if AllowsBody(w1.status.value) then w1.(body := w1.body + text) else w1
  }

  function Received(acts: seq<Act>): Wire {
    if acts == [] then Wire(map[], None, map[], "")
    else
      var w := Received(acts[..|acts| - 1]);
      match acts[|acts| - 1]
      case Set(name, value) => w.(live := w.live[name := value])
      case Head(status) => Headed(w, status)
      case Send(text) => Sent(w, text)
  }

  /** A response as a client sees it. */
  datatype Seen = Seen(status: int, headers: Headers, body: string)

  /** What the client gets once the handler has returned. A handler that writes nothing answers
      200, with the headers it has set by then. */
  function ClientSees(acts: seq<Act>): Seen {
    var w := Headed(Received(acts), STATUS_OK);
    Seen(w.status.value, w.headers, w.body)
  }

  // ----- The recorder ---------------------------------------------------------------------------

  datatype Tape = Tape(status: nat, wrote: bool, body: string)

  function Taped(acts: seq<Act>): Tape {
    if acts == [] then Tape(STATUS_OK, false, "")
    else
      var t := Taped(acts[..|acts| - 1]);
      match acts[|acts| - 1]
      case Set(_, _) => t
      case Head(status) => Tape(status, true, t.body)
      case Send(text) => Tape(if t.wrote then t.status else STATUS_OK, true, t.body + text)
  }

  /** What is stored: the tape, and the content type read after the handler has returned. */
  function Recorded(acts: seq<Act>): Response {
    Response(Taped(acts).status, Taped(acts).body, TypeOf(Received(acts).live))
  }

  /** What a stored response looks like to the client it is replayed to, the header that marks
      the replay aside. */
  function Replayed(r: Response): Seen {
    Seen(r.status, if r.contentType == "" then map[] else map[CONTENT_TYPE := r.contentType],
         if AllowsBody(r.status) then r.body else "")
  }

  class Recorder {
    var status: nat
    var wrote: bool
    var body: string
    var wire: Wire

    function View(): (Tape, Wire)
      reads this
    {
      (Tape(status, wrote, body), wire)
    }

    constructor ()
      ensures View() == (Taped([]), Received([]))
    {
      status, wrote, body, wire := STATUS_OK, false, "", Wire(map[], None, map[], "");
    }

    /** The header map is the one of the writer underneath. */
    method SetHeader(name: string, value: string)
      modifies this
      ensures View() == (old(View()).0, old(wire).(live := old(wire).live[name := value]))
    {
      wire := wire.(live := wire.live[name := value]);
    }

    method WriteHeader(code: nat)
      modifies this
      ensures View() == (Tape(code, true, old(body)), Headed(old(wire), code))
    {
      status := code;
      wrote := true;
      if wire.status.None? && Settles(code) {
        wire := wire.(status := Some(code), headers := wire.live);
      }
    }

    method Write(text: string)
      modifies this
      ensures View() == (Tape(if old(wrote) then old(status) else STATUS_OK, true, old(body) + text), Sent(old(wire), text))
    {
      if !wrote {
        WriteHeader(STATUS_OK);
      }
      body := body + text;
      if wire.status.None? {
        wire := wire.(status := Some(STATUS_OK), headers := wire.live);
      }
      if AllowsBody(wire.status.value) {
        wire := wire.(body := wire.body + text);
      }
    }
  }

  /** A handler's calls, one after the other, and what the middleware reads off afterwards. */
  method Handle(acts: seq<Act>) returns (r: Response, seen: Seen)
    ensures r == Recorded(acts) && seen == ClientSees(acts)
  {
    var rec := new Recorder();
    for i := 0 to |acts|
      invariant rec.View() == (Taped(acts[..i]), Received(acts[..i]))
    {
      assert acts[..i + 1][..i] == acts[..i];
      match acts[i] {
        case Set(name, value) => rec.SetHeader(name, value);
        case Head(code) => rec.WriteHeader(code);
        case Send(text) => rec.Write(text);
      }
    }
    assert acts[..|acts|] == acts;
    r := Response(rec.status, rec.body, TypeOf(rec.wire.live));
    var w := Headed(rec.wire, STATUS_OK);
    seen := Seen(w.status.value, w.headers, w.body);
  }

  // ----- The calls, looked at as a whole ------------------------------------------------------

  predicate Settling(act: Act) {
    act.Send? || (act.Head? && Settles(act.status))
  }

  /** Some call settles the response. */
  predicate Settled(acts: seq<Act>) {
    exists i | 0 <= i < |acts| :: Settling(acts[i])
  }

  /** The calls before the first that settles the response; all of them if none does. */
  function Before(acts: seq<Act>): seq<Act> {
    if acts == [] || Settling(acts[0]) then [] else [acts[0]] + Before(acts[1..])
  }

  /** The first status that settles the response; a body, or the end, settles it as 200. */
  function FirstSettled(acts: seq<Act>): nat {
    if acts == [] then STATUS_OK
    else if !Settling(acts[0]) then FirstSettled(acts[1..])
    else if acts[0].Send? then STATUS_OK else acts[0].status
  }

  /** The status of the last WriteHeader, 200 if there is none. */
  function LastHead(acts: seq<Act>): nat {
    if acts == [] then STATUS_OK
    else if acts[|acts| - 1].Head? then acts[|acts| - 1].status
    else LastHead(acts[..|acts| - 1])
  }

  /** All that the handler wrote. */
  function Written(acts: seq<Act>): string {
    if acts == [] then "" else Written(acts[..|acts| - 1]) + (if acts[|acts| - 1].Send? then acts[|acts| - 1].text else "")
  }

  /** The headers set by a sequence of calls, the last setting of a name counting. */
  function SetBy(acts: seq<Act>): Headers {
    if acts == [] then map[]
    else
      var h := SetBy(acts[..|acts| - 1]);
      if acts[|acts| - 1].Set? then h[acts[|acts| - 1].name := acts[|acts| - 1].value] else h
  }

  lemma {:induction false} TapedIs(acts: seq<Act>)
    ensures Taped(acts).status == LastHead(acts) && Taped(acts).body == Written(acts)
    ensures !Taped(acts).wrote ==> LastHead(acts) == STATUS_OK
    ensures Received(acts).live == SetBy(acts)
  {
    if acts != [] {
      TapedIs(acts[..|acts| - 1]);
    }
  }

  lemma SettledFrom(acts: seq<Act>)
    requires acts != []
    ensures Settled(acts) <==> Settling(acts[0]) || Settled(acts[1..])
  {
    if Settled(acts[1..]) {
      var i :| 0 <= i < |acts[1..]| && Settling(acts[1..][i]);
      assert acts[i + 1] == acts[1..][i];
    }
    if i :| 0 < i < |acts| && Settling(acts[i]) {
      assert acts[1..][i - 1] == acts[i];
    }
  }

  /** What one more call changes about the first settling one. */
  lemma {:induction false} OneMoreCall(acts: seq<Act>, act: Act)
    ensures Settled(acts + [act]) <==> Settled(acts) || Settling(act)
    ensures Settled(acts) || !Settling(act) ==> FirstSettled(acts + [act]) == FirstSettled(acts)
    ensures !Settled(acts) && Settling(act) ==> FirstSettled(acts + [act]) == if act.Send? then STATUS_OK else act.status
    ensures !Settled(acts) ==> FirstSettled(acts) == STATUS_OK && Before(acts) == acts
    ensures Before(acts + [act]) == if Settled(acts) || Settling(act) then Before(acts) else acts + [act]
    decreases |acts|
  {
    var more := acts + [act];
    SettledFrom(more);
    if acts == [] {
      assert more[1..] == [] && more[0] == act;
    } else {
      assert more[1..] == acts[1..] + [act] && more[0] == acts[0];
      OneMoreCall(acts[1..], act);
      SettledFrom(acts);
      assert acts == [acts[0]] + acts[1..];
    }
  }

  /** The wire after some calls. */
  ghost predicate WireIs(w: Wire, acts: seq<Act>) {
    && w.live == SetBy(acts)
    && w.status == (if Settled(acts) then Some(FirstSettled(acts)) else None)
    && (Settled(acts) ==> w.headers == SetBy(Before(acts)))
    && w.body == (if Settled(acts) && AllowsBody(FirstSettled(acts)) then Written(acts) else "")
    && (!Settled(acts) ==> Written(acts) == "")
  }

  lemma Unfold(init: seq<Act>, act: Act)
    ensures var acts := init + [act];
            && SetBy(acts) == (if act.Set? then SetBy(init)[act.name := act.value] else SetBy(init))
            && Written(acts) == Written(init) + (if act.Send? then act.text else "")
  {
    assert (init + [act])[..|init|] == init;
  }

  lemma WireHead(w: Wire, init: seq<Act>, status: nat)
    requires WireIs(w, init)
    ensures WireIs(Headed(w, status), init + [Head(status)])
  {
    Unfold(init, Head(status));
    OneMoreCall(init, Head(status));
    assert Written(init) + "" == Written(init);
  }

  lemma WireSend(w: Wire, init: seq<Act>, text: string)
    requires WireIs(w, init)
    ensures WireIs(Sent(w, text), init + [Send(text)])
  {
    Unfold(init, Send(text));
    OneMoreCall(init, Send(text));
  }

  lemma WireSet(w: Wire, init: seq<Act>, name: string, value: string)
    requires WireIs(w, init)
    ensures WireIs(w.(live := w.live[name := value]), init + [Set(name, value)])
  {
    Unfold(init, Set(name, value));
    OneMoreCall(init, Set(name, value));
    assert Written(init) + "" == Written(init);
  }

  lemma {:induction false} ReceivedIs(acts: seq<Act>)
    ensures WireIs(Received(acts), acts)
  {
    if acts != [] {
      var init, last := acts[..|acts| - 1], acts[|acts| - 1];
      assert acts == init + [last];
      ReceivedIs(init);
      match last {
        case Set(name, value) => WireSet(Received(init), init, name, value);
        case Head(status) => WireHead(Received(init), init, status);
        case Send(text) => WireSend(Received(init), init, text);
      }
    }
  }

  /** What the client gets: the first status that settles the response, the headers set before
      it, and what was written, if that status allows a body. */
  lemma ClientSeesIs(acts: seq<Act>)
    ensures ClientSees(acts) ==
              Seen(FirstSettled(acts), SetBy(Before(acts)), if AllowsBody(FirstSettled(acts)) then Written(acts) else "")
  {
    ReceivedIs(acts);
    TapedIs(acts);
    if !Settled(acts) {
      OneMoreCall(acts, Send(""));
    }
  }

  // ----- When the recording is what the client got ------------------------------------------

  /**
   * Status, body and content type kept for replay are those the client got exactly when the
   * last WriteHeader repeats the status that settled the response, that status allows a body
   * or nothing was written, and the content type was not changed afterwards.
   */
  lemma FaithfulExact(acts: seq<Act>)
    ensures var kept, got := Recorded(acts), ClientSees(acts);
            (kept.status == got.status && kept.body == got.body && kept.contentType == TypeOf(got.headers)) <==>
              && LastHead(acts) == FirstSettled(acts)
              && (AllowsBody(FirstSettled(acts)) || Written(acts) == "")
              && TypeOf(SetBy(acts)) == TypeOf(SetBy(Before(acts)))
  {
    TapedIs(acts);
    ClientSeesIs(acts);
  }

  /** The replay is the whole response the first client got exactly when the last WriteHeader
      repeats the status that settled the response, the content type was not changed
      afterwards, and no other header, nor an empty content type, was set before. */
  lemma VerbatimExact(acts: seq<Act>)
    ensures Replayed(Recorded(acts)) == ClientSees(acts) <==>
              && LastHead(acts) == FirstSettled(acts)
              && TypeOf(SetBy(acts)) == TypeOf(SetBy(Before(acts)))
              && (forall name | name in SetBy(Before(acts)) :: name == CONTENT_TYPE && SetBy(Before(acts))[name] != "")
  {
    TapedIs(acts);
    ClientSeesIs(acts);
    var before, kept := SetBy(Before(acts)), Replayed(Recorded(acts)).headers;
    if kept == before {
      assert forall name | name in before :: name in kept;
    }
    if TypeOf(SetBy(acts)) == TypeOf(before) && forall name | name in before :: name == CONTENT_TYPE && before[name] != "" {
      assert forall name :: name in kept <==> name in before;
      assert kept == before;
    }
  }

  lemma FirstSettles(status: nat, rest: seq<Act>)
    requires Settles(status)
    ensures FirstSettled([Head(status)] + rest) == status && Before([Head(status)] + rest) == []
  {
  }

  /** A failure sent to the client and followed by a second WriteHeader is kept as the second. */
  lemma LateStatusKept(first: nat, second: nat)
    requires Settles(first)
    ensures var acts := [Head(first)] + [Head(second)];
            Recorded(acts).status == second && ClientSees(acts).status == first
  {
    var acts := [Head(first)] + [Head(second)];
    FirstSettles(first, [Head(second)]);
    TapedIs(acts);
    ClientSeesIs(acts);
  }

  /** A content type set after the status is kept and replayed, and the first client never got
      it, although status and body are recorded faithfully. */
  lemma LateTypeKept(status: nat, value: string, text: string)
    requires Settles(status) && AllowsBody(status) && value != ""
    ensures var acts := [Head(status)] + [Set(CONTENT_TYPE, value), Send(text)];
            && Recorded(acts) == Response(status, text, value)
            && ClientSees(acts) == Seen(status, map[], text)
            && Replayed(Recorded(acts)).headers == map[CONTENT_TYPE := value]
  {
    var acts := [Head(status)] + [Set(CONTENT_TYPE, value), Send(text)];
    FirstSettles(status, [Set(CONTENT_TYPE, value), Send(text)]);
    TapedIs(acts);
    ClientSeesIs(acts);
    var two, one := acts[..2], acts[..1];
    assert two[..1] == one && one[..0] == [];
    assert LastHead(acts) == LastHead(two) == LastHead(one) == status;
    assert Written(acts) == Written(two) + text && Written(two) == Written(one) == "";
    assert SetBy(acts) == SetBy(two) == map[CONTENT_TYPE := value];
  }

  /** A header other than the content type reaches the first client and no other. */
  lemma OtherHeadersLost(name: string, value: string, status: nat)
    requires name != CONTENT_TYPE && Settles(status)
    ensures var acts := [Set(name, value), Head(status)];
            ClientSees(acts).headers == map[name := value] && Replayed(Recorded(acts)).headers == map[]
  {
    var acts := [Set(name, value), Head(status)];
    assert acts[1..] == [Head(status)] && acts[..1] == [Set(name, value)] && acts[..1][..0] == [];
    assert Before(acts[1..]) == [];
    assert Before(acts) == acts[..1];
    assert SetBy(acts[..1]) == map[name := value];
    assert SetBy(acts) == SetBy(acts[..1]);
    TapedIs(acts);
    ClientSeesIs(acts);
  }
}
