/**
 * What deliveries do to the application. A successful attempt changes the application state in
 * the step in which it is made, and the machine keeps a record of which delivery made it and
 * of what the other deliveries were doing when a delivery found no processed row.
 */
module Effects {
  import opened Delivery

  // ----- Histories of items ---------------------------------------------------------------------

  /** The items whose attempts succeeded, in order, repetitions included. */
  function Successes(runs: seq<Run>): seq<Item> {
    if runs == [] then []
    else
      var rest, last := Successes(runs[..|runs| - 1]), runs[|runs| - 1];
      if last.attempt.Succeeds? then rest + [last.item] else rest
  }

  /** Each item once, at the place of its first occurrence. */
  function Firsts(items: seq<Item>): seq<Item> {
    if items == [] then []
    else
      var rest, last := items[..|items| - 1], items[|items| - 1];
      if last in rest then Firsts(rest) else Firsts(rest) + [last]
  }

  /** The application state after the handlers took effect on the items in order. */
  function Fold<A>(apply: (A, Item) -> A, a: A, items: seq<Item>): A {
    if items == [] then a
    else apply(Fold(apply, a, items[..|items| - 1]), items[|items| - 1])
  }

  /** A handler is a no-op on an item that has already taken effect. */
  ghost predicate Idempotent<A(!new)>(apply: (A, Item) -> A, a: A) {
    forall items: seq<Item>, item: Item | item in items ::
      apply(Fold(apply, a, items), item) == Fold(apply, a, items)
  }

  ghost predicate Distinct(items: seq<Item>) {
    forall i, j | 0 <= i < j < |items| :: items[i] != items[j]
  }

  lemma {:induction false} SuccessesExact(runs: seq<Run>, item: Item)
    ensures item in Successes(runs) <==> Succeeded(runs, item)
  {
    if runs != [] {
      var rest, last := runs[..|runs| - 1], runs[|runs| - 1];
      SuccessesExact(rest, item);
      assert runs == rest + [last];
    }
  }

  lemma {:induction false} FirstsExact(items: seq<Item>)
    ensures Distinct(Firsts(items))
    ensures forall item :: item in Firsts(items) <==> item in items
  {
    if items != [] {
      var rest, last := items[..|items| - 1], items[|items| - 1];
      FirstsExact(rest);
      assert items == rest + [last];
    }
  }

  /** Firsts keeps the order of first occurrence: a longer history only appends to it. */
  lemma {:induction false} FirstsStable(items: seq<Item>, more: seq<Item>)
    ensures Firsts(items) <= Firsts(items + more)
    decreases |more|
  {
    if more == [] {
      assert items + more == items;
    } else {
      var init := more[..|more| - 1];
      FirstsStable(items, init);
      assert (items + more)[..|items + more| - 1] == items + init;
    }
  }

  lemma {:induction false} FirstsSuffice<A(!new)>(apply: (A, Item) -> A, a: A, items: seq<Item>)
    requires Idempotent(apply, a)
    ensures Fold(apply, a, items) == Fold(apply, a, Firsts(items))
  {
    if items != [] {
      var rest, last := items[..|items| - 1], items[|items| - 1];
      FirstsSuffice(apply, a, rest);
      if last in rest {
        assert apply(Fold(apply, a, rest), last) == Fold(apply, a, rest);
      } else {
        assert (Firsts(rest) + [last])[..|Firsts(rest)|] == Firsts(rest);
      }
    }
  }

  // ----- The machine with the application ---------------------------------------------------

  /** A delivery found no row; the deliveries as they stood at that moment. */
  datatype Passing = Passing(id: nat, flows: map<nat, Flow>)

  /** `passed` lists the lookups that found no row and `won` the deliveries whose attempt
      succeeded, both in order. */
  datatype Live<A> = Live(s: State, app: A, passed: seq<Passing>, won: seq<nat>)

  predicate Passes(s: State, a: Action)
    requires Enabled(s, a)
  {
    a.Advance? && s.flows[a.id].pc.Lookup? && a.signal.io.Done? && s.flows[a.id].item !in s.world.inbox
  }

  predicate Wins(s: State, a: Action)
    requires Enabled(s, a)
  {
    a.Advance? && s.flows[a.id].pc.Try? && a.signal.attempt.Succeeds?
  }

  function Begin<A>(a: A): Live<A> {
    Live(Start, a, [], [])
  }

  function Move<A>(apply: (A, Item) -> A, maxRetries: nat, t: Live<A>, a: Action): Live<A>
    requires Enabled(t.s, a)
  {
    Live(Step(maxRetries, t.s, a),
         if Wins(t.s, a) then apply(t.app, t.s.flows[a.id].item) else t.app,
         if Passes(t.s, a) then t.passed + [Passing(a.id, t.s.flows)] else t.passed,
         if Wins(t.s, a) then t.won + [a.id] else t.won)
  }

  function Moves<A>(apply: (A, Item) -> A, maxRetries: nat, t: Live<A>, run: seq<Action>): Live<A>
    requires Valid(maxRetries, t.s, run)
    decreases |run|
  {
    if run == [] then t else Moves(apply, maxRetries, Move(apply, maxRetries, t, run[0]), run[1..])
  }

  /** The record does not disturb the machine. */
  lemma {:induction false} MovesExec<A>(apply: (A, Item) -> A, maxRetries: nat, t: Live<A>, run: seq<Action>)
    requires Valid(maxRetries, t.s, run)
    ensures Moves(apply, maxRetries, t, run).s == Exec(maxRetries, t.s, run)
    decreases |run|
  {
    if run != [] {
      MovesExec(apply, maxRetries, Move(apply, maxRetries, t, run[0]), run[1..]);
    }
  }

  // ----- Effectively once -----------------------------------------------------------------------

  /** A step extends the successes by the item of the delivery that wins in it. */
  lemma SuccessesStep(maxRetries: nat, s: State, a: Action)
    requires Enabled(s, a)
    ensures Successes(Step(maxRetries, s, a).world.runs) ==
              Successes(s.world.runs) + if Wins(s, a) then [s.flows[a.id].item] else []
  {
    var runs, runs' := s.world.runs, Step(maxRetries, s, a).world.runs;
    if runs' != runs {
      assert runs'[..|runs'| - 1] == runs;
    }
  }

  lemma {:induction false} AppIsFold<A>(apply: (A, Item) -> A, maxRetries: nat, a: A, t: Live<A>, run: seq<Action>)
    requires Valid(maxRetries, t.s, run) && t.app == Fold(apply, a, Successes(t.s.world.runs))
    ensures var t' := Moves(apply, maxRetries, t, run);
            t'.app == Fold(apply, a, Successes(t'.s.world.runs))
    decreases |run|
  {
    if run != [] {
      SuccessesStep(maxRetries, t.s, run[0]);
      var before, after := Successes(t.s.world.runs), Successes(Step(maxRetries, t.s, run[0]).world.runs);
      if Wins(t.s, run[0]) {
        assert after[..|after| - 1] == before;
      }
      AppIsFold(apply, maxRetries, a, Move(apply, maxRetries, t, run[0]), run[1..]);
    }
  }

  /**
   * Effectively once. Attempts take effect atomically and are no-ops on what has already
   * taken effect. Then after any run, however often messages were redelivered, duplicated,
   * retried or caught by a crash between handler success and the row insert, the
   * application is in the state of applying each succeeded item exactly once, in order of
   * first success, and every item with a processed row is among them.
   */
  lemma EffectivelyOnce<A(!new)>(apply: (A, Item) -> A, maxRetries: nat, a: A, run: seq<Action>)
    requires Valid(maxRetries, Start, run) && Idempotent(apply, a)
    ensures var t := Moves(apply, maxRetries, Begin(a), run);
            var once := Firsts(Successes(t.s.world.runs));
            && t.app == Fold(apply, a, once)
            && Distinct(once)
            && (forall item :: item in once <==> Succeeded(t.s.world.runs, item))
            && (forall item | item in t.s.world.inbox :: item in once)
  {
    var t := Moves(apply, maxRetries, Begin(a), run);
    AppIsFold(apply, maxRetries, a, Begin(a), run);
    MovesExec(apply, maxRetries, Begin(a), run);
    RunInv(maxRetries, Start, run);
    FirstsSuffice(apply, a, Successes(t.s.world.runs));
    FirstsExact(Successes(t.s.world.runs));
    forall item ensures item in Successes(t.s.world.runs) <==> Succeeded(t.s.world.runs, item) {
      SuccessesExact(t.s.world.runs, item);
    }
  }

  // ----- What the inbox buys --------------------------------------------------------------------

  /** The delivery is past its lookup and has neither found nor left a row: it is on its way to
      one, was struck on the way, or is dealing with the failure of its attempts or its insert. */
  predicate Unrecorded(pc: Pc) {
    !pc.Lookup? && pc != Acked(FoundRow) && pc != Acked(Recorded)
  }

  /** When `late` found no row, `early` had looked before it and was still unrecorded. */
  ghost predicate Overlapped(passed: seq<Passing>, early: nat, late: nat) {
    exists j | 0 <= j < |passed| ::
      passed[j].id == late && early in passed[j].flows && Unrecorded(passed[j].flows[early].pc)
  }

  ghost predicate HasPassed(passed: seq<Passing>, id: nat) {
    exists i | 0 <= i < |passed| :: passed[i].id == id
  }

  /** Whoever found no row saw every earlier delivery of its item that had found none. */
  ghost predicate PassedInv(s: State, passed: seq<Passing>) {
    && (forall i | 0 <= i < |passed| :: passed[i].id in s.flows && !s.flows[passed[i].id].pc.Lookup?)
    && (forall id | id in s.flows && s.flows[id].pc.Try? :: HasPassed(passed, id))
    && (forall i, j | 0 <= i < j < |passed| && s.flows[passed[i].id].item == s.flows[passed[j].id].item ::
          Overlapped(passed, passed[i].id, passed[j].id))
  }

  /** A delivery wins at most once, and its successes are those of the history. */
  ghost predicate WonInv(s: State, passed: seq<Passing>, won: seq<nat>) {
    && |won| == |Successes(s.world.runs)|
    && (forall k | 0 <= k < |won| ::
          && won[k] in s.flows && s.flows[won[k]].item == Successes(s.world.runs)[k]
          && !s.flows[won[k]].pc.Lookup? && !s.flows[won[k]].pc.Try?
          && HasPassed(passed, won[k]))
    && (forall i, j | 0 <= i < j < |won| :: won[i] != won[j])
  }

  /** A step leaves the items of deliveries alone, and takes none back to its lookup or, once
      past them, to its attempts. */
  lemma FlowsStep(maxRetries: nat, s: State, a: Action, id: nat)
    requires Enabled(s, a) && id in s.flows
    ensures var s' := Step(maxRetries, s, a);
            && id in s'.flows && s'.flows[id].item == s.flows[id].item
            && (!s.flows[id].pc.Lookup? ==> !s'.flows[id].pc.Lookup?)
            && (!s.flows[id].pc.Lookup? && !s.flows[id].pc.Try? ==> !s'.flows[id].pc.Try?)
  {
  }

  /** A delivery comes to its attempts only by finding no row. */
  lemma TryStep(maxRetries: nat, s: State, a: Action, id: nat)
    requires Enabled(s, a) && id in Step(maxRetries, s, a).flows && Step(maxRetries, s, a).flows[id].pc.Try?
    ensures id in s.flows && (s.flows[id].pc.Try? || (Passes(s, a) && a.id == id))
  {
  }

  /** A delivery that finds no row sees the earlier ones of its item unrecorded. */
  lemma PassingSees(maxRetries: nat, s: State, a: Action, passed: seq<Passing>, i: nat)
    requires Inv(maxRetries, s) && PassedInv(s, passed) && Enabled(s, a) && Passes(s, a) && i < |passed|
    requires s.flows[passed[i].id].item == s.flows[a.id].item
    ensures Overlapped(passed + [Passing(a.id, s.flows)], passed[i].id, a.id)
  {
    var id := passed[i].id;
    var more := passed + [Passing(a.id, s.flows)];
    assert FlowOk(maxRetries, s.world, s.published, s.flows[id]);
    assert more[|passed|].id == a.id && id in more[|passed|].flows && Unrecorded(more[|passed|].flows[id].pc);
  }

  lemma OverlapKept(passed: seq<Passing>, p: Passing, early: nat, late: nat)
    ensures Overlapped(passed, early, late) ==> Overlapped(passed + [p], early, late)
    ensures HasPassed(passed, early) ==> HasPassed(passed + [p], early)
  {
    var more := passed + [p];
    if Overlapped(passed, early, late) {
      var j :| 0 <= j < |passed| && passed[j].id == late && early in passed[j].flows && Unrecorded(passed[j].flows[early].pc);
      assert more[j] == passed[j];
    }
    if HasPassed(passed, early) {
      var i :| 0 <= i < |passed| && passed[i].id == early;
      assert more[i] == passed[i];
    }
  }

  lemma PassedStep(maxRetries: nat, s: State, a: Action, passed: seq<Passing>)
    requires Inv(maxRetries, s) && PassedInv(s, passed) && Enabled(s, a)
    ensures PassedInv(Step(maxRetries, s, a), if Passes(s, a) then passed + [Passing(a.id, s.flows)] else passed)
  {
    var s' := Step(maxRetries, s, a);
    var passed' := if Passes(s, a) then passed + [Passing(a.id, s.flows)] else passed;
    forall i | 0 <= i < |passed'| ensures passed'[i].id in s'.flows && !s'.flows[passed'[i].id].pc.Lookup? {
      FlowsStep(maxRetries, s, a, passed'[i].id);
    }
    forall id | id in s'.flows && s'.flows[id].pc.Try? ensures HasPassed(passed', id) {
      TryStep(maxRetries, s, a, id);
      if s.flows[id].pc.Try? {
        OverlapKept(passed, Passing(id, s.flows), id, id);
        if Passes(s, a) {
          OverlapKept(passed, Passing(a.id, s.flows), id, id);
        }
      } else {
        assert passed'[|passed|].id == id;
      }
    }
    forall i, j | 0 <= i < j < |passed'| && s'.flows[passed'[i].id].item == s'.flows[passed'[j].id].item
      ensures Overlapped(passed', passed'[i].id, passed'[j].id)
    {
      FlowsStep(maxRetries, s, a, passed'[i].id);
      FlowsStep(maxRetries, s, a, passed'[j].id);
      if j == |passed| {
        PassingSees(maxRetries, s, a, passed, i);
      } else if Passes(s, a) {
        OverlapKept(passed, Passing(a.id, s.flows), passed[i].id, passed[j].id);
      }
    }
  }

  lemma WonStep(maxRetries: nat, s: State, a: Action, passed: seq<Passing>, won: seq<nat>)
    requires PassedInv(s, passed) && WonInv(s, passed, won) && Enabled(s, a)
    ensures WonInv(Step(maxRetries, s, a), if Passes(s, a) then passed + [Passing(a.id, s.flows)] else passed,
                   if Wins(s, a) then won + [a.id] else won)
  {
    var s' := Step(maxRetries, s, a);
    var won' := if Wins(s, a) then won + [a.id] else won;
    SuccessesStep(maxRetries, s, a);
    forall k | 0 <= k < |won'|
      ensures && won'[k] in s'.flows && s'.flows[won'[k]].item == Successes(s'.world.runs)[k]
              && !s'.flows[won'[k]].pc.Lookup? && !s'.flows[won'[k]].pc.Try?
    {
      FlowsStep(maxRetries, s, a, won'[k]);
    }
    if Passes(s, a) {
      forall k | 0 <= k < |won| ensures HasPassed(passed + [Passing(a.id, s.flows)], won[k]) {
        OverlapKept(passed, Passing(a.id, s.flows), won[k], won[k]);
      }
    }
  }

  lemma {:induction false} ChargeInv<A>(apply: (A, Item) -> A, maxRetries: nat, t: Live<A>, run: seq<Action>)
    requires Valid(maxRetries, t.s, run) && Inv(maxRetries, t.s)
    requires PassedInv(t.s, t.passed) && WonInv(t.s, t.passed, t.won)
    ensures var t' := Moves(apply, maxRetries, t, run);
            PassedInv(t'.s, t'.passed) && WonInv(t'.s, t'.passed, t'.won)
    decreases |run|
  {
    if run != [] {
      StepInv(maxRetries, t.s, run[0]);
      PassedStep(maxRetries, t.s, run[0], t.passed);
      WonStep(maxRetries, t.s, run[0], t.passed, t.won);
      ChargeInv(apply, maxRetries, Move(apply, maxRetries, t, run[0]), run[1..]);
    }
  }

  ghost function OfItem(ids: seq<nat>, flows: map<nat, Flow>, item: Item): set<nat> {
    set id | id in ids && id in flows && flows[id].item == item
  }

  /** The deliveries of an item whose attempt succeeded. */
  ghost function Winners<A>(t: Live<A>, item: Item): set<nat> {
    OfItem(t.won, t.s.flows, item)
  }

  /** Those that were unrecorded when another winner of the item found no row. */
  ghost function Charged<A>(t: Live<A>, item: Item): set<nat> {
    set id | id in Winners(t, item) && exists late :: late in Winners(t, item) && late != id && Overlapped(t.passed, id, late)
  }

  lemma TwoWinners<A>(t: Live<A>, item: Item, x: nat, y: nat)
    requires PassedInv(t.s, t.passed) && WonInv(t.s, t.passed, t.won)
    requires x in Winners(t, item) && y in Winners(t, item) && x != y
    ensures x in Charged(t, item) || y in Charged(t, item)
  {
    var kx :| 0 <= kx < |t.won| && t.won[kx] == x;
    var ky :| 0 <= ky < |t.won| && t.won[ky] == y;
    var i :| 0 <= i < |t.passed| && t.passed[i].id == x;
    var j :| 0 <= j < |t.passed| && t.passed[j].id == y;
    if i < j {
      assert Overlapped(t.passed, x, y);
    } else {
      assert Overlapped(t.passed, y, x);
    }
  }

  lemma AllButOne(ids: set<nat>, some: set<nat>)
    requires some <= ids && forall x, y | x in ids && y in ids && x != y :: x in some || y in some
    ensures |ids| <= 1 + |some|
  {
    var rest := ids - some;
    assert ids == some + rest;
    if rest != {} {
      var x :| x in rest;
      assert rest == {x};
    }
  }

  lemma AtMostOneUncharged<A>(t: Live<A>, item: Item)
    requires PassedInv(t.s, t.passed) && WonInv(t.s, t.passed, t.won)
    ensures |Winners(t, item)| <= 1 + |Charged(t, item)|
  {
    var winners, charged := Winners(t, item), Charged(t, item);
    forall x, y | x in winners && y in winners && x != y ensures x in charged || y in charged {
      TwoWinners(t, item, x, y);
    }
    AllButOne(winners, charged);
  }

  /** How often an item occurs. */
  function Times(items: seq<Item>, item: Item): nat {
    multiset(items)[item]
  }

  lemma OneMore(won: seq<nat>, flows: map<nat, Flow>, items: seq<Item>, item: Item)
    requires |won| == |items| > 0 && won[|won| - 1] !in won[..|won| - 1]
    requires won[|won| - 1] in flows && flows[won[|won| - 1]].item == items[|won| - 1]
    ensures var n := |won| - 1;
            var extra := if items[n] == item then 1 else 0;
            && |OfItem(won, flows, item)| == |OfItem(won[..n], flows, item)| + extra
            && Times(items, item) == Times(items[..n], item) + extra
  {
    var n := |won| - 1;
    assert won == won[..n] + [won[n]] && items == items[..n] + [items[n]];
    var before := OfItem(won[..n], flows, item);
    if items[n] == item {
      assert OfItem(won, flows, item) == before + {won[n]};
    } else {
      assert OfItem(won, flows, item) == before;
    }
  }

  lemma {:induction false} WinnersCount(won: seq<nat>, flows: map<nat, Flow>, items: seq<Item>, item: Item)
    requires |won| == |items| && forall i, j | 0 <= i < j < |won| :: won[i] != won[j]
    requires forall k | 0 <= k < |won| :: won[k] in flows && flows[won[k]].item == items[k]
    ensures |OfItem(won, flows, item)| == Times(items, item)
    decreases |won|
  {
    if won == [] {
      assert OfItem(won, flows, item) == {};
    } else {
      var n := |won| - 1;
      WinnersCount(won[..n], flows, items[..n], item);
      OneMore(won, flows, items, item);
    }
  }

  /**
   * What the inbox buys, whatever the handlers do. In every run an item succeeds at most once
   * more than there are distinct deliveries charged for it: each of them, having found no row,
   * was still short of its own row when another delivery of the item found none either. It
   * overlapped with that delivery, was struck by a crash, or its insert had failed.
   */
  lemma RepeatsCharged<A>(apply: (A, Item) -> A, maxRetries: nat, a: A, run: seq<Action>, item: Item)
    requires Valid(maxRetries, Start, run)
    ensures var t := Moves(apply, maxRetries, Begin(a), run);
            && Times(Successes(t.s.world.runs), item) <= 1 + |Charged(t, item)|
            && Times(Successes(t.s.world.runs), item) == |Winners(t, item)|
  {
    ChargeInv(apply, maxRetries, Begin(a), run);
    var t := Moves(apply, maxRetries, Begin(a), run);
    AtMostOneUncharged(t, item);
    WinnersCount(t.won, t.s.flows, Successes(t.s.world.runs), item);
  }

  /** Hence an item of which no successful delivery was without its row when another found none,
      as when they do not overlap, are not struck and do not lose their insert, succeeds at
      most once. */
  lemma UnchargedOnce<A>(apply: (A, Item) -> A, maxRetries: nat, a: A, run: seq<Action>, item: Item)
    requires Valid(maxRetries, Start, run)
    requires var t := Moves(apply, maxRetries, Begin(a), run);
             forall early, late | early in Winners(t, item) && late in Winners(t, item) && early != late ::
               !Overlapped(t.passed, early, late)
    ensures Times(Successes(Moves(apply, maxRetries, Begin(a), run).s.world.runs), item) <= 1
  {
    RepeatsCharged(apply, maxRetries, a, run, item);
    assert Charged(Moves(apply, maxRetries, Begin(a), run), item) == {};
  }
}
