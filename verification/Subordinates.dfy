/**
 * The reporting hierarchy: everyone in a tenant who reports, directly or through others, to a
 * given member. A recursive query seeds with the member and joins, level by level, the
 * active members that report to the level before. Duplicates are not removed.
 */
module Subordinates {
  import opened Options

  datatype Member = Member(tenant: nat, reportsTo: Option<nat>, active: bool)

  type Table = map<nat, Member>

  predicate Eligible(tb: Table, tenant: nat, m: nat) {
    m in tb && tb[m].tenant == tenant && tb[m].active
  }

  /** The join condition. */
  predicate ReportsTo(tb: Table, tenant: nat, m: nat, boss: nat) {
    Eligible(tb, tenant, m) && tb[m].reportsTo == Some(boss)
  }

  // ----- Levels and chains ------------------------------------------------------------------

  /** The members the query adds in its i-th round. */
  ghost function Level(tb: Table, tenant: nat, actor: nat, i: nat): set<nat> {
    if i == 0 then (if Eligible(tb, tenant, actor) then {actor} else {})
    else set m | m in tb && exists boss :: boss in Level(tb, tenant, actor, i - 1) && ReportsTo(tb, tenant, m, boss)
  }

  /** m was added before round n. */
  ghost predicate InLevels(tb: Table, tenant: nat, actor: nat, n: nat, m: nat) {
    exists k: nat :: k < n && m in Level(tb, tenant, actor, k)
  }

  /** Going up i times from m through active members of the tenant. */
  ghost function Ascend(tb: Table, tenant: nat, m: nat, i: nat): Option<nat>
    decreases i
  {
    if !Eligible(tb, tenant, m) then None
    else if i == 0 then Some(m)
    else if tb[m].reportsTo.None? then None
    else Ascend(tb, tenant, tb[m].reportsTo.value, i - 1)
  }

  /** m is the actor or reports up to the actor. */
  ghost predicate ReportsUp(tb: Table, tenant: nat, m: nat, actor: nat) {
    exists i: nat :: Ascend(tb, tenant, m, i) == Some(actor)
  }

  /** The actor reports up to itself. */
  ghost predicate OnCycle(tb: Table, tenant: nat, actor: nat) {
    exists p: nat :: p >= 1 && Ascend(tb, tenant, actor, p) == Some(actor)
  }

  lemma {:induction false} LevelIsChain(tb: Table, tenant: nat, actor: nat, i: nat, m: nat)
    ensures m in Level(tb, tenant, actor, i) <==> Ascend(tb, tenant, m, i) == Some(actor)
    decreases i
  {
    if i > 0 && m in tb && tb[m].reportsTo.Some? {
      var boss := tb[m].reportsTo.value;
      LevelIsChain(tb, tenant, actor, i - 1, boss);
      assert ReportsTo(tb, tenant, m, boss) <==> Eligible(tb, tenant, m);
    }
  }

  lemma {:induction false} AscendOn(tb: Table, tenant: nat, m: nat, i: nat, j: nat)
    requires Ascend(tb, tenant, m, i).Some?
    ensures Ascend(tb, tenant, m, i + j) == Ascend(tb, tenant, Ascend(tb, tenant, m, i).value, j)
    decreases i
  {
    if i > 0 {
      AscendOn(tb, tenant, tb[m].reportsTo.value, i - 1, j);
    }
  }

  lemma {:induction false} AscendBelow(tb: Table, tenant: nat, m: nat, i: nat, n: nat)
    requires i <= n && Ascend(tb, tenant, m, n).Some?
    ensures Ascend(tb, tenant, m, i).Some? && Ascend(tb, tenant, m, i).value in tb
    decreases i
  {
    if i > 0 {
      AscendBelow(tb, tenant, tb[m].reportsTo.value, i - 1, n - 1);
    }
  }

  /** A chain that meets itself puts its top on a cycle. */
  lemma RepeatIsCycle(tb: Table, tenant: nat, m: nat, actor: nat, i: nat, j: nat, n: nat)
    requires i < j <= n && Ascend(tb, tenant, m, n) == Some(actor)
    requires Ascend(tb, tenant, m, i) == Ascend(tb, tenant, m, j)
    ensures OnCycle(tb, tenant, actor)
  {
    AscendBelow(tb, tenant, m, i, n);
    var b := Ascend(tb, tenant, m, i).value;
    var p, k := j - i, n - i;
    AscendOn(tb, tenant, m, i, p);
    assert Ascend(tb, tenant, b, p) == Some(b);
    AscendOn(tb, tenant, m, i, k);
    assert Ascend(tb, tenant, b, k) == Some(actor);
    AscendOn(tb, tenant, b, p, k);
    AscendOn(tb, tenant, b, k, p);
    assert Ascend(tb, tenant, actor, p) == Some(actor);
  }

  /** The members met on the first k steps up. */
  ghost function Met(tb: Table, tenant: nat, m: nat, k: nat): set<nat> {
    set i: nat | i < k && Ascend(tb, tenant, m, i).Some? :: Ascend(tb, tenant, m, i).value
  }

  lemma {:induction false} MetDistinct(tb: Table, tenant: nat, m: nat, actor: nat, n: nat, k: nat)
    requires k <= n + 1 && Ascend(tb, tenant, m, n) == Some(actor) && !OnCycle(tb, tenant, actor)
    ensures |Met(tb, tenant, m, k)| == k && Met(tb, tenant, m, k) <= tb.Keys
    decreases k
  {
    if k > 0 {
      MetDistinct(tb, tenant, m, actor, n, k - 1);
      AscendBelow(tb, tenant, m, k - 1, n);
      var top := Ascend(tb, tenant, m, k - 1).value;
      assert Met(tb, tenant, m, k) == Met(tb, tenant, m, k - 1) + {top};
      if top in Met(tb, tenant, m, k - 1) {
        var i: nat :| i < k - 1 && Ascend(tb, tenant, m, i) == Some(top);
        RepeatIsCycle(tb, tenant, m, actor, i, k - 1, n);
        assert false;
      }
    }
  }

  lemma {:induction false} SubsetSize(a: set<nat>, b: set<nat>)
    requires a <= b
    ensures |a| <= |b|
  {
    assert b == a + (b - a);
  }

  /** Off a cycle, a level that is not empty is below the number of members. */
  lemma LevelsEnd(tb: Table, tenant: nat, actor: nat, n: nat)
    requires !OnCycle(tb, tenant, actor) && Level(tb, tenant, actor, n) != {}
    ensures n < |tb|
  {
    var m :| m in Level(tb, tenant, actor, n);
    LevelIsChain(tb, tenant, actor, n, m);
    MetDistinct(tb, tenant, m, actor, n, n + 1);
    SubsetSize(Met(tb, tenant, m, n + 1), tb.Keys);
    assert |tb| == |tb.Keys|;
  }

  lemma {:induction false} AroundAgain(tb: Table, tenant: nat, actor: nat, p: nat, times: nat)
    requires Ascend(tb, tenant, actor, p) == Some(actor)
    ensures Ascend(tb, tenant, actor, times * p) == Some(actor)
    decreases times
  {
    if times > 0 {
      AroundAgain(tb, tenant, actor, p, times - 1);
      AscendOn(tb, tenant, actor, p, (times - 1) * p);
      assert times * p == p + (times - 1) * p;
    } else {
      AscendBelow(tb, tenant, actor, 0, p);
      assert Ascend(tb, tenant, actor, 0) == Some(actor);
    }
  }

  /** On a cycle no level is ever empty. */
  lemma CycleNeverEnds(tb: Table, tenant: nat, actor: nat, n: nat)
    requires OnCycle(tb, tenant, actor)
    ensures Level(tb, tenant, actor, n) != {}
  {
    var p: nat :| p >= 1 && Ascend(tb, tenant, actor, p) == Some(actor);
    AroundAgain(tb, tenant, actor, p, n);
    assert n * p >= n;
    var below := n * p - n;
    AscendBelow(tb, tenant, actor, below, n * p);
    var m := Ascend(tb, tenant, actor, below).value;
    AscendOn(tb, tenant, actor, below, n);
    LevelIsChain(tb, tenant, actor, n, m);
  }

  /** The recursive query comes to an end exactly when the actor is not on a reporting cycle
      of active members. */
  lemma TerminatesExact(tb: Table, tenant: nat, actor: nat)
    ensures (exists n: nat :: Level(tb, tenant, actor, n) == {}) <==> !OnCycle(tb, tenant, actor)
  {
    if !OnCycle(tb, tenant, actor) {
      if Level(tb, tenant, actor, |tb|) != {} {
        LevelsEnd(tb, tenant, actor, |tb|);
        assert false;
      }
      assert Level(tb, tenant, actor, |tb|) == {};
    } else if n: nat :| Level(tb, tenant, actor, n) == {} {
      CycleNeverEnds(tb, tenant, actor, n);
      assert false;
    }
  }

  /** Nobody is in two levels, unless the query does not end. */
  lemma LevelsDisjoint(tb: Table, tenant: nat, actor: nat, i: nat, j: nat, m: nat)
    requires i < j && m in Level(tb, tenant, actor, i) && m in Level(tb, tenant, actor, j)
    ensures OnCycle(tb, tenant, actor)
  {
    LevelIsChain(tb, tenant, actor, i, m);
    LevelIsChain(tb, tenant, actor, j, m);
    RepeatIsCycle(tb, tenant, m, actor, i, j, j);
  }

  // ----- The query, row by row -----------------------------------------------------------------

  /** How often m occurs. */
  function Times(s: seq<nat>, m: nat): nat {
    multiset(s)[m]
  }

  /** How many rows of the level before a member is joined with. */
  function Matches(tb: Table, tenant: nat, m: nat, working: seq<nat>): nat {
    if Eligible(tb, tenant, m) && tb[m].reportsTo.Some? then Times(working, tb[m].reportsTo.value) else 0
  }

  /** One round: every member against every row of the level before, keeping each match. */
  method Join(tb: Table, tenant: nat, working: seq<nat>) returns (next: seq<nat>)
    ensures forall m: nat :: Times(next, m) == Matches(tb, tenant, m, working)
  {
    next := [];
    var pending := tb.Keys;
    while pending != {}
      invariant pending <= tb.Keys
      invariant forall m: nat :: Times(next, m) == if m in pending then 0 else Matches(tb, tenant, m, working)
      decreases |pending|
    {
      var m :| m in pending;
      pending := pending - {m};
      ghost var before := next;
      for c := 0 to |working|
        invariant forall x: nat :: x != m ==> Times(next, x) == Times(before, x)
        invariant Times(next, m) == Matches(tb, tenant, m, working[..c])
      {
        assert working[..c + 1] == working[..c] + [working[c]];
        if ReportsTo(tb, tenant, m, working[c]) {
          next := next + [m];
        }
      }
      assert working[..|working|] == working;
    }
  }

  /** The whole query and the loop that collects its rows. It lists the actor and everybody
      who reports up to the actor through active members of the tenant, each exactly once;
      nobody when the actor is no active member. */
  method ListSubordinates(tb: Table, tenant: nat, actor: nat) returns (out: seq<nat>)
    requires !OnCycle(tb, tenant, actor)
    ensures forall m: nat :: Times(out, m) == if ReportsUp(tb, tenant, m, actor) then 1 else 0
  {
    var working: seq<nat> := [];
    if Eligible(tb, tenant, actor) {
      working := [actor];
    }
    out := [];
    ghost var i: nat := 0;
    while working != []
      invariant forall m: nat :: Times(working, m) == if m in Level(tb, tenant, actor, i) then 1 else 0
      invariant forall m: nat :: Times(out, m) == if InLevels(tb, tenant, actor, i, m) then 1 else 0
      decreases |tb| - i
    {
      assert Times(working, working[0]) > 0;
      LevelsEnd(tb, tenant, actor, i);
      forall m: nat ensures Times(out + working, m) == if InLevels(tb, tenant, actor, i + 1, m) then 1 else 0 {
        OneMoreLevel(tb, tenant, actor, i, m);
      }
      out := out + working;
      ghost var level := working;
      working := Join(tb, tenant, working);
      forall m: nat ensures Times(working, m) == if m in Level(tb, tenant, actor, i + 1) then 1 else 0 {
        JoinIsLevel(tb, tenant, actor, i, level, m);
      }
      i := i + 1;
    }
    assert forall m: nat :: Times(working, m) == 0;
    assert Level(tb, tenant, actor, i) == {};
    forall m: nat ensures InLevels(tb, tenant, actor, i, m) <==> ReportsUp(tb, tenant, m, actor) {
      AllLevels(tb, tenant, actor, i, m);
    }
  }

  lemma JoinIsLevel(tb: Table, tenant: nat, actor: nat, i: nat, working: seq<nat>, m: nat)
    requires forall x: nat :: Times(working, x) == if x in Level(tb, tenant, actor, i) then 1 else 0
    ensures Matches(tb, tenant, m, working) == if m in Level(tb, tenant, actor, i + 1) then 1 else 0
  {
    if Eligible(tb, tenant, m) && tb[m].reportsTo.Some? {
      assert ReportsTo(tb, tenant, m, tb[m].reportsTo.value);
    }
  }

  /** Off a cycle a member is added in one round at most. */
  lemma OneMoreLevel(tb: Table, tenant: nat, actor: nat, n: nat, m: nat)
    requires !OnCycle(tb, tenant, actor)
    ensures InLevels(tb, tenant, actor, n + 1, m) <==> InLevels(tb, tenant, actor, n, m) || m in Level(tb, tenant, actor, n)
    ensures !(InLevels(tb, tenant, actor, n, m) && m in Level(tb, tenant, actor, n))
  {
    if InLevels(tb, tenant, actor, n, m) && m in Level(tb, tenant, actor, n) {
      var k: nat :| k < n && m in Level(tb, tenant, actor, k);
      LevelsDisjoint(tb, tenant, actor, k, n, m);
      assert false;
    }
  }

  /** After an empty level there is nobody left. */
  lemma AllLevels(tb: Table, tenant: nat, actor: nat, n: nat, m: nat)
    requires Level(tb, tenant, actor, n) == {}
    ensures InLevels(tb, tenant, actor, n, m) <==> ReportsUp(tb, tenant, m, actor)
  {
    if InLevels(tb, tenant, actor, n, m) {
      var k: nat :| k < n && m in Level(tb, tenant, actor, k);
      LevelIsChain(tb, tenant, actor, k, m);
    }
    if ReportsUp(tb, tenant, m, actor) {
      var k: nat :| Ascend(tb, tenant, m, k) == Some(actor);
      LevelIsChain(tb, tenant, actor, k, m);
      if k >= n {
        EmptyStays(tb, tenant, actor, n, k);
      }
    }
  }

  lemma {:induction false} EmptyStays(tb: Table, tenant: nat, actor: nat, n: nat, k: nat)
    requires n <= k && Level(tb, tenant, actor, n) == {}
    ensures Level(tb, tenant, actor, k) == {}
    decreases k
  {
    if k > n {
      EmptyStays(tb, tenant, actor, n, k - 1);
    }
  }
}
