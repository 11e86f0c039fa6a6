/**
 * The two-tier facade as an object whose methods run one after another. Its tiers may
 * lose entries at any time, L2 may fail to answer, and an L1 insert may be dropped. The
 * main result is that the cache is transparent: a Get returns what the factory would
 * return now, for every key whose last source write was followed by an Invalidate or a
 * write-through Set that returned nil.
 */
module CacheFacade {
  import CacheFence

  type Key = CacheFence.Key
  type Value = CacheFence.Value
  type Source = CacheFence.Source
  type Tier = map<Key, Value>

  datatype Outcome<T> = Ok(value: T) | Err

  /** A write to Redis is acknowledged, refused, or applied with its reply lost. */
  datatype Reply = Acked | Refused | Lost

  /** How the surroundings answer during one call: the codec, Redis, the factory and
      ristretto's admission; `bumps` counts the mutations of other callers that fall into
      the factory's source read. */
  datatype Env = Env(l1Decodes: bool, l2Reads: bool, factoryRuns: bool, encodes: bool,
                     l2: Reply, l1Admits: bool, bumps: nat)

  datatype Tiers = Tiers(gen: nat, l1: Tier, l2: Tier)

  // ----- What the methods compute -----------------------------------------------------

  function Wrote(m: Tier, k: Key, v: Value, reply: Reply): Tier {
    if reply.Refused? then m else m[k := v]
  }

  function Admitted(m: Tier, k: Key, v: Value, admits: bool): Tier {
    if admits || k in m then m[k := v] else m
  }

  function Filled(omitL1: bool, t: Tiers, k: Key, source: Source, env: Env): (Tiers, Outcome<Value>) {
    var t1 := t.(gen := t.gen + env.bumps);
    if !env.factoryRuns || k !in source then
      (t1, Err)
    else if !env.encodes || env.bumps > 0 then
      (t1, Ok(source[k]))
    else
      (Tiers(t1.gen,
             if omitL1 then t.l1 else Admitted(t.l1, k, source[k], env.l1Admits),
             Wrote(t.l2, k, source[k], env.l2)),
       Ok(source[k]))
  }

  function Got(omitL1: bool, t: Tiers, k: Key, source: Source, env: Env): (Tiers, Outcome<Value>) {
    if !omitL1 && k in t.l1 && env.l1Decodes then
      (t, Ok(t.l1[k]))
    else if k in t.l2 && env.l2Reads then
      (if omitL1 then t else t.(l1 := Admitted(t.l1, k, t.l2[k], env.l1Admits)), Ok(t.l2[k]))
    else
      Filled(omitL1, t, k, source, env)
  }

  function Evicted(omitL1: bool, t: Tiers, ks: seq<Key>, env: Env): (Tiers, Outcome<()>) {
    if ks == [] then (t, Ok(()))
    else
      var gone := set k | k in ks;
      (Tiers(t.gen + 1, if omitL1 then t.l1 else t.l1 - gone, if env.l2.Refused? then t.l2 else t.l2 - gone),
       if env.l2.Acked? then Ok(()) else Err)
  }

  function Stored(omitL1: bool, t: Tiers, k: Key, v: Value, env: Env): (Tiers, Outcome<()>) {
    if !env.encodes then (t, Err)
    else
      (Tiers(t.gen + 1,
             if omitL1 || !env.l2.Acked? then t.l1 else Admitted(t.l1, k, v, env.l1Admits),
             Wrote(t.l2, k, v, env.l2)),
       if env.l2.Acked? then Ok(()) else Err)
  }

  // ----- The object ---------------------------------------------------------------------

  class Facade {
    const omitL1: bool
    var gen: nat
    var l1: Tier
    var l2: Tier

    constructor (omitL1: bool)
      ensures this.omitL1 == omitL1 && View() == Tiers(0, map[], map[])
    {
      this.omitL1 := omitL1;
      gen, l1, l2 := 0, map[], map[];
    }

    ghost function View(): Tiers
      reads this
    {
      Tiers(gen, l1, l2)
    }

    method Get(k: Key, source: Source, env: Env) returns (r: Outcome<Value>)
      modifies this
      ensures (View(), r) == Got(omitL1, old(View()), k, source, env)
    {
      if !omitL1 {
        if k in l1 && env.l1Decodes {
          return Ok(l1[k]);
        }
      }
      if env.l2Reads && k in l2 {
        var v := l2[k];
        if !omitL1 {
          SetL1(k, v, env.l1Admits);
        }
        return Ok(v);
      }
      var genBefore := gen;
      gen := gen + env.bumps;
      if !env.factoryRuns || k !in source {
        return Err;
      }
      var v := source[k];
      if !env.encodes {
        return Ok(v);
      }
      if gen != genBefore {
        return Ok(v);
      }
      var _ := SetL2(k, v, env.l2);
      if !omitL1 {
        SetL1(k, v, env.l1Admits);
      }
      return Ok(v);
    }

    method SetL1(k: Key, v: Value, admits: bool)
      modifies this`l1
      ensures l1 == Admitted(old(l1), k, v, admits)
    {
      if admits || k in l1 {
        l1 := l1[k := v];
      }
    }

    method SetL2(k: Key, v: Value, reply: Reply) returns (ok: bool)
      modifies this`l2
      ensures l2 == Wrote(old(l2), k, v, reply) && ok == reply.Acked?
    {
      if !reply.Refused? {
        l2 := l2[k := v];
      }
      ok := reply.Acked?;
    }

    method Invalidate(k: Key, env: Env) returns (r: Outcome<()>)
      modifies this
      ensures (View(), r) == Evicted(omitL1, old(View()), [k], env)
    {
      gen := gen + 1;
      if !omitL1 {
        l1 := l1 - {k};
      }
      if !env.l2.Refused? {
        l2 := l2 - {k};
      }
      assert (set x | x in [k]) == {k};
      r := if env.l2.Acked? then Ok(()) else Err;
    }

    method InvalidateMany(ks: seq<Key>, env: Env) returns (r: Outcome<()>)
      modifies this
      ensures (View(), r) == Evicted(omitL1, old(View()), ks, env)
    {
      if |ks| == 0 {
        return Ok(());
      }
      gen := gen + 1;
      ghost var was := l1;
      for i := 0 to |ks|
        invariant gen == old(gen) + 1 && l2 == old(l2)
        invariant l1 == if omitL1 then was else was - (set k | k in ks[..i])
      {
        if !omitL1 {
          l1 := l1 - {ks[i]};
        }
        assert ks[..i + 1] == ks[..i] + [ks[i]];
      }
      assert ks[..|ks|] == ks;
      if !env.l2.Refused? {
        l2 := l2 - (set k | k in ks);
      }
      r := if env.l2.Acked? then Ok(()) else Err;
    }

    method Set(k: Key, v: Value, env: Env) returns (r: Outcome<()>)
      modifies this
      ensures (View(), r) == Stored(omitL1, old(View()), k, v, env)
    {
      if !env.encodes {
        return Err;
      }
      gen := gen + 1;
      var ok := SetL2(k, v, env.l2);
      if !ok {
        return Err;
      }
      if !omitL1 {
        SetL1(k, v, env.l1Admits);
      }
      r := Ok(());
    }
  }

  // ----- Runs -----------------------------------------------------------------------------

  datatype Op =
    | DoGet(key: Key, env: Env)
    | DoInvalidate(keys: seq<Key>, env: Env)
    | DoSet(key: Key, value: Value, env: Env)
    | WriteSource(key: Key, value: Value)
    | DeleteSource(key: Key)
    | Expire(l1Keys: set<Key>, l2Keys: set<Key>)

  /** `dirty` holds the keys whose source changed since the last Invalidate or matching Set
      that returned nil, and the keys a Set gave a value other than the source's. */
  datatype World = World(omitL1: bool, tiers: Tiers, source: Source, dirty: set<Key>)

  function Do(w: World, op: Op): World {
    match op
    case DoGet(k, env) => w.(tiers := Got(w.omitL1, w.tiers, k, w.source, env).0)
    case DoInvalidate(ks, env) =>
      var (t, r) := Evicted(w.omitL1, w.tiers, ks, env);
      w.(tiers := t, dirty := if r.Ok? then w.dirty - (set k | k in ks) else w.dirty)
    case DoSet(k, v, env) =>
      var (t, r) := Stored(w.omitL1, w.tiers, k, v, env);
      w.(tiers := t,
         dirty := if k !in w.source || w.source[k] != v then w.dirty + {k}
                  else if r.Ok? then w.dirty - {k} else w.dirty)
    case WriteSource(k, v) => w.(source := w.source[k := v], dirty := w.dirty + {k})
    case DeleteSource(k) => w.(source := w.source - {k}, dirty := w.dirty + {k})
    case Expire(ks1, ks2) => w.(tiers := Tiers(w.tiers.gen, w.tiers.l1 - ks1, w.tiers.l2 - ks2))
  }

  function Run(w: World, ops: seq<Op>): World
    decreases |ops|
  {
    if ops == [] then w else Run(Do(w, ops[0]), ops[1..])
  }

  ghost predicate Agrees(m: Tier, source: Source, dirty: set<Key>) {
    forall k | k in m && k !in dirty :: k in source && source[k] == m[k]
  }

  ghost predicate Coherent(w: World) {
    && (w.omitL1 ==> w.tiers.l1 == map[])
    && Agrees(w.tiers.l1, w.source, w.dirty)
    && Agrees(w.tiers.l2, w.source, w.dirty)
  }

  lemma DoCoherent(w: World, op: Op)
    requires Coherent(w)
    ensures Coherent(Do(w, op))
  {
  }

  lemma {:induction false} RunCoherent(w: World, ops: seq<Op>)
    requires Coherent(w)
    ensures Coherent(Run(w, ops))
    decreases |ops|
  {
    if ops != [] {
      DoCoherent(w, ops[0]);
      RunCoherent(Do(w, ops[0]), ops[1..]);
    }
  }

  /**
   * Transparency. Start from empty tiers and run any sequence of calls, source changes,
   * expiries and failures. For a key that is not dirty, a Get that follows returns exactly
   * what the factory would return, and it fails only when the factory itself would.
   */
  lemma CacheIsTransparent(omitL1: bool, source: Source, ops: seq<Op>, k: Key, env: Env)
    ensures var w := Run(World(omitL1, Tiers(0, map[], map[]), source, {}), ops);
            var r := Got(w.omitL1, w.tiers, k, w.source, env).1;
            k !in w.dirty ==>
              && (r.Ok? ==> k in w.source && r.value == w.source[k])
              && (r.Err? ==> !env.factoryRuns || k !in w.source)
  {
    RunCoherent(World(omitL1, Tiers(0, map[], map[]), source, {}), ops);
  }

  /**
   * The cache is real: after a Get that reached the factory and cached its answer, the next
   * Get with answering tiers returns that same answer although the source has moved on.
   */
  lemma CacheServesUntilInvalidated(omitL1: bool, t: Tiers, k: Key, source: Source, later: Source, env: Env, again: Env)
    requires k in source && k !in t.l1 && k !in t.l2
    requires env.factoryRuns && env.encodes && env.bumps == 0 && !env.l2.Refused?
    requires again.l2Reads
    ensures Got(omitL1, Got(omitL1, t, k, source, env).0, k, later, again).1 == Ok(source[k])
  {
  }
}
