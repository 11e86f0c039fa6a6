/**
 * The store of idempotent command results: responses kept under (caller, command id) until
 * they expire, replayed only to a request with the same body, and swept now and then.
 */
module IdempotencyStore {

  /** Instants count from the zero time. */
  type Time = nat
  const ZERO_TIME: Time := 0
  const MAX_CALLER_ID_LEN := 200
  /** The nil UUID. */
  const NIL_KEY: nat := 0

  /** What the first execution answered, as far as it is kept for replay. */
  datatype Response = Response(status: int, body: string, contentType: string)

  datatype Scope = Scope(caller: string, key: nat)

  /** A stored response; bodies are compared by their SHA-256 digest. */
  datatype Record = Record(scope: Scope, digest: nat, response: Response, createdAt: Time, expiresAt: Time)

  datatype Lookup = Absent | Mismatch | Hit(record: Record)

  predicate Expired(r: Record, now: Time) {
    !(now < r.expiresAt)
  }

  function LookUp(records: map<Scope, Record>, now: Time, scope: Scope, digest: nat): Lookup {
    if scope !in records || Expired(records[scope], now) then Absent
    else if records[scope].digest != digest then Mismatch
    else Hit(records[scope])
  }

  /** What both stores check before they keep a record. */
  predicate Storable(r: Record) {
    && r.scope.key != NIL_KEY
    && 1 <= |r.scope.caller| <= MAX_CALLER_ID_LEN
    && r.expiresAt != ZERO_TIME
    && 100 <= r.response.status <= 599
  }

  function Stored(records: map<Scope, Record>, r: Record): map<Scope, Record> {
    if Storable(r) then records[r.scope := r] else records
  }

  /** The records that have not expired at `now`. */
  function Live(records: map<Scope, Record>, now: Time): map<Scope, Record> {
    map s | s in records && !Expired(records[s], now) :: records[s]
  }

  class InMemoryStore {
    var records: map<Scope, Record>

    constructor ()
      ensures records == map[]
    {
      records := map[];
    }

    method Get(now: Time, scope: Scope, digest: nat) returns (r: Lookup)
      ensures r == LookUp(records, now, scope, digest)
      ensures r.Absent? <==> scope !in Live(records, now)
      ensures r.Hit? ==> scope in Live(records, now) && r.record == records[scope] && r.record.digest == digest
      ensures r.Mismatch? ==> scope in Live(records, now) && records[scope].digest != digest
    {
      if scope !in records {
        return Absent;
      }
      var stored := records[scope];
      if !(now < stored.expiresAt) {
        return Absent;
      }
      if stored.digest != digest {
        return Mismatch;
      }
      return Hit(stored);
    }

    method Put(r: Record) returns (ok: bool)
      modifies this
      ensures ok <==> Storable(r)
      ensures records == Stored(old(records), r)
    {
      if r.scope.key == NIL_KEY || |r.scope.caller| == 0 || |r.scope.caller| > MAX_CALLER_ID_LEN {
        return false;
      }
      if r.expiresAt == ZERO_TIME || r.response.status < 100 || r.response.status > 599 {
        return false;
      }
      records := records[r.scope := r];
      return true;
    }

    /** Visits every record once and deletes the expired ones. */
    method Purge(now: Time) returns (purged: nat)
      modifies this
      ensures records == Live(old(records), now)
      ensures purged == |old(records)| - |records|
    {
      purged := 0;
      var pending := records.Keys;
      while pending != {}
        invariant pending <= records.Keys <= old(records).Keys
        invariant forall s | s in records :: records[s] == old(records)[s]
        invariant forall s | s in records && s !in pending :: !Expired(records[s], now)
        invariant forall s | s in old(records) && s !in records :: Expired(old(records)[s], now)
        invariant purged == |old(records)| - |records|
        decreases |pending|
      {
        var s :| s in pending;
        pending := pending - {s};
        if !(now < records[s].expiresAt) {
          DropOne(records, s);
          records := records - {s};
          purged := purged + 1;
        }
      }
    }
  }

  lemma DropOne(records: map<Scope, Record>, s: Scope)
    requires s in records
    ensures |records - {s}| == |records| - 1
  {
    assert (records - {s}).Keys == records.Keys - {s};
  }

  /** A sweep for instant t cannot be observed from `now` on, exactly when it drops no record
      that is still live at `now`. */
  lemma PurgeInvisibleExact(records: map<Scope, Record>, t: Time, now: Time)
    ensures (forall later: Time, scope, digest | now <= later ::
               LookUp(Live(records, t), later, scope, digest) == LookUp(records, later, scope, digest))
       <==> (forall s | s in records && !Expired(records[s], now) :: !Expired(records[s], t))
  {
    if s :| s in records && !Expired(records[s], now) && Expired(records[s], t) {
      assert LookUp(records, now, s, records[s].digest).Hit?;
      assert LookUp(Live(records, t), now, s, records[s].digest).Absent?;
    }
  }
}
