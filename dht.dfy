/** The alias directory: an in-memory map from alias to the latest verified alias record,
    with lazy eviction on read and an eager sweep (src/dht.js). The clock is the `now`
    argument of each call. */
module Dht {
  import opened Wrappers
  import opened Crypto
  import opened Identity

  datatype DhtError = InvalidSignature

  /** A record is live at `now` when it expires strictly later. */
  predicate Live(r: AliasRecord, now: int) {
    r.expiresAt > now
  }

  /** The entries of `m` that are still live at `now`, unmodified. */
  function LiveRecords(m: map<string, AliasRecord>, now: int): (r: map<string, AliasRecord>)
    ensures forall a :: a in r <==> a in m && Live(m[a], now)
    ensures forall a :: a in r ==> r[a] == m[a]
  {
    map a | a in m && Live(m[a], now) :: m[a]
  }

  /** Sweeping is idempotent, and a sweep at a later time subsumes an earlier one. */
  lemma LiveRecordsLater(m: map<string, AliasRecord>, t1: int, t2: int)
    requires t1 <= t2
    ensures LiveRecords(LiveRecords(m, t1), t2) == LiveRecords(m, t2)
  {
    var l1, l2 := LiveRecords(LiveRecords(m, t1), t2), LiveRecords(m, t2);
    assert l1.Keys == l2.Keys;
  }

  /** The state of the sweep while the keys in `pending` are still to be examined. */
  function SweptExcept(m: map<string, AliasRecord>, pending: set<string>, now: int): map<string, AliasRecord> {
    map a | a in m && (a in pending || Live(m[a], now)) :: m[a]
  }

  lemma SweepStep(m: map<string, AliasRecord>, pending: set<string>, a: string, now: int)
    requires a in pending && pending <= m.Keys
    ensures var before := SweptExcept(m, pending, now);
      a in before && before[a] == m[a] &&
      SweptExcept(m, pending - {a}, now) == if Live(m[a], now) then before else before - {a}
  {
    var before := SweptExcept(m, pending, now);
    var after := SweptExcept(m, pending - {a}, now);
    if Live(m[a], now) {
      assert after.Keys == before.Keys;
    } else {
      assert after.Keys == (before - {a}).Keys;
    }
  }

  class MemoryDHTStore {
    /** verifyAliasRecord uses this suite */
    const suite: Suite
    var records: map<string, AliasRecord>

    /** Every stored record verified when it was put, and is stored under its own alias. */
    ghost predicate Valid()
      reads this
    {
      forall a :: a in records ==> records[a].alias == a && VerifyAliasRecord(suite, Some(records[a]))
    }

    constructor (suite: Suite)
      ensures this.suite == suite && records == map[] && Valid()
    {
      this.suite := suite;
      records := map[];
    }

    /** put: throws on a record that does not verify; otherwise declines (false) a record that
        has already expired, and stores any other under its alias, replacing what was there. */
    method Put(record: AliasRecord, now: int) returns (r: Result<bool, DhtError>)
      requires Valid()
      modifies this
      ensures Valid()
      ensures !VerifyAliasRecord(suite, Some(record)) ==> r == Err(InvalidSignature) && records == old(records)
      ensures VerifyAliasRecord(suite, Some(record)) && !Live(record, now) ==> r == Ok(false) && records == old(records)
      ensures VerifyAliasRecord(suite, Some(record)) && Live(record, now) ==>
        r == Ok(true) && records == old(records)[record.alias := record]
    {
      if !VerifyAliasRecord(suite, Some(record)) {
        return Err(InvalidSignature);
      }
      if record.expiresAt <= now {
        return Ok(false);
      }
      records := records[record.alias := record];
      return Ok(true);
    }

    /** get: an absent alias gives None; an expired entry is removed and gives None; a live
        entry is returned and the store is left as it was. */
    method Get(alias: string, now: int) returns (r: Option<AliasRecord>)
      requires Valid()
      modifies this
      ensures Valid()
      ensures alias !in old(records) ==> r == None && records == old(records)
      ensures alias in old(records) && !Live(old(records)[alias], now) ==>
        r == None && records == old(records) - {alias}
      ensures alias in old(records) && Live(old(records)[alias], now) ==>
        r == Some(old(records)[alias]) && records == old(records)
    {
      if alias !in records {
        return None;
      }
      var record := records[alias];
      if record.expiresAt <= now {
        records := records - {alias};
        return None;
      }
      return Some(record);
    }

    /** purgeExpired: removes every entry that is no longer live, in place. */
    method PurgeExpired(now: int)
      requires Valid()
      modifies this
      ensures Valid()
      ensures records == LiveRecords(old(records), now)
    {
      ghost var original := records;
      var pending := records.Keys;
      while pending != {}
        invariant pending <= original.Keys
        invariant records == SweptExcept(original, pending, now)
        decreases pending
      {
        var a :| a in pending;
        SweepStep(original, pending, a, now);
        if records[a].expiresAt <= now {
          records := records - {a};
        }
        pending := pending - {a};
      }
      assert SweptExcept(original, {}, now) == LiveRecords(original, now);
      SubmapValid(original, records);
    }

    lemma SubmapValid(bigger: map<string, AliasRecord>, smaller: map<string, AliasRecord>)
      requires forall a :: a in bigger ==> bigger[a].alias == a && VerifyAliasRecord(suite, Some(bigger[a]))
      requires forall a :: a in smaller ==> a in bigger && smaller[a] == bigger[a]
      ensures forall a :: a in smaller ==> smaller[a].alias == a && VerifyAliasRecord(suite, Some(smaller[a]))
    {
    }
  }

  /** A put that succeeds is seen by a get at the same time: the record comes back. */
  method PutThenGet(store: MemoryDHTStore, record: AliasRecord, now: int) returns (got: Option<AliasRecord>)
    requires store.Valid() && VerifyAliasRecord(store.suite, Some(record)) && Live(record, now)
    modifies store
    ensures got == Some(record)
  {
    var put := store.Put(record, now);
    got := store.Get(record.alias, now);
  }

  /** A record created by an identity whose suite meets Sound is accepted by put, and is
      stored, as long as it expires after `now`. */
  method PublishCreated(store: MemoryDHTStore, id: Keypair, opts: AliasOptions, now: int) returns (r: Result<bool, DhtError>)
    requires store.Valid() && SignaturesVerify(store.suite)
    modifies store
    ensures r.Ok?
    ensures r.value <==> Live(CreateAliasRecord(store.suite, id, opts, now), now)
    ensures var rec := CreateAliasRecord(store.suite, id, opts, now);
      store.records == if r.value then old(store.records)[rec.alias := rec] else old(store.records)
  {
    CreatedRecordVerifies(store.suite, id, opts, now);
    r := store.Put(CreateAliasRecord(store.suite, id, opts, now), now);
  }
}
