/** The durable cache store: one table keyed by cache_key, written and read
    statement by statement. The SQLite and libsql backends run the same
    statements and are one store here; `now` is the caller's clock. */
module DbBackend {
  import opened Wrappers
  import opened Records
  import opened Table

  class DurableStore {
    var rows: Rows

    /** The store at process start: db_init creates the table when it is
        missing and keeps the rows of one that exists. */
    constructor (persisted: Rows)
      ensures rows == persisted
    {
      rows := persisted;
    }

    /** db_upsert: insert or overwrite the row for `key`. */
    method Upsert(key: string, items: Option<Items>, ts: Option<int>, meta: Option<Meta>, now: int)
      modifies this
      ensures rows == Upserted(old(rows), key, items, ts, meta, now)
    {
      if key == "" || items == None || items.value == [] {
        return;
      }
      var stamp := if ts == None || ts.value == 0 then now else ts.value;
      var m := if meta == None then map[] else meta.value;
      rows := rows[key := Row(items.value, Some(m), stamp)];
    }

    /** db_get: the row's `(items, meta)`, or a miss; an expired row is deleted
        as it is found. */
    method Get(key: string, now: int) returns (f: Fetched)
      modifies this
      ensures f == Read(old(rows), key, now)
      ensures rows == AfterRead(old(rows), key, now)
    {
      if key == "" {
        return Miss;
      }
      if key !in rows {
        return Miss;
      }
      var row := rows[key];
      if now - row.ts > CACHE_TTL {
        rows := rows - {key};
        return Miss;
      }
      return Fetched(Some(row.items), row.meta);
    }

    /** db_list_spx_keys: the SPX keys of live rows, newest first, at most
        `limit` of them (all of them for a negative limit). The engine's
        ORDER BY ts DESC LIMIT is written as repeated choice of the newest
        row not yet taken. */
    method ListSpxKeys(limit: int, now: int) returns (keys: seq<string>)
      ensures IsSpxListing(rows, now, limit, keys)
    {
      var pool := set k | k in rows && LikeSpxPrefix(k) && Live(rows[k].ts, now);
      keys := [];
      ListingStart(rows, now);
      while pool != {} && (limit < 0 || |keys| < limit)
        invariant ListingSoFar(rows, now, pool, keys)
        invariant limit >= 0 ==> |keys| <= limit
        decreases |pool|
      {
        NewestExists(rows, pool);
        var k :| k in pool && forall j :: j in pool ==> rows[j].ts <= rows[k].ts;
        ListingStep(rows, now, pool, keys, k);
        keys := keys + [k];
        pool := pool - {k};
      }
      ListingDone(rows, now, limit, pool, keys);
    }

    /** db_purge_expired: delete every row older than the time-to-live. */
    method PurgeExpired(now: int)
      modifies this
      ensures rows == Purged(old(rows), now)
    {
      var cutoff := now - CACHE_TTL;
      rows := map k | k in rows && !(rows[k].ts < cutoff) :: rows[k];
    }
  }

  /** The state of the listing loop: `keys` is a newest-first prefix of the
      candidates, and `pool` the candidates not yet taken, none newer than a
      key taken. */
  ghost predicate ListingSoFar(t: Rows, now: int, pool: set<string>, keys: seq<string>) {
    && pool <= SpxCandidates(t, now)
    && (forall i :: 0 <= i < |keys| ==> keys[i] in SpxCandidates(t, now) && keys[i] !in pool)
    && (forall k :: k in SpxCandidates(t, now) && k !in pool ==> k in keys)
    && (forall i, j :: 0 <= i < j < |keys| ==> keys[i] != keys[j])
    && (forall i, j :: 0 <= i < j < |keys| ==> t[keys[i]].ts >= t[keys[j]].ts)
    && (forall i, k :: 0 <= i < |keys| && k in pool ==> t[k].ts <= t[keys[i]].ts)
    && |pool| + |keys| == |SpxCandidates(t, now)|
  }

  lemma ListingStart(t: Rows, now: int)
    ensures ListingSoFar(t, now, SpxCandidates(t, now), [])
  {
  }

  /** Taking the newest key left in the pool keeps the loop's invariant. */
  lemma ListingStep(t: Rows, now: int, pool: set<string>, keys: seq<string>, k: string)
    requires ListingSoFar(t, now, pool, keys)
    requires k in pool && forall j :: j in pool ==> t[j].ts <= t[k].ts
    ensures ListingSoFar(t, now, pool - {k}, keys + [k])
  {
    var keys', pool' := keys + [k], pool - {k};
    assert forall i :: 0 <= i < |keys| ==> keys'[i] == keys[i];
    assert keys'[|keys|] == k;
    assert |pool'| == |pool| - 1;
  }

  /** When the loop stops, the keys taken are a listing. */
  lemma ListingDone(t: Rows, now: int, limit: int, pool: set<string>, keys: seq<string>)
    requires ListingSoFar(t, now, pool, keys)
    requires limit >= 0 ==> |keys| <= limit
    requires pool == {} || (limit >= 0 && |keys| >= limit)
    ensures IsSpxListing(t, now, limit, keys)
  {
  }
}
