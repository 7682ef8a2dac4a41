/** The durable product_cache table as a value: one finite map from
    cache_key to its row, and the effect of each statement the store runs
    on it. The store class in DbBackend is proved against these functions;
    the lemmas here state what the statements promise. */
module Table {
  import opened Wrappers
  import opened Records

  /** Records older than three days are dead. */
  const CACHE_TTL: int := 3 * 24 * 3600

  /** A row: decoded items_json, decoded meta_json (None for a NULL column,
      which rows from before the meta column was added can have) and ts. */
  datatype Row = Row(items: Items, meta: Option<Meta>, ts: int)

  type Rows = map<string, Row>

  /** What a read hands back: `(items, meta)`, or `(None, None)` for a miss. */
  datatype Fetched = Fetched(items: Option<Items>, meta: Option<Meta>)

  const Miss: Fetched := Fetched(None, None)

  /** A timestamp is live at `now` while it is at most CACHE_TTL seconds old.
      The store's two spellings of the test, `now - ts > CACHE_TTL` and
      `ts < now - CACHE_TTL`, are both the negation of this. */
  predicate Live(ts: int, now: int) {
    now - ts <= CACHE_TTL
  }

  /** The stamp written: an absent or zero timestamp is replaced by the clock. */
  function StampOr(ts: Option<int>, now: int): int {
    if ts == None || ts == Some(0) then now else ts.value
  }

  /** The meta written: an absent meta becomes the empty map. */
  function MetaOrEmpty(meta: Option<Meta>): Meta {
    meta.GetOr(map[])
  }

  /** An upsert writes only for a non-empty key and non-empty items. */
  predicate Writes(key: string, items: Option<Items>) {
    key != "" && HasItems(items)
  }

  /** The insert-or-update of a row: on a conflict on the key, the row for
      `key` is replaced as a whole. */
  function Upserted(t: Rows, key: string, items: Option<Items>, ts: Option<int>,
                    meta: Option<Meta>, now: int): Rows
  {
    if !Writes(key, items) then t
    else t[key := Row(items.value, Some(MetaOrEmpty(meta)), StampOr(ts, now))]
  }

  /** The value `db_get` returns. */
  function Read(t: Rows, key: string, now: int): Fetched {
    if key == "" || key !in t || !Live(t[key].ts, now) then Miss
    else Fetched(Some(t[key].items), t[key].meta)
  }

  /** The table after `db_get`: an expired row that was read is deleted. */
  function AfterRead(t: Rows, key: string, now: int): Rows {
    if key != "" && key in t && !Live(t[key].ts, now) then t - {key} else t
  }

  /** The purge: every row older than the time-to-live is deleted. */
  function Purged(t: Rows, now: int): Rows {
    map k | k in t && Live(t[k].ts, now) :: t[k]
  }

  /** The listing's key filter, SQLite's LIKE with the pattern of the SPXVN
      prefix: a prefix test that ignores the case of ASCII letters. */
  function AsciiUpper(c: char): char {
    if 'a' <= c <= 'z' then (c as int - 32) as char else c
  }

  predicate LikeSpxPrefix(k: string) {
    |k| >= 5 && forall i :: 0 <= i < 5 ==> AsciiUpper(k[i]) == "SPXVN"[i]
  }

  /** The filter letter by letter: five characters at least, the first five
      spelling SPXVN with each letter in either case. */
  lemma LikeSpxPrefixLetters(k: string)
    ensures LikeSpxPrefix(k) <==>
      && |k| >= 5 && (k[0] == 'S' || k[0] == 's') && (k[1] == 'P' || k[1] == 'p')
      && (k[2] == 'X' || k[2] == 'x') && (k[3] == 'V' || k[3] == 'v') && (k[4] == 'N' || k[4] == 'n')
  {
    if |k| >= 5 {
      assert "SPXVN"[0] == 'S' && "SPXVN"[1] == 'P' && "SPXVN"[2] == 'X' && "SPXVN"[3] == 'V' && "SPXVN"[4] == 'N';
    }
  }

  /** The rows `db_list_spx_keys` selects from. */
  function SpxCandidates(t: Rows, now: int): set<string> {
    set k | k in t && LikeSpxPrefix(k) && Live(t[k].ts, now)
  }

  /** The count a `LIMIT limit` leaves of `n` rows; SQLite reads a negative
      limit as no limit at all. */
  function LimitCount(n: nat, limit: int): (c: nat)
    ensures c <= n && (limit >= 0 ==> c <= limit)
    ensures c == n || c == limit
  {
    if limit < 0 || limit >= n then n else limit
  }

  /** `r` is an answer the listing query may give: the keys of live rows
      with the SPX prefix, sorted by ts from the newest and cut at the
      limit. That is: distinct selected keys, newest first, as many as the
      limit allows, and no selected key left out is newer than one
      returned. Rows with equal ts may come in any order, as in SQL. */
  ghost predicate IsSpxListing(t: Rows, now: int, limit: int, r: seq<string>) {
    && (forall i, j :: 0 <= i < j < |r| ==> r[i] != r[j])
    && (forall i :: 0 <= i < |r| ==> r[i] in SpxCandidates(t, now))
    && (forall i, j :: 0 <= i < j < |r| ==> t[r[i]].ts >= t[r[j]].ts)
    && (forall i, k :: 0 <= i < |r| && k in SpxCandidates(t, now) && k !in r ==> t[k].ts <= t[r[i]].ts)
    && |r| == LimitCount(|SpxCandidates(t, now)|, limit)
  }

  /** The invariant the store keeps: no row is persisted with empty items. */
  ghost predicate ItemsNonEmpty(t: Rows) {
    forall k :: k in t ==> t[k].items != []
  }

  // ---------------------------------------------------------------- upsert

  /** An empty key, or absent or empty items, leave the table as it was. */
  lemma UpsertIgnored(t: Rows, key: string, items: Option<Items>, ts: Option<int>,
                      meta: Option<Meta>, now: int)
    requires key == "" || items == None || items == Some([])
    ensures Upserted(t, key, items, ts, meta, now) == t
  {
  }

  /** A write puts exactly the given items, the meta (or the empty map) and
      the stamp (or the clock) under `key`, and touches no other row. */
  lemma UpsertWrites(t: Rows, key: string, items: Items, ts: Option<int>,
                     meta: Option<Meta>, now: int)
    requires key != "" && items != []
    ensures var t' := Upserted(t, key, Some(items), ts, meta, now);
      && key in t'
      && t'[key].items == items
      && t'[key].meta == Some(if meta == None then map[] else meta.value)
      && t'[key].ts == (if ts == None || ts == Some(0) then now else ts.value)
      && t'.Keys == t.Keys + {key}
      && (forall k :: k in t && k != key ==> t'[k] == t[k])
  {
  }

  /** Last write wins: a second write to the same key replaces the first
      completely, leaving one row and no trace of the first payload. */
  lemma UpsertLastWriteWins(t: Rows, key: string,
                            items1: Option<Items>, ts1: Option<int>, meta1: Option<Meta>, now1: int,
                            items2: Option<Items>, ts2: Option<int>, meta2: Option<Meta>, now2: int)
    requires Writes(key, items2)
    ensures Upserted(Upserted(t, key, items1, ts1, meta1, now1), key, items2, ts2, meta2, now2)
         == Upserted(t, key, items2, ts2, meta2, now2)
  {
  }

  /** Round trip: what was written is what is read back while the row is
      live, and the read changes nothing. */
  lemma UpsertThenRead(t: Rows, key: string, items: Items, ts: Option<int>,
                       meta: Option<Meta>, now: int, later: int)
    requires key != "" && items != []
    requires Live(StampOr(ts, now), later)
    ensures var t' := Upserted(t, key, Some(items), ts, meta, now);
      && Read(t', key, later) == Fetched(Some(items), Some(MetaOrEmpty(meta)))
      && AfterRead(t', key, later) == t'
  {
  }

  /** A record written one second past the time-to-live is not returned, and
      the read removes it. */
  lemma StaleWriteIsDropped(t: Rows, key: string, items: Items, meta: Option<Meta>, now: int)
    requires key != "" && items != [] && now - CACHE_TTL - 1 != 0
    ensures var t' := Upserted(t, key, Some(items), Some(now - CACHE_TTL - 1), meta, now);
      && Read(t', key, now) == Miss
      && AfterRead(t', key, now) == t - {key}
  {
  }

  /** Upserts keep the no-empty-items invariant. */
  lemma UpsertKeepsItemsNonEmpty(t: Rows, key: string, items: Option<Items>, ts: Option<int>,
                                 meta: Option<Meta>, now: int)
    requires ItemsNonEmpty(t)
    ensures ItemsNonEmpty(Upserted(t, key, items, ts, meta, now))
  {
  }

  // ------------------------------------------------------------------ read

  /** A read of the empty key or of a missing row is a miss and changes
      nothing. */
  lemma ReadMiss(t: Rows, key: string, now: int)
    requires key == "" || key !in t
    ensures Read(t, key, now) == Miss && AfterRead(t, key, now) == t
  {
  }

  /** Lazy expiry: a read of an expired row is a miss and deletes exactly
      that row. */
  lemma ReadExpired(t: Rows, key: string, now: int)
    requires key != "" && key in t && now - t[key].ts > CACHE_TTL
    ensures Read(t, key, now) == Miss
    ensures AfterRead(t, key, now).Keys == t.Keys - {key}
    ensures forall k :: k in t && k != key ==> AfterRead(t, key, now)[k] == t[k]
  {
  }

  /** A read of a live row returns its stored items and meta unchanged and
      leaves the table as it was. */
  lemma ReadLive(t: Rows, key: string, now: int)
    requires key != "" && key in t && Live(t[key].ts, now)
    ensures Read(t, key, now) == Fetched(Some(t[key].items), t[key].meta)
    ensures AfterRead(t, key, now) == t
  {
  }

  /** On a table that keeps the invariant, a hit always carries items. */
  lemma ReadHitHasItems(t: Rows, key: string, now: int)
    requires ItemsNonEmpty(t)
    ensures Read(t, key, now) != Miss ==> HasItems(Read(t, key, now).items)
    ensures ItemsNonEmpty(AfterRead(t, key, now))
  {
  }

  // ----------------------------------------------------------------- purge

  /** The purge removes exactly the rows with ts < now - CACHE_TTL; a row
      stamped exactly now - CACHE_TTL stays; surviving rows are untouched. */
  lemma PurgeExact(t: Rows, now: int)
    ensures forall k :: k in Purged(t, now) <==> k in t && t[k].ts >= now - CACHE_TTL
    ensures forall k :: k in Purged(t, now) ==> Purged(t, now)[k] == t[k]
  {
  }

  lemma PurgeBoundary(t: Rows, key: string, now: int)
    requires key in t
    ensures t[key].ts == now - CACHE_TTL ==> key in Purged(t, now)
    ensures t[key].ts == now - CACHE_TTL - 1 ==> key !in Purged(t, now)
  {
  }

  /** Purging twice at the same instant removes nothing more. */
  lemma PurgeIdempotent(t: Rows, now: int)
    ensures Purged(Purged(t, now), now) == Purged(t, now)
  {
    assert Purged(Purged(t, now), now).Keys == Purged(t, now).Keys;
  }

  /** The two expiry paths agree: a purge makes no read answer differently,
      and the row a read deletes lazily is one the purge deletes too. */
  lemma PurgeAgreesWithLazyExpiry(t: Rows, key: string, now: int)
    ensures Read(Purged(t, now), key, now) == Read(t, key, now)
    ensures Purged(AfterRead(t, key, now), now) == Purged(t, now)
    ensures AfterRead(Purged(t, now), key, now) == Purged(t, now)
  {
    assert Purged(AfterRead(t, key, now), now).Keys == Purged(t, now).Keys;
  }

  lemma PurgeKeepsItemsNonEmpty(t: Rows, now: int)
    requires ItemsNonEmpty(t)
    ensures ItemsNonEmpty(Purged(t, now))
  {
  }

  // --------------------------------------------------------------- listing

  /** The purge does not change the set the listing selects from, so a
      listing before it is a listing after it and conversely. */
  lemma PurgeKeepsListing(t: Rows, now: int, limit: int, r: seq<string>)
    ensures IsSpxListing(t, now, limit, r) <==> IsSpxListing(Purged(t, now), now, limit, r)
  {
    assert SpxCandidates(Purged(t, now), now) == SpxCandidates(t, now);
  }

  /** Every listed key is live: reading it returns its row and deletes
      nothing. */
  lemma ListedKeysAreReadable(t: Rows, now: int, limit: int, r: seq<string>, i: nat)
    requires IsSpxListing(t, now, limit, r) && i < |r|
    ensures r[i] != "" && r[i] in t
    ensures Read(t, r[i], now) == Fetched(Some(t[r[i]].items), t[r[i]].meta)
    ensures AfterRead(t, r[i], now) == t
  {
    assert r[i] in SpxCandidates(t, now);
  }

  /** Every finite set of keys present in the table has a newest member. */
  lemma {:induction false} NewestExists(t: Rows, pool: set<string>)
    requires pool != {} && pool <= t.Keys
    ensures exists k :: k in pool && forall j :: j in pool ==> t[j].ts <= t[k].ts
  {
    var x :| x in pool;
    if pool != {x} {
      var rest := pool - {x};
      NewestExists(t, rest);
      var m :| m in rest && forall j :: j in rest ==> t[j].ts <= t[m].ts;
      if t[x].ts <= t[m].ts {
        assert forall j :: j in pool ==> t[j].ts <= t[m].ts;
      } else {
        assert forall j :: j in pool ==> t[j].ts <= t[x].ts;
      }
    } else {
      assert forall j :: j in pool ==> t[j].ts <= t[x].ts;
    }
  }
}
