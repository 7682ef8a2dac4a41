# Two-tier product cache of the SPX tracking bot

This Dafny project models the product cache of a chat bot. The bot looks up
Shopee orders by cookie and SPX shipments by tracking code. When it fetches an
order, it keeps the order's products and delivery address under two keys: the
order id and the tracking number. Later SPX lookups then show what was ordered
and where it goes.

The cache has two tiers:

- **Durable store** (`db_backend.py`). The `product_cache` table maps `cache_key` to
  `(items, meta, ts)`. The store does insert-or-overwrite, expiry-aware reads that
  delete an expired row, a listing of recent SPX keys, and a bulk purge. Records
  live for `CACHE_TTL` = 3 days. The SQLite and libsql backends run the same SQL,
  so they are modelled as one table.
- **Orchestration** (`main.py`). The in-memory `PRODUCT_CACHE` sits in front of the store:
  - `cache_store_from_order` writes one entry under both keys, in both tiers;
  - `cache_get_all` checks memory first, then falls back to the store and refills memory;
  - the SPX reply tries `client_order_id`, then `sls_tn`, then the typed code;
  - `parse_orders_from_api` flattens an order-detail response and stores every detail.

The project also models the small pure helpers of the replies:

- `vnd` (thousands-separated dong);
- `short_addr` (whitespace collapse and truncation);
- the integer unit-price normalisation.

Layout, one module per file:

- `table.dfy` (`Table`): the table as a pure value, `map<string, Row>`, with the
  effect of each SQL statement as a function and the store's promises as lemmas.
- `db_backend.dfy` (`DbBackend`): class `DurableStore`, with a `rows` field its methods
  update. Each method is proved against the `Table` function.
- `cache_spec.dfy` (`CacheSpec`): both tiers as one value `State(memory, rows)`, plus the
  orchestration functions and their lemmas.
- `product_cache.dfy` (`ProductCache`): class `Cache`. It holds the `memory` map and a
  reference to the store. Its methods mirror `main.py` statement by statement, loops
  included, and are proved against `CacheSpec`.
- `formatting.dfy` (`Formatting`) and `pricing.dfy` (`Pricing`): the pure helpers.
  `records.dfy` and `wrappers.dfy` hold the payload types and `Option`.

Modelling conventions:

- The stored JSON is kept decoded. Encoding and decoding are taken to be exact inverses.
- A `meta_json` that is NULL, as in rows written before that column existed, reads back as `None`.
- Python truthiness is written out:
  - an absent or empty key is `""`;
  - absent items are `None`;
  - `ts or now` replaces both `None` and `0`.
- The clock is a parameter `now`. Each operation sees a single instant.

Places where the code is more precise than a plain-words reading, followed here:

- SQLite's `LIKE 'SPXVN%'` ignores ASCII case. The listing therefore also selects keys
  that begin with `spxvn` (`Table.LikeSpxPrefix`).
- A negative `LIMIT` means "no limit" in SQLite (`Table.LimitCount`).
- Rows with equal `ts` come back from the listing in any order.
- `short_addr` with `max_len <= 0` cuts with Python's negative slice, so its result is
  then longer than `max_len` (`Formatting.ShortAddrNonPositiveLimit`). The code only
  ever uses the default 90.
- A memory entry refilled from the store is stamped with the time of the read, so it
  can answer for up to twice the time-to-live after the original write
  (`CacheSpec.RefillOutlivesRow`).
- The price scale is guessed from the size of the number. An amount of 10 000 dong or
  less, written at the 100 000 scale, comes out 1 000 times too large
  (`Pricing.UnitPriceLargeScaleSmallAmount`).

## Model

| member | source | states |
|---|---|---|
| `Table.UpsertIgnored` | db_backend.py:62-64 | an empty key, or absent or empty items, leave the table unchanged |
| `Table.UpsertWrites` | db_backend.py:65-88 | a write stores exactly the items, `meta or {}` and `ts or now` (0 and None replaced by now) under the key; the key set grows by that key only and every other row is unchanged |
| `Table.UpsertLastWriteWins` | db_backend.py:69-88 | two writes to one key leave the table as the second write alone would: one row, the second payload and timestamp |
| `Table.UpsertThenRead` | db_backend.py:62-140 | round trip: while the row is live, a read returns the written items and `meta or {}` and deletes nothing |
| `Table.StaleWriteIsDropped` | db_backend.py:129-136 | a record stamped `now - TTL - 1` is a miss at `now`, and that read removes it |
| `Table.UpsertKeepsItemsNonEmpty` | db_backend.py:63-64 | no upsert ever leaves a row with empty items |
| `Table.ReadMiss` | db_backend.py:93-128 | a read of the empty key or a missing row is `(None, None)` and changes nothing |
| `Table.ReadExpired` | db_backend.py:129-136 | a read of a row with `now - ts > TTL` is `(None, None)` and deletes exactly that row |
| `Table.ReadLive` | db_backend.py:137-140 | a read of a live row returns its stored items and meta (None for a NULL meta column) and changes nothing |
| `Table.ReadHitHasItems` | db_backend.py:113-140 | on a table without empty items, every hit carries items, and the read keeps that invariant |
| `Table.PurgeExact` | db_backend.py:171-183 | the purge keeps exactly the rows with `ts >= now - TTL`, each unchanged |
| `Table.PurgeBoundary` | db_backend.py:172-180 | a row stamped exactly `now - TTL` survives; one a second older is removed |
| `Table.PurgeIdempotent` | db_backend.py:171-183 | purging twice at one instant equals purging once |
| `Table.PurgeAgreesWithLazyExpiry` | db_backend.py:98-183 | a purge changes no read's answer; a lazy deletion before the purge leaves the same table; a read after the purge deletes nothing |
| `Table.PurgeKeepsItemsNonEmpty` | db_backend.py:171-183 | the purge keeps the no-empty-items invariant |
| `Table.PurgeKeepsListing` | db_backend.py:145-183 | a sequence is an SPX listing of the table if and only if it is one of the purged table |
| `Table.ListedKeysAreReadable` | db_backend.py:145-166 | every listed key is a present, live row that a read returns without deleting anything |
| `DbBackend.DurableStore.constructor` | db_backend.py:32-59 | opening the store keeps the rows that persisted |
| `DbBackend.DurableStore.Upsert` | db_backend.py:62-90 | the new table is `Upserted` of the old |
| `DbBackend.DurableStore.Get` | db_backend.py:93-142 | returns `Read` of the old table and leaves `AfterRead` of it (expired row deleted) |
| `DbBackend.DurableStore.ListSpxKeys` | db_backend.py:145-168 | the answer is distinct `SPXVN`-prefixed (ASCII case-insensitive) keys of live rows, in non-increasing ts order, `min(limit, candidates)` of them (all for a negative limit), and no candidate left out is newer than any returned key |
| `Table.LikeSpxPrefixLetters` | db_backend.py:160-162 | a key passes the filter exactly when it has at least five characters and they are `SPXVN` with each letter in either case |
| `Table.LimitCount` | db_backend.py:160-165 | the listing returns the smaller of the limit and the number of candidates, and all of them for a negative limit |
| `DbBackend.ListingStep` | db_backend.py:160-165 | taking the newest candidate not yet taken keeps the listing state: the keys so far are distinct candidates, newest first, and none left is newer than one taken |
| `DbBackend.ListingDone` | db_backend.py:160-166 | once the candidates run out or the limit is reached, the keys taken are an SPX listing |
| `DbBackend.DurableStore.PurgeExpired` | db_backend.py:171-183 | the new table is `Purged` of the old |
| `CacheSpec.StoreWithoutItemsIsNoop` | main.py:48-50 | an order whose product_info is missing or empty changes neither memory nor the store |
| `CacheSpec.StoreWritesBothKeys` | main.py:51-59 | each present id gets in memory the same entry `{items, {"address": address or {}}, now}` and in the store a row with the same items, meta and ts; no other key and no empty key is written, and other entries are unchanged |
| `CacheSpec.LookupEmptyKey` | main.py:62 | the empty key gives `{items: None, meta: None}` and changes nothing |
| `CacheSpec.LookupMemoryHit` | main.py:63-65 | a memory entry with `now - ts <= TTL` answers with its items and meta, and neither tier changes |
| `CacheSpec.LookupFallsBackToTable` | main.py:66-69 | past a missing or stale memory entry, the answer is the store's read. A hit with items refills memory with `{items, meta or {}, now}`. Otherwise memory is unchanged, and a stale entry stays in place |
| `CacheSpec.StoreThenLookupBoth` | main.py:48-69 | after storing an order with both ids, looking up one id and then the other returns the stored items and meta both times, writing nothing |
| `CacheSpec.ShirtScenario` | main.py:48-69 | order A1/B2 with one shirt: both ids return the shirt; with `product_info: []` nothing is written |
| `CacheSpec.StoredOrderSurvivesRestart` | main.py:58-69 | with memory emptied, a stored order is still found through the store within the TTL, and memory is refilled |
| `CacheSpec.RefillAnswersNextLookup` | main.py:63-69 | after a store hit, the next lookup is answered from memory with the same items, `meta or {}` and no change |
| `CacheSpec.RefillOutlivesRow` | main.py:66-68 | a refilled entry (stamped at read time) still answers after its store row has expired |
| `CacheSpec.FallbackSkipsEmptyKeys` | main.py:201-202 | dropping the empty keys changes neither the answer nor the state |
| `CacheSpec.FallbackWithoutKeys` | main.py:200-204 | with every key empty, the answer is `{None, None}` and nothing changes |
| `CacheSpec.FallbackSnoc` | main.py:201-204 | one more key after a hit changes nothing (break). After a miss, that key is tried from the state the earlier tries left, and its result replaces the last one. An empty key is skipped |
| `CacheSpec.SpxLookupPrefersClientOrderId` | main.py:200-204 | a live memory entry with items for client_order_id answers at once, and nothing changes |
| `CacheSpec.SpxLookupAfterStore` | main.py:196-204 | right after an order is stored, the SPX lookup finds its items through client_order_id, or through sls_tn when client_order_id is empty |
| `CacheSpec.StoreThenReplyAddress` | main.py:47-68 | looking up either id of a stored order gives back, through `(meta or {}).get("address") or {}`, the order's address, or the empty address when it had none |
| `CacheSpec.SpxReplyShowsStoredAddress` | main.py:200-208 | right after an order is stored, the address the SPX reply reads from the cached meta is the order's address, or the empty address when it had none |
| `CacheSpec.FlattenAppend` | main.py:120-132 | the flattened list of concatenated groups is the concatenation of their lists |
| `CacheSpec.FlattenLength` | main.py:122-129 | the list has one element per dead-cookie group and one per detail of every other group |
| `CacheSpec.FlattenOrigin` | main.py:122-129 | every detail in the list comes from a live-cookie group and carries its cookie; every marker stands for a dead-cookie group |
| `CacheSpec.FlattenCovers` | main.py:122-129 | conversely, each group has its part in the list after the parts of the groups before it: a dead group's marker, or every detail of a live group, in order, with the group's cookie |
| `CacheSpec.StoreEachAppend` | main.py:126-130 | storing two runs of details is storing the first run, then the second |
| `CacheSpec.StoreAllAppend` | main.py:122-131 | the cache writes for a response split in two are those of the first part followed by those of the second |
| `CacheSpec.StoreAllSkipsDeadGroup` | main.py:123-125 | a dead-cookie group writes nothing to either tier, wherever it stands in the response |
| `CacheSpec.StoreAllStoresParsed` | main.py:122-131 | the cache writes are exactly the details of the returned list, stored in list order, markers skipped |
| `CacheSpec.StoreEachLastWriter` | main.py:48-59 | after storing a run of orders, an id belongs to the last order in the run that has items and carries it: memory holds that order's entry and the store its row |
| `CacheSpec.ParsedOrderAnswersLookup` | main.py:120-132 | after parsing, looking up an id of a returned detail with items gives that detail's items and meta and changes nothing, unless a later detail with items reuses the id |
| `ProductCache.Cache.constructor` | main.py:21 | the process starts with an empty memory map in front of the given store |
| `ProductCache.Cache.StoreFromOrder` | main.py:48-59 | both tiers move exactly as `CacheSpec.StoreFromOrder` |
| `ProductCache.Cache.GetAll` | main.py:61-69 | answer and both tiers as `CacheSpec.GetAll` |
| `ProductCache.Cache.Get` | main.py:71-72 | the items of `GetAll`, with the same effect on both tiers |
| `ProductCache.Cache.LookupSpx` | main.py:200-204 | the loop with its early break gives the answer and state of `CacheSpec.SpxLookup` |
| `ProductCache.Cache.ParseOrders` | main.py:120-132 | the list is `Flatten` of the groups, and both tiers are `StoreAll`: every live group's details, stored in order |
| `Formatting.Vnd` | main.py:34-35 | the text ends in `đ`, and begins with `-` exactly for a negative amount |
| `Formatting.VndShape` | main.py:34-35 | for `n >= 0`, `vnd(n)` ends in `đ`; before it stands a '.' exactly at every fourth position from the right; removing the dots gives the decimal digits of `n` |
| `Formatting.VndRoundTrip` | main.py:34-35 | every integer, negative ones too, is read back from its `vnd` text |
| `Formatting.GroupShape` | main.py:35 | grouping a numeral puts the separators at exactly those positions and keeps its digits |
| `Formatting.DigitsValueOfDigits` | main.py:35 | the decimal numeral of `n` denotes `n` |
| `Formatting.DigitsCanonical` | main.py:35 | the numeral has a leading zero only for zero |
| `Formatting.Words` | main.py:44 | `split()` returns non-empty words without whitespace |
| `Formatting.WordsConcat` | main.py:44 | the words laid end to end are exactly the text's characters other than whitespace, in order: splitting drops whitespace and nothing else |
| `Formatting.WordsAtSpace` | main.py:44 | `split()` breaks at every whitespace character: the words of `x + [c] + y` for a whitespace `c` are the words of `x` followed by those of `y`, never one word glued across `c` |
| `Formatting.WordsBeforeSpace` | main.py:44 | the words of a text followed by a part that starts with whitespace are the words of the text, then those of that part |
| `Formatting.LeadingSpaceAddsNoWord` | main.py:44 | whitespace in front of a text adds no word |
| `Formatting.CollapseSeparatesWords` | main.py:44 | between two words, any non-empty run of whitespace (double space, tab, line break) collapses to exactly one space |
| `Formatting.WordsEmptyIffBlank` | main.py:44 | `split()` finds no word exactly when every character of the text is whitespace |
| `Formatting.JoinKeepsText` | main.py:44 | joining words with single spaces adds only whitespace |
| `Formatting.Collapse` | main.py:44 | the collapsed text keeps every character other than whitespace, in order, and its only whitespace is single spaces between words |
| `Formatting.WordsOfJoin` | main.py:44 | splitting a space-join of words gives back those words |
| `Formatting.CollapseKeepsWords` | main.py:44 | the collapsed text has the same words in the same order, single spaces between them and no other whitespace, and is empty exactly when the text is blank |
| `Formatting.CollapseIdempotent` | main.py:44 | collapsing twice is collapsing once |
| `Formatting.ShortAddr` | main.py:42-45 | for `max_len >= 1` the result is at most `max_len` long; a collapsed text that fits is returned whole |
| `Formatting.ShortAddrFits` | main.py:42-45 | for `max_len >= 1`: the result is at most `max_len` long and is `""` exactly for an empty or blank text (every character whitespace). It is the collapsed text when that fits, otherwise its first `max_len - 1` characters and `…`, exactly `max_len` in all |
| `Formatting.ShortAddrNonPositiveLimit` | main.py:45 | for `max_len <= 0` the result of a non-blank text is longer than `max_len`; for 0 it is the collapsed text minus its last character plus `…` |
| `Pricing.UnitPrice` | main.py:218-222 | non-numbers give 0. Above 1 000 000 000 the result is the floor of `raw / 100000`, and above 10 000 the floor of `raw / 100`. Otherwise `raw` is kept |
| `Pricing.Quantity` | main.py:217 | a missing or zero amount counts as 1; any other amount is kept; the quantity is never 0 |
| `Pricing.UnitPriceUndoesScale` | main.py:220 | an amount above 10 000 at scale 100 000, or between 101 and 10 000 000 at scale 100, comes back unchanged |
| `Pricing.UnitPriceLargeScaleSmallAmount` | main.py:220 | an amount of at most 10 000 at scale 100 000 comes back multiplied by 1 000 |
| `Pricing.Total` | main.py:284-286 | with a missing or zero amount the total is the unit price; a positive quantity never makes the total smaller than a non-negative unit price |
| `Pricing.FirstProduct` | main.py:269 | the shown product is the first in the list; without products it is an empty descriptor with unit price 0 and quantity 1 |
| `Pricing.TotalZeroIffUnitZero` | main.py:280-286 | the total `unit * amount` is 0 exactly when the unit price is, and an order without products has total 0 |

## Left out

- `web_main.py` is not part of this model. It holds Flask routing, the bot-polling thread and handler registration.
- HTTP calls are left out as network I/O. This covers `call_shopee_api`, `call_spx_api` and the network call inside `get_latest_spx_status`. The order-detail response reaches `ProductCache.Cache.ParseOrders` as a parameter.
- The Telegram replies are left out as UI. This covers `reply_text`, `build_menu`, the message texts of the commands, `format_spx_timeline`, the price line text and `list_cmd`'s rendering.
- `list_cmd` is outside the modelled core, including its second listing (main.py:299-301). When the store lists no key, that listing scans the memory map: keys that start with `SPXVN` (case-sensitive), entries no older than the time-to-live, in dict insertion order, the first 50. Only the durable listing is modelled.
- `handle_input_text` itself is left out as message dispatch. This includes the SPX regex, also left out because regex word-boundary semantics are not modelled, and the call to `db_purge_expired` after an ingestion. Its key loop is `ProductCache.Cache.LookupSpx`, and its price arithmetic is in `Pricing`.
- Connection handling is left out as foreign-library plumbing. This covers `_get_client`, the `LIBSQL_URL` backend switch and the DDL of `db_init`, including the silent `ALTER TABLE`. The two backends are one abstract table.
- JSON encoding and decoding are library calls and are taken as exact inverses. A malformed stored payload therefore does not occur in the model.
- A failed `DELETE` that the SQLite branch of `db_get` swallows is not modelled. In the model the delete always succeeds.
- A cache error caught and logged in `parse_orders_from_api` is not modelled either: the store never fails in the model.
- `ts_to_vn` is left out as a library-backed timezone conversion.
- The float branches of `vnd` and of the price normalisation are left out as floating point.
- Python's `bool` counting as `int` in `isinstance` is not modelled. `vnd`'s `except` branch is unreachable for integers.
- Wall-clock time is a parameter. The source reads `time()` several times within one operation; the model uses one instant for all of them.
- Thread-safety of `PRODUCT_CACHE` is concurrency and is left out. The methods run one at a time.
- Identifiers that the service may send as numbers are modelled as strings.
