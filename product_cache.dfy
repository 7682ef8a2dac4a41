/** The cache orchestration of the bot: the process-wide PRODUCT_CACHE
    dictionary in front of the durable store, updated in place. Every method
    is proved to move both tiers exactly as the matching function of
    CacheSpec says. */
module ProductCache {
  import opened Wrappers
  import opened Records
  import opened Table
  import opened DbBackend
  import opened CacheSpec

  class Cache {
    /** PRODUCT_CACHE: key -> {"items", "meta", "ts"}. */
    var memory: Memory
    /** The durable store behind it. */
    const store: DurableStore

    /** Process start: memory is empty; the table is whatever persisted. */
    constructor (store: DurableStore)
      ensures this.store == store && memory == map[]
    {
      this.store := store;
      memory := map[];
    }

    /** Both tiers as one value. */
    function Snapshot(): State
      reads this, store
    {
      State(memory, store.rows)
    }

    /** cache_store_from_order. */
    method StoreFromOrder(o: Order, now: int)
      modifies this, store
      ensures Snapshot() == CacheSpec.StoreFromOrder(old(Snapshot()), o, now)
    {
      var items := o.productInfo.GetOr([]);
      if items == [] {
        return;
      }
      var meta := OrderMeta(o);
      var entry := Entry(items, meta, now);
      if o.orderId != "" {
        memory := memory[o.orderId := entry];
      }
      if o.trackingNumber != "" {
        memory := memory[o.trackingNumber := entry];
      }
      if o.orderId != "" {
        store.Upsert(o.orderId, Some(items), Some(entry.ts), Some(meta), now);
      }
      if o.trackingNumber != "" {
        store.Upsert(o.trackingNumber, Some(items), Some(entry.ts), Some(meta), now);
      }
    }

    /** cache_get_all. */
    method GetAll(key: string, now: int) returns (r: Fetched)
      modifies this, store
      ensures Step(r, Snapshot()) == CacheSpec.GetAll(old(Snapshot()), key, now)
    {
      if key == "" {
        return Miss;
      }
      if key in memory && now - memory[key].ts <= CACHE_TTL {
        var e := memory[key];
        return Fetched(Some(e.items), Some(e.meta));
      }
      r := store.Get(key, now);
      if r.items != None && r.items.value != [] {
        memory := memory[key := Entry(r.items.value, MetaOrEmpty(r.meta), now)];
      }
    }

    /** cache_get: the items of cache_get_all. */
    method Get(key: string, now: int) returns (items: Option<Items>)
      modifies this, store
      ensures var s := CacheSpec.GetAll(old(Snapshot()), key, now);
        items == s.result.items && Snapshot() == s.next
    {
      var r := GetAll(key, now);
      items := r.items;
    }

    /** The product lookup of an SPX reply: try client_order_id, sls_tn and
        the typed code in turn, skipping empty ones, and stop at the first
        answer with items. */
    method LookupSpx(clientOrderId: string, slsTn: string, spxTn: string, now: int) returns (cached: Fetched)
      modifies this, store
      ensures Step(cached, Snapshot()) == SpxLookup(old(Snapshot()), clientOrderId, slsTn, spxTn, now)
    {
      var keys := [clientOrderId, slsTn, spxTn];
      cached := Miss;
      var i := 0;
      while i < |keys|
        invariant 0 <= i <= |keys|
        invariant Fallback(old(Snapshot()), keys, now, Miss) == Fallback(Snapshot(), keys[i..], now, cached)
      {
        if keys[i] != "" {
          cached := GetAll(keys[i], now);
          if cached.items != None && cached.items.value != [] {
            break;
          }
        }
        i := i + 1;
      }
    }

    /** parse_orders_from_api: flatten the groups of an order-detail
        response, a marker for each dead cookie and each detail tagged with
        its group's cookie, storing every detail in the cache on the way. */
    method ParseOrders(allOrderDetails: seq<OrderGroup>, now: int) returns (res: seq<Parsed>)
      modifies this, store
      ensures res == Flatten(allOrderDetails)
      ensures Snapshot() == StoreAll(old(Snapshot()), allOrderDetails, now)
    {
      res := [];
      var i := 0;
      while i < |allOrderDetails|
        invariant 0 <= i <= |allOrderDetails|
        invariant res == Flatten(allOrderDetails[..i])
        invariant Snapshot() == StoreAll(old(Snapshot()), allOrderDetails[..i], now)
      {
        var group := allOrderDetails[i];
        FlattenStep(allOrderDetails, i, old(Snapshot()), now);
        if group.dataError == Some("DeadCookie") {
          res := res + [NoOrder];
          i := i + 1;
          continue;
        }
        ghost var before := Snapshot();
        ghost var done := res;
        var j := 0;
        while j < |group.orderDetails|
          invariant 0 <= j <= |group.orderDetails|
          invariant res == done + Tagged(group.orderDetails[..j], group.cookie)
          invariant Snapshot() == StoreEach(before, group.orderDetails[..j], now)
        {
          var od := group.orderDetails[j];
          StoreEachStep(group.orderDetails, j, group.cookie, before, now);
          res := res + [Detail(od, group.cookie)];
          StoreFromOrder(od, now);
          j := j + 1;
        }
        assert group.orderDetails[..j] == group.orderDetails;
        i := i + 1;
      }
      assert allOrderDetails[..i] == allOrderDetails;
    }
  }
}
