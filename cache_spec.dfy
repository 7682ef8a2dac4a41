/** The two-tier product cache as a value: the in-memory map in front of the
    durable table, and what storing an order, looking a key up, trying the
    SPX keys in turn and flattening an order-detail response do to both. The
    Cache class in ProductCache is proved against these functions. */
module CacheSpec {
  import opened Wrappers
  import opened Records
  import opened Table

  /** A memory entry: the items, the meta and the time it was written. */
  datatype Entry = Entry(items: Items, meta: Meta, ts: int)

  type Memory = map<string, Entry>

  /** Both tiers together. */
  datatype State = State(memory: Memory, rows: Rows)

  /** A lookup's answer and the state it leaves. */
  datatype Step = Step(result: Fetched, next: State)

  /** The fields of a fetched order the cache uses; an absent or empty
      identifier is "". */
  datatype Order = Order(
    orderId: string,
    trackingNumber: string,
    productInfo: Option<Items>,
    address: Option<Address>)

  /** The meta stored with an order: one field, its address, an empty
      address when the order has none. */
  function OrderMeta(o: Order): Meta {
    map["address" := o.address.GetOr(map[])]
  }

  // ------------------------------------------------------ store from order

  /** cache_store_from_order: one entry stamped `now`, written to memory and
      to the table under the order id and under the tracking number. */
  function StoreFromOrder(st: State, o: Order, now: int): State {
    if !HasItems(o.productInfo) then st
    else
      var items := o.productInfo.value;
      var meta := OrderMeta(o);
      var e := Entry(items, meta, now);
      var m1 := if o.orderId != "" then st.memory[o.orderId := e] else st.memory;
      var m2 := if o.trackingNumber != "" then m1[o.trackingNumber := e] else m1;
      var r1 := if o.orderId != "" then Upserted(st.rows, o.orderId, Some(items), Some(now), Some(meta), now)
                else st.rows;
      var r2 := if o.trackingNumber != "" then Upserted(r1, o.trackingNumber, Some(items), Some(now), Some(meta), now)
                else r1;
      State(m2, r2)
  }

  // ---------------------------------------------------------------- lookup

  /** cache_get_all: memory first while its entry is live, otherwise the
      table; a table hit with items refills memory stamped `now`. */
  function GetAll(st: State, key: string, now: int): Step {
    if key == "" then Step(Miss, st)
    else if key in st.memory && Live(st.memory[key].ts, now) then
      Step(Fetched(Some(st.memory[key].items), Some(st.memory[key].meta)), st)
    else
      var f := Read(st.rows, key, now);
      var rows := AfterRead(st.rows, key, now);
      var memory := if HasItems(f.items) then st.memory[key := Entry(f.items.value, MetaOrEmpty(f.meta), now)]
                    else st.memory;
      Step(f, State(memory, rows))
  }

  // ---------------------------------------------------------- key fallback

  /** The loop over the SPX lookup keys: skip empty keys, stop at the first
      result with items, otherwise keep the last result tried (`last`). */
  function Fallback(st: State, keys: seq<string>, now: int, last: Fetched): Step
    decreases |keys|
  {
    if keys == [] then Step(last, st)
    else if keys[0] == "" then Fallback(st, keys[1..], now, last)
    else
      var s := GetAll(st, keys[0], now);
      if HasItems(s.result.items) then s else Fallback(s.next, keys[1..], now, s.result)
  }

  /** The SPX lookup: client_order_id, then sls_tn, then the code typed in. */
  function SpxLookup(st: State, clientOrderId: string, slsTn: string, spxTn: string, now: int): Step {
    Fallback(st, [clientOrderId, slsTn, spxTn], now, Miss)
  }

  // ----------------------------------------------- order-detail flattening

  /** One element of `allOrderDetails`. `dataError` is `data.error`. */
  datatype OrderGroup = OrderGroup(cookie: Option<string>, dataError: Option<string>, orderDetails: seq<Order>)

  /** One element of the flattened list: the marker of a group whose cookie
      is dead, or an order detail copied with its group's cookie. */
  datatype Parsed = NoOrder | Detail(order: Order, cookie: Option<string>)

  predicate DeadCookie(g: OrderGroup) {
    g.dataError == Some("DeadCookie")
  }

  /** The details of one live group, each copied with the group's cookie. */
  function Tagged(ods: seq<Order>, cookie: Option<string>): seq<Parsed> {
    seq(|ods|, i requires 0 <= i < |ods| => Detail(ods[i], cookie))
  }

  function Part(g: OrderGroup): seq<Parsed> {
    if DeadCookie(g) then [NoOrder] else Tagged(g.orderDetails, g.cookie)
  }

  /** The list parse_orders_from_api returns, group by group. */
  function Flatten(gs: seq<OrderGroup>): seq<Parsed>
    decreases |gs|
  {
    if gs == [] then [] else Flatten(gs[..|gs| - 1]) + Part(gs[|gs| - 1])
  }

  /** The cache writes of one group's details, in order. */
  function StoreEach(st: State, ods: seq<Order>, now: int): State
    decreases |ods|
  {
    if ods == [] then st else StoreFromOrder(StoreEach(st, ods[..|ods| - 1], now), ods[|ods| - 1], now)
  }

  /** The cache writes of parse_orders_from_api: every detail of every group
      whose cookie is alive. */
  function StoreAll(st: State, gs: seq<OrderGroup>, now: int): State
    decreases |gs|
  {
    if gs == [] then st
    else
      var before := StoreAll(st, gs[..|gs| - 1], now);
      var g := gs[|gs| - 1];
      if DeadCookie(g) then before else StoreEach(before, g.orderDetails, now)
  }

  /** One group more: its part is appended and its details are stored. */
  lemma FlattenStep(gs: seq<OrderGroup>, i: nat, st: State, now: int)
    requires i < |gs|
    ensures Flatten(gs[..i + 1]) == Flatten(gs[..i]) + Part(gs[i])
    ensures StoreAll(st, gs[..i + 1], now)
         == if DeadCookie(gs[i]) then StoreAll(st, gs[..i], now)
            else StoreEach(StoreAll(st, gs[..i], now), gs[i].orderDetails, now)
  {
    assert gs[..i + 1][..i] == gs[..i];
  }

  /** One detail more: it is tagged and stored after the ones before it. */
  lemma StoreEachStep(ods: seq<Order>, j: nat, cookie: Option<string>, st: State, now: int)
    requires j < |ods|
    ensures Tagged(ods[..j + 1], cookie) == Tagged(ods[..j], cookie) + [Detail(ods[j], cookie)]
    ensures StoreEach(st, ods[..j + 1], now) == StoreFromOrder(StoreEach(st, ods[..j], now), ods[j], now)
  {
    assert ods[..j + 1][..j] == ods[..j];
  }

  // ================================================================ lemmas

  /** An order without product_info writes nothing anywhere. */
  lemma StoreWithoutItemsIsNoop(st: State, o: Order, now: int)
    requires o.productInfo == None || o.productInfo == Some([])
    ensures StoreFromOrder(st, o, now) == st
  {
  }

  /** Storing an order writes one entry under both identifiers: in memory the
      same `{items, {"address": ...}, now}`, in the table a row with the same
      items, meta and stamp; no other key, and no empty key, is written. */
  lemma StoreWritesBothKeys(st: State, o: Order, now: int)
    requires HasItems(o.productInfo)
    ensures var st' := StoreFromOrder(st, o, now);
      var e := Entry(o.productInfo.value, OrderMeta(o), now);
      var row := Row(o.productInfo.value, Some(OrderMeta(o)), now);
      && (o.orderId != "" ==> o.orderId in st'.memory && st'.memory[o.orderId] == e)
      && (o.trackingNumber != "" ==> o.trackingNumber in st'.memory && st'.memory[o.trackingNumber] == e)
      && (o.orderId != "" ==> o.orderId in st'.rows && st'.rows[o.orderId] == row)
      && (o.trackingNumber != "" ==> o.trackingNumber in st'.rows && st'.rows[o.trackingNumber] == row)
      && (forall k :: k == "" || (k != o.orderId && k != o.trackingNumber) ==>
            (k in st'.memory <==> k in st.memory) && (k in st'.rows <==> k in st.rows))
      && (forall k :: k in st.memory && (k == "" || (k != o.orderId && k != o.trackingNumber)) ==>
            st'.memory[k] == st.memory[k])
      && (forall k :: k in st.rows && (k == "" || (k != o.orderId && k != o.trackingNumber)) ==>
            st'.rows[k] == st.rows[k])
  {
  }

  /** A plain miss on the empty key. */
  lemma LookupEmptyKey(st: State, now: int)
    ensures GetAll(st, "", now) == Step(Miss, st)
  {
  }

  /** A live memory entry answers the lookup and neither tier changes. */
  lemma LookupMemoryHit(st: State, key: string, now: int)
    requires key != "" && key in st.memory && now - st.memory[key].ts <= CACHE_TTL
    ensures GetAll(st, key, now)
         == Step(Fetched(Some(st.memory[key].items), Some(st.memory[key].meta)), st)
  {
  }

  /** Past a missing or stale memory entry the table answers; a hit with
      items refills memory stamped `now` (not the row's ts); anything else
      leaves memory, and any stale entry in it, as it was. */
  lemma LookupFallsBackToTable(st: State, key: string, now: int)
    requires key != "" && (key !in st.memory || now - st.memory[key].ts > CACHE_TTL)
    ensures var s := GetAll(st, key, now);
      && s.result == Read(st.rows, key, now)
      && s.next.rows == AfterRead(st.rows, key, now)
      && (HasItems(s.result.items) ==>
            s.next.memory == st.memory[key := Entry(s.result.items.value, MetaOrEmpty(s.result.meta), now)])
      && (!HasItems(s.result.items) ==> s.next.memory == st.memory)
  {
  }

  /** Both identifiers of a stored order answer with the stored items, one
      lookup after the other. */
  lemma {:induction false} StoreThenLookupBoth(st: State, o: Order, now: int)
    requires HasItems(o.productInfo) && o.orderId != "" && o.trackingNumber != ""
    ensures var st' := StoreFromOrder(st, o, now);
      var s1 := GetAll(st', o.orderId, now);
      var s2 := GetAll(s1.next, o.trackingNumber, now);
      && s1.result == Fetched(o.productInfo, Some(OrderMeta(o)))
      && s2.result == Fetched(o.productInfo, Some(OrderMeta(o)))
      && s2.next == st'
  {
    StoreWritesBothKeys(st, o, now);
  }

  /** The table alone carries a stored order across a restart: with memory
      empty, a lookup within the time-to-live still finds the items, and
      refills memory with them. */
  lemma {:induction false} StoredOrderSurvivesRestart(st: State, o: Order, now: int, later: int)
    requires HasItems(o.productInfo) && o.orderId != "" && later - now <= CACHE_TTL
    ensures var st' := StoreFromOrder(st, o, now);
      var s := GetAll(State(map[], st'.rows), o.orderId, later);
      && s.result == Fetched(o.productInfo, Some(OrderMeta(o)))
      && s.next.memory == map[o.orderId := Entry(o.productInfo.value, OrderMeta(o), later)]
      && s.next.rows == st'.rows
  {
    StoreWritesBothKeys(st, o, now);
  }

  /** After a table hit, asking again is answered from memory with the same
      items, and `None` meta has become `{}`. */
  lemma {:induction false} RefillAnswersNextLookup(st: State, key: string, now: int)
    requires key != ""
    ensures var s1 := GetAll(st, key, now);
      var s2 := GetAll(s1.next, key, now);
      HasItems(s1.result.items) ==>
        && s2.result == Fetched(s1.result.items, Some(MetaOrEmpty(s1.result.meta)))
        && s2.next == s1.next
  {
  }

  /** A refilled memory entry outlives its row: when the row is read one
      second before it expires, memory still answers a full time-to-live
      later, although the table no longer would. */
  lemma RefillOutlivesRow(items: Items, meta: Meta, key: string, ts: int)
    requires key != "" && items != []
    ensures var st := State(map[], map[key := Row(items, Some(meta), ts)]);
      var s1 := GetAll(st, key, ts + CACHE_TTL);
      var s2 := GetAll(s1.next, key, ts + 2 * CACHE_TTL);
      && Read(s1.next.rows, key, ts + 2 * CACHE_TTL) == Miss
      && s2.result == Fetched(Some(items), Some(meta))
  {
  }

  /** An order A1 / B2 with one shirt, quantity 2: both identifiers show the
      shirt; an order with an empty product list leaves an empty cache empty. */
  lemma {:induction false} ShirtScenario(now: int)
    ensures var shirt := Item(Some("Shirt"), None, Some(2), IntPrice(150000));
      var o := Order("A1", "B2", Some([shirt]), Some(map["shipping_name" := "X"]));
      var st := StoreFromOrder(State(map[], map[]), o, now);
      var s1 := GetAll(st, "A1", now);
      var s2 := GetAll(s1.next, "B2", now);
      && s1.result.items == Some([shirt]) && s2.result.items == Some([shirt])
      && StoreFromOrder(State(map[], map[]), o.(productInfo := Some([])), now) == State(map[], map[])
  {
    var shirt := Item(Some("Shirt"), None, Some(2), IntPrice(150000));
    var o := Order("A1", "B2", Some([shirt]), Some(map["shipping_name" := "X"]));
    StoreThenLookupBoth(State(map[], map[]), o, now);
  }

  // ------------------------------------------------------- fallback lemmas

  /** Keys that are empty are never tried: dropping them changes nothing. */
  function NonEmptyKeys(keys: seq<string>): (r: seq<string>)
    ensures forall i :: 0 <= i < |r| ==> r[i] != ""
    decreases |keys|
  {
    if keys == [] then [] else if keys[0] == "" then NonEmptyKeys(keys[1..]) else [keys[0]] + NonEmptyKeys(keys[1..])
  }

  lemma {:induction false} FallbackSkipsEmptyKeys(st: State, keys: seq<string>, now: int, last: Fetched)
    ensures Fallback(st, keys, now, last) == Fallback(st, NonEmptyKeys(keys), now, last)
    decreases |keys|
  {
    if keys != [] {
      var s := GetAll(st, keys[0], now);
      FallbackSkipsEmptyKeys(if keys[0] == "" then st else s.next, keys[1..], now,
                             if keys[0] == "" then last else s.result);
      if keys[0] != "" {
        var ks := NonEmptyKeys(keys);
        assert ks[0] == keys[0] && ks[1..] == NonEmptyKeys(keys[1..]);
      }
    }
  }

  /** With no non-empty key, the answer is a miss and nothing is touched. */
  lemma {:induction false} FallbackWithoutKeys(st: State, keys: seq<string>, now: int)
    requires forall i :: 0 <= i < |keys| ==> keys[i] == ""
    ensures Fallback(st, keys, now, Miss) == Step(Miss, st)
    decreases |keys|
  {
    if keys != [] {
      FallbackWithoutKeys(st, keys[1..], now);
    }
  }

  /** The loop read from the front: once a result has items the loop has
      broken out, so one key more changes nothing; otherwise that key is
      tried from the state the earlier tries left, its result replacing the
      last one kept, and an empty key is skipped. */
  lemma {:induction false} FallbackSnoc(st: State, keys: seq<string>, k: string, now: int, last: Fetched)
    requires !HasItems(last.items)
    ensures var p := Fallback(st, keys, now, last);
      Fallback(st, keys + [k], now, last)
        == if HasItems(p.result.items) || k == "" then p else GetAll(p.next, k, now)
    decreases |keys|
  {
    if keys == [] {
      assert keys + [k] == [k];
      assert [k][1..] == [];
    } else {
      assert (keys + [k])[0] == keys[0] && (keys + [k])[1..] == keys[1..] + [k];
      var s := GetAll(st, keys[0], now);
      if keys[0] == "" {
        FallbackSnoc(st, keys[1..], k, now, last);
      } else if !HasItems(s.result.items) {
        FallbackSnoc(s.next, keys[1..], k, now, s.result);
      }
    }
  }

  /** The first identifier answers at once from a live memory entry with
      items: the later keys are not tried and nothing changes. */
  lemma {:induction false} SpxLookupPrefersClientOrderId(st: State, clientOrderId: string, slsTn: string,
                                                         spxTn: string, now: int)
    requires clientOrderId != "" && clientOrderId in st.memory
    requires Live(st.memory[clientOrderId].ts, now) && st.memory[clientOrderId].items != []
    ensures SpxLookup(st, clientOrderId, slsTn, spxTn, now)
         == Step(Fetched(Some(st.memory[clientOrderId].items), Some(st.memory[clientOrderId].meta)), st)
  {
  }

  /** An SPX lookup right after the order was stored finds its items through
      whichever identifier the tracking service reports first. */
  lemma {:induction false} SpxLookupAfterStore(st: State, o: Order, clientOrderId: string, slsTn: string,
                                               spxTn: string, now: int)
    requires HasItems(o.productInfo)
    requires (clientOrderId != "" && (clientOrderId == o.orderId || clientOrderId == o.trackingNumber))
          || (clientOrderId == "" && slsTn != "" && (slsTn == o.orderId || slsTn == o.trackingNumber))
    ensures SpxLookup(StoreFromOrder(st, o, now), clientOrderId, slsTn, spxTn, now).result
         == Fetched(o.productInfo, Some(OrderMeta(o)))
  {
    var st' := StoreFromOrder(st, o, now);
    StoreWritesBothKeys(st, o, now);
    var keys := [clientOrderId, slsTn, spxTn];
    assert keys[0] == clientOrderId && keys[1..] == [slsTn, spxTn];
    if clientOrderId == "" {
      assert Fallback(st', keys, now, Miss) == Fallback(st', [slsTn, spxTn], now, Miss);
      assert GetAll(st', slsTn, now).result == Fetched(o.productInfo, Some(OrderMeta(o)));
    } else {
      assert GetAll(st', clientOrderId, now).result == Fetched(o.productInfo, Some(OrderMeta(o)));
    }
  }

  /** The address the SPX reply shows for a lookup's answer: an absent meta,
      and a meta without an `address` field, both give the empty address. */
  function ReplyAddress(f: Fetched): Address {
    var meta := MetaOrEmpty(f.meta);
    if "address" in meta then meta["address"] else map[]
  }

  /** Looking up either identifier of a stored order gives back, through the
      reply's meta, the address the order carried, or the empty address when
      it had none. */
  lemma {:induction false} StoreThenReplyAddress(st: State, o: Order, key: string, now: int)
    requires HasItems(o.productInfo) && key != "" && (key == o.orderId || key == o.trackingNumber)
    ensures ReplyAddress(GetAll(StoreFromOrder(st, o, now), key, now).result) == o.address.GetOr(map[])
  {
    StoreWritesBothKeys(st, o, now);
  }

  /** The SPX reply right after a store shows the stored order's address,
      whichever identifier the tracking service reports first. */
  lemma {:induction false} SpxReplyShowsStoredAddress(st: State, o: Order, clientOrderId: string,
                                                      slsTn: string, spxTn: string, now: int)
    requires HasItems(o.productInfo)
    requires (clientOrderId != "" && (clientOrderId == o.orderId || clientOrderId == o.trackingNumber))
          || (clientOrderId == "" && slsTn != "" && (slsTn == o.orderId || slsTn == o.trackingNumber))
    ensures ReplyAddress(SpxLookup(StoreFromOrder(st, o, now), clientOrderId, slsTn, spxTn, now).result)
         == o.address.GetOr(map[])
  {
    SpxLookupAfterStore(st, o, clientOrderId, slsTn, spxTn, now);
  }

  // ------------------------------------------------------ flatten lemmas

  /** Flattening is compositional: the list of a concatenation of groups is
      the concatenation of their lists. */
  lemma {:induction false} FlattenAppend(a: seq<OrderGroup>, b: seq<OrderGroup>)
    ensures Flatten(a + b) == Flatten(a) + Flatten(b)
    decreases |b|
  {
    if b == [] {
      assert a + b == a;
    } else {
      var ab := a + b;
      var b' := b[..|b| - 1];
      assert ab[..|ab| - 1] == a + b';
      assert ab[|ab| - 1] == b[|b| - 1];
      assert Flatten(ab) == Flatten(a + b') + Part(b[|b| - 1]);
      FlattenAppend(a, b');
      assert Flatten(b) == Flatten(b') + Part(b[|b| - 1]);
    }
  }

  /** One marker per dead-cookie group, one entry per detail otherwise. */
  function PartSize(g: OrderGroup): nat {
    if DeadCookie(g) then 1 else |g.orderDetails|
  }

  function TotalSize(gs: seq<OrderGroup>): nat
    decreases |gs|
  {
    if gs == [] then 0 else TotalSize(gs[..|gs| - 1]) + PartSize(gs[|gs| - 1])
  }

  lemma {:induction false} FlattenLength(gs: seq<OrderGroup>)
    ensures |Flatten(gs)| == TotalSize(gs)
    decreases |gs|
  {
    if gs != [] {
      FlattenLength(gs[..|gs| - 1]);
    }
  }

  /** Every detail in the list is a detail of a group with a live cookie,
      carrying that group's cookie; every marker stands for a dead group. */
  lemma {:induction false} FlattenOrigin(gs: seq<OrderGroup>, i: nat)
    requires i < |Flatten(gs)|
    ensures Flatten(gs)[i].Detail? ==>
      exists g :: g in gs && !DeadCookie(g) && Flatten(gs)[i].order in g.orderDetails && Flatten(gs)[i].cookie == g.cookie
    ensures Flatten(gs)[i].NoOrder? ==> exists g :: g in gs && DeadCookie(g)
    decreases |gs|
  {
    var front := gs[..|gs| - 1];
    var g := gs[|gs| - 1];
    assert g in gs;
    if i < |Flatten(front)| {
      FlattenOrigin(front, i);
      assert forall h :: h in front ==> h in gs;
    } else {
      var j := i - |Flatten(front)|;
      if !DeadCookie(g) {
        assert Flatten(gs)[i] == Detail(g.orderDetails[j], g.cookie);
        assert g.orderDetails[j] in g.orderDetails;
      }
    }
  }

  /** The converse of FlattenOrigin: every group has its part in the list,
      after the parts of the groups before it. A dead group's marker is
      there, and every detail of a live group, in order, with the group's
      cookie. */
  lemma {:induction false} FlattenCovers(pre: seq<OrderGroup>, g: OrderGroup, post: seq<OrderGroup>)
    ensures var f, off := Flatten(pre + [g] + post), TotalSize(pre);
      && off + PartSize(g) <= |f|
      && (DeadCookie(g) ==> f[off] == NoOrder)
      && (!DeadCookie(g) ==> forall j :: 0 <= j < |g.orderDetails| ==>
            f[off + j] == Detail(g.orderDetails[j], g.cookie))
  {
    FlattenAround(pre, g, post);
    FlattenLength(pre);
    PartAt(Flatten(pre + [g] + post), Flatten(pre), g, Flatten(post), TotalSize(pre));
  }

  /** Where one group's part stands in a list made of it and its neighbours. */
  lemma PartAt(f: seq<Parsed>, fp: seq<Parsed>, g: OrderGroup, fq: seq<Parsed>, off: nat)
    requires f == fp + Part(g) + fq && |fp| == off
    ensures && off + PartSize(g) <= |f|
      && (DeadCookie(g) ==> f[off] == NoOrder)
      && (!DeadCookie(g) ==> forall j :: 0 <= j < |g.orderDetails| ==>
            f[off + j] == Detail(g.orderDetails[j], g.cookie))
  {
    PartContents(g);
    InMiddle(f, fp, Part(g), fq);
  }

  lemma {:induction false} FlattenAround(pre: seq<OrderGroup>, g: OrderGroup, post: seq<OrderGroup>)
    ensures Flatten(pre + [g] + post) == Flatten(pre) + Part(g) + Flatten(post)
  {
    FlattenAppend(pre + [g], post);
    FlattenAppend(pre, [g]);
    assert [g][..0] == [];
  }

  lemma PartContents(g: OrderGroup)
    ensures |Part(g)| == PartSize(g)
    ensures DeadCookie(g) ==> Part(g)[0] == NoOrder
    ensures !DeadCookie(g) ==> forall j :: 0 <= j < |g.orderDetails| ==> Part(g)[j] == Detail(g.orderDetails[j], g.cookie)
  {
  }

  lemma InMiddle(f: seq<Parsed>, x: seq<Parsed>, y: seq<Parsed>, z: seq<Parsed>)
    requires f == x + y + z
    ensures |x| + |y| <= |f|
    ensures forall j :: 0 <= j < |y| ==> f[|x| + j] == y[j]
  {
  }

  // -------------------------------------------------- storing the details

  /** The orders of the details in a parsed list, markers dropped. */
  function Details(ps: seq<Parsed>): seq<Order>
    decreases |ps|
  {
    if ps == [] then []
    else Details(ps[..|ps| - 1]) + (if ps[|ps| - 1].Detail? then [ps[|ps| - 1].order] else [])
  }

  lemma {:induction false} DetailsAppend(a: seq<Parsed>, b: seq<Parsed>)
    ensures Details(a + b) == Details(a) + Details(b)
    decreases |b|
  {
    if b == [] {
      assert a + b == a;
    } else {
      var ab := a + b;
      assert ab[..|ab| - 1] == a + b[..|b| - 1];
      assert ab[|ab| - 1] == b[|b| - 1];
      DetailsAppend(a, b[..|b| - 1]);
    }
  }

  lemma {:induction false} DetailsOfTagged(ods: seq<Order>, cookie: Option<string>)
    ensures Details(Tagged(ods, cookie)) == ods
    decreases |ods|
  {
    if ods != [] {
      var t := Tagged(ods, cookie);
      assert t[..|t| - 1] == Tagged(ods[..|ods| - 1], cookie);
      DetailsOfTagged(ods[..|ods| - 1], cookie);
      assert ods[..|ods| - 1] + [ods[|ods| - 1]] == ods;
    }
  }

  /** Storing two runs of details is storing the first, then the second. */
  lemma {:induction false} StoreEachAppend(st: State, a: seq<Order>, b: seq<Order>, now: int)
    ensures StoreEach(st, a + b, now) == StoreEach(StoreEach(st, a, now), b, now)
    decreases |b|
  {
    if b == [] {
      assert a + b == a;
    } else {
      var ab := a + b;
      assert ab[..|ab| - 1] == a + b[..|b| - 1];
      assert ab[|ab| - 1] == b[|b| - 1];
      StoreEachAppend(st, a, b[..|b| - 1], now);
    }
  }

  /** The cache writes of a response split in two are those of the first
      part followed by those of the second. */
  lemma {:induction false} StoreAllAppend(st: State, a: seq<OrderGroup>, b: seq<OrderGroup>, now: int)
    ensures StoreAll(st, a + b, now) == StoreAll(StoreAll(st, a, now), b, now)
    decreases |b|
  {
    if b == [] {
      assert a + b == a;
    } else {
      var ab := a + b;
      assert ab[..|ab| - 1] == a + b[..|b| - 1];
      assert ab[|ab| - 1] == b[|b| - 1];
      StoreAllAppend(st, a, b[..|b| - 1], now);
    }
  }

  /** A group whose cookie is dead writes nothing, wherever it stands. */
  lemma {:induction false} StoreAllSkipsDeadGroup(st: State, a: seq<OrderGroup>, g: OrderGroup,
                                                  b: seq<OrderGroup>, now: int)
    requires DeadCookie(g)
    ensures StoreAll(st, a + [g] + b, now) == StoreAll(st, a + b, now)
  {
    StoreAllAppend(st, a + [g], b, now);
    StoreAllAppend(st, a, [g], now);
    StoreAllAppend(st, a, b, now);
    assert [g][..0] == [];
  }

  /** The two halves of parse_orders_from_api agree: the cache writes are
      exactly the details of the returned list, stored in list order. */
  lemma {:induction false} StoreAllStoresParsed(st: State, gs: seq<OrderGroup>, now: int)
    ensures StoreAll(st, gs, now) == StoreEach(st, Details(Flatten(gs)), now)
    decreases |gs|
  {
    if gs != [] {
      var front, g := gs[..|gs| - 1], gs[|gs| - 1];
      StoreAllStoresParsed(st, front, now);
      DetailsAppend(Flatten(front), Part(g));
      if DeadCookie(g) {
        assert [NoOrder][..0] == [];
        assert Details(Part(g)) == [];
        assert Details(Flatten(front)) + [] == Details(Flatten(front));
      } else {
        DetailsOfTagged(g.orderDetails, g.cookie);
        StoreEachAppend(st, Details(Flatten(front)), g.orderDetails, now);
      }
    }
  }

  /** The last stored order with items that carries `k` as an identifier
      owns both the memory entry and the row of `k`. */
  lemma {:induction false} StoreEachLastWriter(st: State, ods: seq<Order>, i: nat, k: string, now: int)
    requires i < |ods| && HasItems(ods[i].productInfo)
    requires k != "" && (k == ods[i].orderId || k == ods[i].trackingNumber)
    requires forall l :: i < l < |ods| && HasItems(ods[l].productInfo) ==>
      ods[l].orderId != k && ods[l].trackingNumber != k
    ensures var s := StoreEach(st, ods, now);
      && k in s.memory && s.memory[k] == Entry(ods[i].productInfo.value, OrderMeta(ods[i]), now)
      && k in s.rows && s.rows[k] == Row(ods[i].productInfo.value, Some(OrderMeta(ods[i])), now)
    decreases |ods|
  {
    var n := |ods|;
    var front, o := ods[..n - 1], ods[n - 1];
    var prev := StoreEach(st, front, now);
    assert StoreEach(st, ods, now) == StoreFromOrder(prev, o, now);
    if i == n - 1 {
      StoreWritesBothKeys(prev, o, now);
    } else {
      assert front[i] == ods[i];
      assert forall l :: i < l < |front| ==> front[l] == ods[l];
      StoreEachLastWriter(st, front, i, k, now);
      if HasItems(o.productInfo) {
        StoreWritesBothKeys(prev, o, now);
      }
    }
  }

  /** After parse_orders_from_api, an identifier of a returned detail with
      items is answered from memory with that detail's items and meta, and
      nothing changes, as long as no later detail with items reuses it. */
  lemma {:induction false} ParsedOrderAnswersLookup(st: State, gs: seq<OrderGroup>, i: nat, k: string, now: int)
    requires i < |Details(Flatten(gs))| && HasItems(Details(Flatten(gs))[i].productInfo)
    requires k != "" && (k == Details(Flatten(gs))[i].orderId || k == Details(Flatten(gs))[i].trackingNumber)
    requires forall l :: i < l < |Details(Flatten(gs))| && HasItems(Details(Flatten(gs))[l].productInfo) ==>
      Details(Flatten(gs))[l].orderId != k && Details(Flatten(gs))[l].trackingNumber != k
    ensures var s := StoreAll(st, gs, now);
      var o := Details(Flatten(gs))[i];
      GetAll(s, k, now) == Step(Fetched(o.productInfo, Some(OrderMeta(o))), s)
  {
    StoreAllStoresParsed(st, gs, now);
    StoreEachLastWriter(st, Details(Flatten(gs)), i, k, now);
  }
}
