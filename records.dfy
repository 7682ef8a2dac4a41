/** The payloads the cache carries: product descriptors and the address
    bag, as the order-detail service returns them after JSON decoding. */
module Records {
  import opened Wrappers

  /** The `order_price` field: an integer, or anything that is not a number
      (a string, None). A missing field reads as the integer 0. */
  datatype Price = IntPrice(value: int) | NonNumeric

  /** One entry of `product_info`; an absent field is None. */
  datatype Item = Item(
    name: Option<string>,
    modelName: Option<string>,
    amount: Option<int>,
    orderPrice: Price)

  type Items = seq<Item>

  /** The `address` sub-object: shipping_name, shipping_phone, shipping_address. */
  type Address = map<string, string>

  /** The attribute bag stored beside the items; the orchestrator puts one
      entry in it, "address". */
  type Meta = map<string, Address>

  /** Python truthiness of an items value: present and not the empty list. */
  predicate HasItems(items: Option<Items>) {
    items.Some? && items.value != []
  }
}
