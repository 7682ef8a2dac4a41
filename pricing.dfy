/** The unit price the bot shows for an ordered product. The order-detail
    service reports `order_price` either scaled by 100 000 or by 100; the bot
    guesses the scale from the size of the number. */
module Pricing {
  import opened Wrappers
  import opened Records

  /** The integer branch of the normalisation; a non-number gives 0. Python's
      `//` floors, which for the positive values divided here is Dafny's `/`. */
  function UnitPrice(raw: Price): (unit: int)
    ensures raw.NonNumeric? ==> unit == 0
    ensures raw.IntPrice? && raw.value > 1_000_000_000 ==>
      unit * 100_000 <= raw.value < (unit + 1) * 100_000
    ensures raw.IntPrice? && 10_000 < raw.value <= 1_000_000_000 ==>
      unit * 100 <= raw.value < (unit + 1) * 100
    ensures raw.IntPrice? && raw.value <= 10_000 ==> unit == raw.value
  {
    match raw
    case NonNumeric => 0
    case IntPrice(v) =>
      if v > 1_000_000_000 then v / 100_000 else if v > 10_000 then v / 100 else v
  }

  /** The quantity ordered: a missing or zero amount counts as one. */
  function Quantity(p: Item): (q: int)
    ensures q != 0
    ensures p.amount == None || p.amount == Some(0) ==> q == 1
    ensures p.amount != None && p.amount != Some(0) ==> q == p.amount.value
  {
    if p.amount == None || p.amount == Some(0) then 1 else p.amount.value
  }

  /** The amount due on delivery for one product: the unit price times the
      quantity. */
  function Total(p: Item): (t: int)
    ensures p.amount == None || p.amount == Some(0) ==> t == UnitPrice(p.orderPrice)
    ensures UnitPrice(p.orderPrice) >= 0 && Quantity(p) > 0 ==> t >= UnitPrice(p.orderPrice)
  {
    MulAtLeast(UnitPrice(p.orderPrice), Quantity(p));
    UnitPrice(p.orderPrice) * Quantity(p)
  }

  /** A non-negative number times a positive one is not smaller. */
  lemma {:induction false} MulAtLeast(u: int, q: int)
    ensures u >= 0 && q > 0 ==> u * q >= u
    decreases if q > 0 then q else 0
  {
    if u >= 0 && q > 1 {
      MulAtLeast(u, q - 1);
      assert u * q == u * (q - 1) + u;
    }
  }

  /** The product the order summary shows: the first one listed, or an
      empty descriptor when the list is missing or empty. The empty
      descriptor costs nothing and counts once. */
  function FirstProduct(productInfo: Option<Items>): (p: Item)
    ensures HasItems(productInfo) ==> p == productInfo.value[0] && p in productInfo.value
    ensures !HasItems(productInfo) ==> UnitPrice(p.orderPrice) == 0 && Quantity(p) == 1 && p.name == None
  {
    if HasItems(productInfo) then productInfo.value[0] else Item(None, None, None, IntPrice(0))
  }

  /** A price written at either of the service's scales comes back as the
      amount in dong, as long as the amount falls in the band the guess
      expects for that scale. */
  lemma UnitPriceUndoesScale(v: int)
    ensures v > 10_000 ==> UnitPrice(IntPrice(v * 100_000)) == v
    ensures 100 < v <= 10_000_000 ==> UnitPrice(IntPrice(v * 100)) == v
  {
  }

  /** Outside those bands the guess is off: an amount of 10 000 dong or less
      written at the large scale is divided only by 100. */
  lemma UnitPriceLargeScaleSmallAmount(v: int)
    requires 1 <= v <= 10_000
    ensures UnitPrice(IntPrice(v * 100_000)) == v * 1_000
  {
  }

  /** The total is zero exactly when the unit price is: the quantity is never
      zero. An order without products costs nothing. */
  lemma TotalZeroIffUnitZero(p: Item)
    ensures Total(p) == 0 <==> UnitPrice(p.orderPrice) == 0
    ensures Total(FirstProduct(None)) == 0 && Total(FirstProduct(Some([]))) == 0
  {
  }
}
