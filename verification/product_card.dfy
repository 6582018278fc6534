/** The discount badge and the struck-through price of a product card
    (`frontend/components/ui/ProductCard.tsx`). */
module ProductCard {
  import opened Wrappers
  import Money
  import Catalog

  /** `hasDiscount`: an old price that is present, non-zero and above the price. */
  predicate HasDiscount(price: real, oldPrice: Option<real>) {
    oldPrice.Some? && oldPrice.value != 0.0 && oldPrice.value > price
  }

  /** `discount`: the saving in whole percent of the old price when there is one, else the
      `discountPercent` the caller passed. */
  function Discount(price: real, oldPrice: Option<real>, discountPercent: Option<int>): (d: Option<int>)
    ensures !HasDiscount(price, oldPrice) ==> d == discountPercent
    ensures HasDiscount(price, oldPrice) ==> (
      && d.Some?
      && var exact := (oldPrice.value - price) / oldPrice.value * 100.0;
         exact - 0.5 < d.value as real <= exact + 0.5)
    // A non-negative price makes the percentage a real percentage.
    ensures HasDiscount(price, oldPrice) && price >= 0.0 ==> 0 <= d.value <= 100
  {
    if HasDiscount(price, oldPrice) then
      var was := oldPrice.value;
      var exact := (was - price) / was * 100.0;
      assert price >= 0.0 ==> 0.0 < exact <= 100.0 by {
        if price >= 0.0 {
          assert was > 0.0;
          assert (was - price) / was <= 1.0;
        }
      }
      Some(Money.JsRound(exact))
    else discountPercent
  }

  /** What the price line shows: the price, and the old price struck through only for a discount. */
  datatype PriceLine = PriceLine(price: real, struck: Option<real>)

  function PriceLineOf(price: real, oldPrice: Option<real>): (l: PriceLine)
    ensures l.struck.Some? <==> HasDiscount(price, oldPrice)
    ensures l.struck.Some? ==> l.struck == oldPrice
  {
    PriceLine(price, if HasDiscount(price, oldPrice) then oldPrice else None)
  }

  /** A catalogue card for a product whose discount price is below its (non-zero) base price
      shows the base price struck through and the saving computed from the two; a "discount"
      at or above the base price gets the tag but no struck-through price. */
  lemma CardOfListedProduct(p: Catalog.Product)
    requires p.discountPrice.Some? && p.discountPrice.value != 0.0
    ensures var d := Catalog.Display(p);
      && (PriceLineOf(d.price, d.oldPrice).struck.Some? <==> p.basePrice != 0.0 && p.discountPrice.value < p.basePrice)
      && (p.basePrice != 0.0 && p.discountPrice.value < p.basePrice ==>
            Discount(d.price, d.oldPrice, None)
              == Some(Money.JsRound((p.basePrice - p.discountPrice.value) / p.basePrice * 100.0)))
  {
  }
}
