/**
  The three discount rules of the shop.

  - `ProductModel.calculateFinalPrice` (server): a null, zero or negative
    discount leaves the price alone; any positive discount is taken off, with
    no upper bound.
  - The inline rule of `CartService.getMyCart`: a missing discount counts as 0,
    then the same formula for a positive discount.
  - `calculateFinalPrice` of the admin page: a falsy price is 0, a discount that
    is NaN, not positive or above 100 leaves the price alone.

  Prices and percentages are JavaScript numbers; they are modelled as `real`,
  so rounding of binary floating point is not part of the model.
*/
module Pricing {
  import opened Wrappers

  /** A JavaScript number where `null`/`undefined` and NaN have to be told apart. */
  datatype Num = Absent | NotANumber | Finite(value: real)

  /** `price - price * d / 100`: the price after taking off d percent. */
  function Discounted(price: real, d: real): real {
    price - price * d / 100.0
  }

  /** `ProductModel.calculateFinalPrice(price, discountPercentage)`; None is `null`. */
  function ModelFinalPrice(price: real, discount: Option<real>): (r: real)
    ensures discount.None? ==> r == price
    ensures discount.Some? && discount.value <= 0.0 ==> r == price
  {
    match discount
    case None => price
    case Some(d) => if d <= 0.0 then price else Discounted(price, d)
  }

  /** The final price in `getMyCart`: `parseFloat(d || 0)`, then `d > 0 ? price - price*d/100 : price`. */
  function CartFinalPrice(price: real, discount: Option<real>): (r: real)
    ensures r == ModelFinalPrice(price, discount)
  {
    var d := discount.GetOr(0.0);
    if d > 0.0 then Discounted(price, d) else price
  }

  /** The admin page's `calculateFinalPrice(price, discountPercentage)`. */
  function AdminFinalPrice(price: Num, discount: Num): (r: Num)
    ensures price.Absent? || price.NotANumber? || price == Finite(0.0) ==> r == Finite(0.0)
    ensures r.Finite? || r.NotANumber?
  {
    match price
    case Absent => Finite(0.0)
    case NotANumber => Finite(0.0)
    case Finite(p) =>
      if p == 0.0 then Finite(0.0)
      else
        match discount
        case Finite(d) => if d <= 0.0 || d > 100.0 then Finite(p) else Finite(Discounted(p, d))
        case _ => Finite(p)
  }

  /** A price that is not negative, discounted by at most 100 percent, stays between 0 and the price. */
  lemma ModelFinalPriceInRange(price: real, d: real)
    requires price >= 0.0 && 0.0 < d <= 100.0
    ensures 0.0 <= ModelFinalPrice(price, Some(d)) <= price
  {
    assert price * d <= price * 100.0;
  }

  /** The server rule has no upper bound: above 100 percent the price turns negative. */
  lemma ModelFinalPriceAboveHundred(price: real, d: real)
    requires price > 0.0 && d > 100.0
    ensures ModelFinalPrice(price, Some(d)) < 0.0
  {
    assert price * d > price * 100.0;
    assert Discounted(price, d) < 0.0;
  }

  /** A larger discount never gives a higher server price on a price that is not negative. */
  lemma ModelFinalPriceMonotone(price: real, d1: real, d2: real)
    requires price >= 0.0 && d1 <= d2
    ensures ModelFinalPrice(price, Some(d2)) <= ModelFinalPrice(price, Some(d1))
  {
    if d1 > 0.0 {
      assert price * d1 <= price * d2;
    } else if d2 > 0.0 {
      assert price * d2 >= 0.0;
    }
  }

  /** The cart's inline rule is the server rule, with a missing discount read as 0. */
  lemma CartAgreesWithModel(price: real, discount: Option<real>)
    ensures CartFinalPrice(price, discount) == ModelFinalPrice(price, discount)
    ensures CartFinalPrice(price, discount) == ModelFinalPrice(price, Some(discount.GetOr(0.0)))
  {
  }

  /**
    The admin page and the server agree on every non-zero price exactly when
    the discount is not above 100; above 100 the admin page keeps the price and
    the server takes more than the price off.
  */
  lemma AdminAgreesWithModel(p: real, d: real)
    requires p != 0.0
    ensures d <= 100.0 ==> AdminFinalPrice(Finite(p), Finite(d)) == Finite(ModelFinalPrice(p, Some(d)))
    ensures d > 100.0 ==> AdminFinalPrice(Finite(p), Finite(d)) == Finite(p)
    ensures d > 100.0 ==> ModelFinalPrice(p, Some(d)) != p
  {
    if d > 100.0 {
      assert p * d / 100.0 != 0.0;
    }
  }

  /** The admin page never shows a negative price for a price that is not negative. */
  lemma AdminFinalPriceInRange(p: real, discount: Num)
    requires p >= 0.0
    ensures AdminFinalPrice(Finite(p), discount).Finite?
    ensures 0.0 <= AdminFinalPrice(Finite(p), discount).value <= p
  {
    if p != 0.0 && discount.Finite? && 0.0 < discount.value <= 100.0 {
      ModelFinalPriceInRange(p, discount.value);
    }
  }
}
