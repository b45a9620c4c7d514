/**
 * The fee calculator of src/utils/percentages.ts: a room discount and then a
 * booking discount, each a percentage taken off the running price. The
 * arithmetic is exact; the floating-point rounding of the source is not
 * modelled.
 */
module Percentages {
  /** `calculateTotal`: the price less `discount` percent of it, that is `100 - discount` percent of it. */
  function CalculateTotal(price: real, discount: real): (r: real)
    ensures r * 100.0 == price * (100.0 - discount)
    ensures 0.0 <= price && 0.0 <= discount <= 100.0 ==> 0.0 <= r <= price
  {
    price - price * (discount / 100.0)
  }

  /**
   * `getFee`: the booking discount applies to the already discounted price,
   * so the two discounts multiply.
   */
  function GetFee(price: real, roomDiscount: real, bookingDiscount: real): (r: real)
    ensures r * 10000.0 == price * (100.0 - roomDiscount) * (100.0 - bookingDiscount)
  {
    CalculateTotal(CalculateTotal(price, roomDiscount), bookingDiscount)
  }

  lemma NoDiscountKeepsPrice(price: real)
    ensures GetFee(price, 0.0, 0.0) == price
  {
  }

  lemma FullBookingDiscountIsFree(price: real, roomDiscount: real)
    ensures GetFee(price, roomDiscount, 100.0) == 0.0
  {
  }

  /** Ten percent and then ten percent off 100 is 81, not 80. */
  lemma DiscountsCompound()
    ensures GetFee(100.0, 10.0, 10.0) == 81.0
  {
  }

  /** With discounts in [0,100] the fee lies between nothing and the full price. */
  lemma FeeWithinPrice(price: real, roomDiscount: real, bookingDiscount: real)
    requires price >= 0.0
    requires 0.0 <= roomDiscount <= 100.0 && 0.0 <= bookingDiscount <= 100.0
    ensures 0.0 <= GetFee(price, roomDiscount, bookingDiscount) <= price
  {
    var x, y := 100.0 - roomDiscount, 100.0 - bookingDiscount;
    assert 0.0 <= x * y <= 10000.0 by {
      assert 0.0 <= x <= 100.0 && 0.0 <= y <= 100.0;
      assert x * y <= 100.0 * y;
    }
    assert GetFee(price, roomDiscount, bookingDiscount) * 10000.0 == price * (x * y);
    assert 0.0 <= price * (x * y) <= price * 10000.0;
  }

  /** The order in which the two discounts are applied does not matter. */
  lemma DiscountsCommute(price: real, roomDiscount: real, bookingDiscount: real)
    ensures GetFee(price, roomDiscount, bookingDiscount) == GetFee(price, bookingDiscount, roomDiscount)
  {
    var x, y := 100.0 - roomDiscount, 100.0 - bookingDiscount;
    assert price * x * y == price * y * x;
  }
}
