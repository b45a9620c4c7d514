/**
 * The fee calculator of src/utils/percentages.js: the same two discounts as
 * the TypeScript version, with the final value passed through `parseInt`.
 */
module PercentagesJs {
  import Percentages

  /**
   * `Number.parseInt` of a number of ordinary size: its integer part, the
   * value truncated toward zero.
   */
  function ParseInt(x: real): (n: int)
    ensures 0.0 <= x ==> n as real <= x < n as real + 1.0
    ensures x < 0.0 ==> n as real - 1.0 < x <= n as real
  {
    if x >= 0.0 then x.Floor else -((-x).Floor)
  }

  /**
   * `getFee`: the exact fee of the TypeScript calculator, truncated once, at
   * the end. (percentages.js:2 repeats `calculateTotal` of percentages.ts:2.)
   */
  function GetFee(price: real, roomDiscount: real, bookingDiscount: real): (r: int)
    ensures r == ParseInt(Percentages.GetFee(price, roomDiscount, bookingDiscount))
    ensures price >= 0.0 && 0.0 <= roomDiscount <= 100.0 && 0.0 <= bookingDiscount <= 100.0 ==>
      0 <= r && r as real <= Percentages.GetFee(price, roomDiscount, bookingDiscount) < r as real + 1.0
  {
    var afterRoom := Percentages.CalculateTotal(price, roomDiscount);
    var total := Percentages.CalculateTotal(afterRoom, bookingDiscount);
    assert total == Percentages.GetFee(price, roomDiscount, bookingDiscount);
    if price >= 0.0 && 0.0 <= roomDiscount <= 100.0 && 0.0 <= bookingDiscount <= 100.0 then
      Percentages.FeeWithinPrice(price, roomDiscount, bookingDiscount);
      ParseInt(total)
    else
      ParseInt(total)
  }

  lemma NoDiscountKeepsPrice(price: int)
    ensures GetFee(price as real, 0.0, 0.0) == price
  {
    Percentages.NoDiscountKeepsPrice(price as real);
  }

  lemma FullBookingDiscountIsFree(price: real, roomDiscount: real)
    ensures GetFee(price, roomDiscount, 100.0) == 0
  {
    Percentages.FullBookingDiscountIsFree(price, roomDiscount);
  }

  lemma DiscountsCompound()
    ensures GetFee(100.0, 10.0, 10.0) == 81
  {
    Percentages.DiscountsCompound();
  }

  /** Truncation can only lower a fee, by less than one unit. */
  lemma TruncationLosesLessThanOne(price: real, roomDiscount: real, bookingDiscount: real)
    requires price >= 0.0 && 0.0 <= roomDiscount <= 100.0 && 0.0 <= bookingDiscount <= 100.0
    ensures Percentages.GetFee(price, roomDiscount, bookingDiscount) - 1.0
      < GetFee(price, roomDiscount, bookingDiscount) as real
      <= Percentages.GetFee(price, roomDiscount, bookingDiscount)
  {
  }
}
