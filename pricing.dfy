/**
 * The rental price of one cart item (`reserve_vehicle`, user.py:118-136)
 * and of a reservation entered by an administrator
 * (`toggle_vehicle_status`, admin.py:639-640). Money and hours are exact
 * reals here.
 */
module Pricing {
  import opened Common

  /** IVA, the value-added tax rate the cart charges. */
  const IvaRate: real := 0.23

  /** The figures `reserve_vehicle` stores in a cart item. */
  datatype Quote = Quote(
    totalHours: real,
    days: int,
    remainingHours: real,
    priceNoIva: real,
    totalPrice: real,
    reserveIva: real)

  /**
   * The price of renting from `start` to `end` at `pricePerDay`, or `None`
   * when the form is rejected because the start is not before the end. Under
   * 24 hours a whole day is charged; from 24 hours on the daily rate is
   * prorated by the hour. The tax is always taken on one daily rate.
   */
  function PriceQuote(start: Time, end: Time, pricePerDay: real): (q: Option<Quote>)
    ensures q.None? <==> start >= end
  {
    if start >= end then None
    else
      var hours := HoursBetween(start, end);
      var noIva := if hours < 24.0 then pricePerDay else hours * (pricePerDay / 24.0);
      var total := noIva + IvaRate * pricePerDay;
      var days := (hours / 24.0).Floor;
      Some(Quote(hours, days, hours - 24.0 * days as real, noIva, total, total - noIva))
  }

  /**
   * What a quote says: the hours are the length of the interval, the
   * pre-tax price follows the two-tier rule, the tax is 23% of one daily
   * rate in both tiers, and days and remaining hours split the hours as
   * Python's `// 24` and `% 24` do.
   */
  lemma QuoteFacts(start: Time, end: Time, pricePerDay: real)
    requires start < end
    ensures var q := PriceQuote(start, end, pricePerDay).value;
            && q.totalHours > 0.0
            && q.totalHours * MicrosPerHour as real == (end - start) as real
            && (q.totalHours < 24.0 ==> q.priceNoIva == pricePerDay)
            && (q.totalHours >= 24.0 ==> q.priceNoIva == q.totalHours * pricePerDay / 24.0)
            && q.reserveIva == IvaRate * pricePerDay
            && q.totalPrice == q.priceNoIva + q.reserveIva
            && q.days >= 0
            && q.days as real * 24.0 + q.remainingHours == q.totalHours
            && 0.0 <= q.remainingHours < 24.0
            && (q.totalHours < 24.0 <==> q.days == 0)
  {
    var q := PriceQuote(start, end, pricePerDay).value;
    assert q.totalHours * MicrosPerHour as real == (end - start) as real;
  }

  /** A rental is never charged less than one day before tax. */
  lemma AtLeastOneDay(start: Time, end: Time, pricePerDay: real)
    requires start < end && pricePerDay >= 0.0
    ensures PriceQuote(start, end, pricePerDay).value.priceNoIva >= pricePerDay
  {
    var h := HoursBetween(start, end);
    if h >= 24.0 {
      assert h * (pricePerDay / 24.0) >= 24.0 * (pricePerDay / 24.0);
    }
  }

  /** Extending a rental never makes it cheaper. */
  lemma LongerCostsMore(start: Time, end1: Time, end2: Time, pricePerDay: real)
    requires start < end1 <= end2 && pricePerDay >= 0.0
    ensures PriceQuote(start, end1, pricePerDay).value.totalPrice
            <= PriceQuote(start, end2, pricePerDay).value.totalPrice
  {
    var h1 := HoursBetween(start, end1);
    var h2 := HoursBetween(start, end2);
    assert h1 <= h2;
    if h1 >= 24.0 {
      assert h1 * (pricePerDay / 24.0) <= h2 * (pricePerDay / 24.0);
    } else if h2 >= 24.0 {
      assert h2 * (pricePerDay / 24.0) >= 24.0 * (pricePerDay / 24.0);
    }
  }

  /** `(duration / 24) * price_per_day`: the untaxed, purely prorated price an administrator's reservation gets. */
  function AdminPrice(start: Time, end: Time, pricePerDay: real): (price: real)
    ensures start <= end && pricePerDay >= 0.0 ==> price >= 0.0
  {
    (HoursBetween(start, end) / 24.0) * pricePerDay
  }

  /**
   * From one day on, an administrator's reservation costs exactly the
   * customer's pre-tax price, so the customer pays the tax on top of it;
   * under a day the administrator's price is prorated where the customer
   * pays a full day.
   */
  lemma AdminPriceVersusCart(start: Time, end: Time, pricePerDay: real)
    requires start < end && pricePerDay >= 0.0
    ensures var q := PriceQuote(start, end, pricePerDay).value;
            && (q.totalHours >= 24.0 ==> AdminPrice(start, end, pricePerDay) == q.priceNoIva)
            && (q.totalHours >= 24.0 ==> q.totalPrice == AdminPrice(start, end, pricePerDay) + IvaRate * pricePerDay)
            && (q.totalHours < 24.0 ==> AdminPrice(start, end, pricePerDay) <= q.priceNoIva)
  {
    var h := HoursBetween(start, end);
    var q := PriceQuote(start, end, pricePerDay).value;
    assert q.totalHours == h;
    if h < 24.0 {
      var f := h / 24.0;
      ScaleDown(f, pricePerDay);
      assert q.priceNoIva == pricePerDay;
    } else {
      assert (h / 24.0) * pricePerDay == h * (pricePerDay / 24.0);
      assert q.priceNoIva == h * (pricePerDay / 24.0);
    }
  }

  /** A fraction of a non-negative price is at most the price. */
  lemma ScaleDown(f: real, price: real)
    requires 0.0 <= f <= 1.0 && price >= 0.0
    ensures f * price <= price
  {
    assert (1.0 - f) * price >= 0.0;
  }
}
