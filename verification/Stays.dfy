/** What a stay is charged: so many nights of each kind, each at its own rate (PriceCalculator.kt). */
module Stays {
  import opened Common
  import opened Pricing

  // ---- dates ---------------------------------------------------------------------------------------

  /** Days before the month in a common year. */
  const BEFORE_MONTH: seq<int> := [0, 31, 59, 90, 120, 151, 181, 212, 243, 273, 304, 334]

  predicate IsLeap(year: int) { year % 4 == 0 && (year % 100 != 0 || year % 400 == 0) }

  function LeapYearsThrough(year: int): int { year / 4 - year / 100 + year / 400 }

  /** Days since 1 January 1970 of a date in the Gregorian calendar. */
  function Date(year: int, month: int, day: int): int
    requires 1 <= month <= 12
  {
    365 * (year - 1970) + LeapYearsThrough(year - 1) - LeapYearsThrough(1969)
    + BEFORE_MONTH[month - 1] + (if month > 2 && IsLeap(year) then 1 else 0) + day - 1
  }

  /** A whole number of weeks lies between the two days. */
  predicate SameWeekday(a: int, b: int) { (a - b) % 7 == 0 }

  /** 3 July 2026 is a Friday and the day after it a Saturday; these are the nights with the weekend rate. */
  predicate FridayOrSaturday(day: int) { SameWeekday(day, Date(2026, 7, 3)) || SameWeekday(day, Date(2026, 7, 4)) }

  lemma WeekendIsFridayAndSaturday(day: int)
    ensures IsWeekendNight(day) <==> FridayOrSaturday(day)
  {
    assert Date(2026, 7, 3) == 20637 && Date(2026, 7, 4) == 20638;
  }

  // ---- nights of each kind ---------------------------------------------------------------------------

  function Nights(checkIn: int, nights: nat): (r: set<int>)
    ensures forall d :: d in r <==> checkIn <= d < checkIn + nights
  {
    if nights == 0 then {} else Nights(checkIn, nights - 1) + {checkIn + nights - 1}
  }

  function Holidays(rules: Rules, checkIn: int, nights: nat): set<int> {
    set d | d in Nights(checkIn, nights) && d in rules.holidays
  }

  /** Fridays and Saturdays that are no holidays. */
  function WeekendNights(rules: Rules, checkIn: int, nights: nat): set<int> {
    set d | d in Nights(checkIn, nights) && d !in rules.holidays && FridayOrSaturday(d)
  }

  function OtherNights(rules: Rules, checkIn: int, nights: nat): set<int> {
    set d | d in Nights(checkIn, nights) && d !in rules.holidays && !FridayOrSaturday(d)
  }

  lemma OneMoreHoliday(rules: Rules, checkIn: int, nights: nat)
    ensures |Holidays(rules, checkIn, nights + 1)|
         == |Holidays(rules, checkIn, nights)| + if checkIn + nights in rules.holidays then 1 else 0
  {
    var d, was := checkIn + nights, Holidays(rules, checkIn, nights);
    OneMoreElement(was, d, d in rules.holidays);
    assert Holidays(rules, checkIn, nights + 1) == was + if d in rules.holidays then {d} else {};
  }

  lemma OneMoreWeekendNight(rules: Rules, checkIn: int, nights: nat)
    ensures var d := checkIn + nights;
      |WeekendNights(rules, checkIn, nights + 1)|
      == |WeekendNights(rules, checkIn, nights)| + if d !in rules.holidays && FridayOrSaturday(d) then 1 else 0
  {
    hide FridayOrSaturday;
    var d, was := checkIn + nights, WeekendNights(rules, checkIn, nights);
    var added := d !in rules.holidays && FridayOrSaturday(d);
    OneMoreElement(was, d, added);
    assert WeekendNights(rules, checkIn, nights + 1) == was + if added then {d} else {};
  }

  lemma OneMoreOtherNight(rules: Rules, checkIn: int, nights: nat)
    ensures var d := checkIn + nights;
      |OtherNights(rules, checkIn, nights + 1)|
      == |OtherNights(rules, checkIn, nights)| + if d !in rules.holidays && !FridayOrSaturday(d) then 1 else 0
  {
    hide FridayOrSaturday;
    var d, was := checkIn + nights, OtherNights(rules, checkIn, nights);
    var added := d !in rules.holidays && !FridayOrSaturday(d);
    OneMoreElement(was, d, added);
    assert OtherNights(rules, checkIn, nights + 1) == was + if added then {d} else {};
  }

  /** The counts of the three kinds. */
  function Count(rules: Rules, checkIn: int, nights: nat): (int, int, int) {
    (|Holidays(rules, checkIn, nights)|, |WeekendNights(rules, checkIn, nights)|, |OtherNights(rules, checkIn, nights)|)
  }

  lemma OneMoreCount(rules: Rules, checkIn: int, nights: nat)
    ensures var (d, was, now) := (checkIn + nights, Count(rules, checkIn, nights), Count(rules, checkIn, nights + 1));
      now == if d in rules.holidays then (was.0 + 1, was.1, was.2)
             else if FridayOrSaturday(d) then (was.0, was.1 + 1, was.2)
             else (was.0, was.1, was.2 + 1)
  {
    OneMoreHoliday(rules, checkIn, nights);
    OneMoreWeekendNight(rules, checkIn, nights);
    OneMoreOtherNight(rules, checkIn, nights);
    hide Holidays, WeekendNights, OtherNights, FridayOrSaturday, Nights;
  }

  lemma NothingCounted(rules: Rules, checkIn: int)
    ensures Count(rules, checkIn, 0) == (0, 0, 0)
  {
    assert Nights(checkIn, 0) == {};
    assert Holidays(rules, checkIn, 0) == {} && WeekendNights(rules, checkIn, 0) == {}
           && OtherNights(rules, checkIn, 0) == {};
  }

  lemma OneMoreElement(s: set<int>, d: int, added: bool)
    requires d !in s
    ensures |s + if added then {d} else {}| == |s| + if added then 1 else 0
  {
    assert s + {} == s;
  }

  /** What the given numbers of nights of each kind cost, each rate rounded to the cent by itself. */
  function Charge(base: real, rules: Rules, count: (int, int, int)): int {
    AtRates(count, Uplifted(base, rules.holidayUplift), Uplifted(base, rules.weekendUplift), HalfUp(base))
  }

  function Uplifted(base: real, uplift: real): int { Times(base, 1.0 + uplift) }

  function AtRates(count: (int, int, int), holiday: int, weekend: int, other: int): int {
    count.0 * holiday + count.1 * weekend + count.2 * other
  }

  lemma OneMoreAtRates(c: (int, int, int), holiday: int, weekend: int, other: int)
    ensures AtRates((c.0 + 1, c.1, c.2), holiday, weekend, other) == AtRates(c, holiday, weekend, other) + holiday
    ensures AtRates((c.0, c.1 + 1, c.2), holiday, weekend, other) == AtRates(c, holiday, weekend, other) + weekend
    ensures AtRates((c.0, c.1, c.2 + 1), holiday, weekend, other) == AtRates(c, holiday, weekend, other) + other
  {
  }

  lemma {:induction false} SubtotalCounts(base: real, rules: Rules, checkIn: int, nights: nat)
    ensures Subtotal(base, rules, checkIn, nights) == Charge(base, rules, Count(rules, checkIn, nights))
    ensures var c := Count(rules, checkIn, nights); c.0 + c.1 + c.2 == nights
  {
    hide Count, Charge, NightlyRate, FridayOrSaturday;
    if nights == 0 {
      NothingCounted(rules, checkIn);
      NothingCharged(base, rules);
    } else {
      OneMoreCount(rules, checkIn, nights - 1);
      SubtotalCounts(base, rules, checkIn, nights - 1);
      OneRate(base, rules, checkIn + nights - 1, Count(rules, checkIn, nights - 1));
    }
  }

  lemma NothingCharged(base: real, rules: Rules)
    ensures Charge(base, rules, (0, 0, 0)) == 0
  {
  }

  /** One more night at its rate. */
  lemma OneRate(base: real, rules: Rules, d: int, c: (int, int, int))
    ensures Charge(base, rules, c) + NightlyRate(base, rules, d)
         == Charge(base, rules, if d in rules.holidays then (c.0 + 1, c.1, c.2)
                                else if FridayOrSaturday(d) then (c.0, c.1 + 1, c.2)
                                else (c.0, c.1, c.2 + 1))
  {
    RateOfNight(base, rules, d);
    hide NightlyRate, HalfUp, Uplifted, FridayOrSaturday, AtRates;
    OneMoreAtRates(c, Uplifted(base, rules.holidayUplift), Uplifted(base, rules.weekendUplift), HalfUp(base));
  }

  lemma RateOfNight(base: real, rules: Rules, d: int)
    ensures NightlyRate(base, rules, d)
         == if d in rules.holidays then Uplifted(base, rules.holidayUplift)
            else if FridayOrSaturday(d) then Uplifted(base, rules.weekendUplift)
            else HalfUp(base)
  {
    WeekendIsFridayAndSaturday(d);
    assert NightlyRate(base, rules, d) == Times(base, Multiplier(rules, d));
    Unchanged(base);
    hide Times, NightlyRate, HalfUp, FridayOrSaturday, IsWeekendNight;
  }

  function Times(base: real, multiplier: real): int { HalfUp(base * multiplier) }

  lemma Unchanged(base: real)
    ensures Times(base, 1.0) == HalfUp(base)
  {
    assert base * 1.0 == base;
  }

  /** The nearest whole cent, and of two that are as near the one farther from zero. */
  predicate IsRounded(x: real, r: int) {
    Abs(r as real - x) < 0.5 || (Abs(r as real - x) == 0.5 && Abs(r as real) > Abs(x))
  }

  lemma SharesAreRounded(amount: int, rate: real)
    ensures IsRounded(ExactShare(amount, rate), Share(amount, rate))
  {
    HalfUpIsNearest(ExactShare(amount, rate), Share(amount, rate));
  }

  lemma NoTierNoDiscount(rules: Rules, subtotal: int)
    ensures Share(subtotal, DiscountRate(rules, None)) == 0
  {
    assert ExactShare(subtotal, 0.0) == 0.0;
  }

  /**
   * A quote charges every holiday night at the holiday rate, every other Friday and Saturday at the
   * weekend rate and the rest at the base rate, less the discount; a holiday counts as a holiday
   * only, whatever day it is. Discount and taxes are rounded to the cent, each by itself.
   */
  lemma QuoteCharges(price: Price, rules: Rules, checkIn: int, checkOut: int, tier: Option<string>)
    ensures QuoteStay(price, rules, checkIn, checkOut, tier) == CheckOutBeforeCheckIn <==> checkOut < checkIn
    ensures checkIn <= checkOut ==>
      var quoted := QuoteStay(price, rules, checkIn, checkOut, tier);
      var q, c := quoted.quote, Count(rules, checkIn, checkOut - checkIn);
      var charge := Charge(price.baseCents, rules, c);
      && q.nights == checkOut - checkIn == c.0 + c.1 + c.2 && q.currency == price.currency
      && IsRounded(ExactShare(charge, DiscountRate(rules, tier)), q.discount) && (tier.None? ==> q.discount == 0)
      && q.amount == charge - q.discount
      && IsRounded(ExactShare(q.amount, price.taxRate), q.taxes) && q.totalAmount == q.amount + q.taxes
  {
    hide Subtotal, Charge, Count, HalfUp, DiscountRate, ExactShare, Share, IsRounded;
    if checkIn <= checkOut {
      var subtotal, rate :=
        Subtotal(price.baseCents, rules, checkIn, checkOut - checkIn), DiscountRate(rules, tier);
      SubtotalCounts(price.baseCents, rules, checkIn, checkOut - checkIn);
      SharesAreRounded(subtotal, rate);
      SharesAreRounded(subtotal - Share(subtotal, rate), price.taxRate);
      NoTierNoDiscount(rules, subtotal);
    }
  }

  // ---- the Independence Day stay -------------------------------------------------------------------

  const RULES := Rules(0.20, 0.35, [("BRONZE", 0.0), ("SILVER", 0.05), ("GOLD", 0.10), ("PLATINUM", 0.15)],
                       [Date(2026, 7, 4), Date(2026, 12, 25)])

  const PRICE := Price(10000.0, 0.1, "USD")

  /** Friday, a holiday on a Saturday, and Sunday, for a platinum guest: 120 + 135 + 100, 15% off, 10% tax. */
  lemma IndependenceDay()
    ensures QuoteStay(PRICE, RULES, Date(2026, 7, 3), Date(2026, 7, 6), Some("platinum"))
         == Ok(Quote("USD", 3, 30175, 3018, 5325, 33193))
  {
    var d := Date(2026, 7, 3);
    assert d == 20637 && Date(2026, 7, 6) == d + 3 && RULES.holidays == [d + 1, Date(2026, 12, 25)];
    assert Date(2026, 12, 25) == 20812;
    assert NightlyRate(10000.0, RULES, d) == 12000 && NightlyRate(10000.0, RULES, d + 1) == 13500
           && NightlyRate(10000.0, RULES, d + 2) == 10000;
    hide NightlyRate;
    OneMoreNight(10000.0, RULES, d, 0);
    OneMoreNight(10000.0, RULES, d, 1);
    OneMoreNight(10000.0, RULES, d, 2);
    assert Subtotal(10000.0, RULES, d, 3) == 35500;
    hide Subtotal;
    Platinum();
    assert Share(35500, 0.15) == 5325 && Share(30175, 0.1) == 3018;
  }

  lemma Platinum()
    ensures DiscountRate(RULES, Some("platinum")) == 0.15
  {
    var table := RULES.loyalty;
    assert table[1..][1..][1..] == [("PLATINUM", 0.15)];
    assert !EqualsIgnoreCase("BRONZE", "platinum") && !EqualsIgnoreCase("SILVER", "platinum");
    assert !EqualsIgnoreCase("GOLD", "platinum");
    assert EqualsIgnoreCase("PLATINUM", "platinum");
  }
}
