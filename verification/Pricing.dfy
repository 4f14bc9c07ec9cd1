/**
 * Per-stay prices (PriceCalculator.kt). Amounts are whole cents; a base price and the rates are exact
 * numbers, as decimals of any scale are. Dates are days since 1 January 1970.
 */
module Pricing {
  import opened Common

  datatype Price = Price(baseCents: real, taxRate: real, currency: string)

  /** The loyalty table in the order of its entries. */
  datatype Rules = Rules(weekendUplift: real, holidayUplift: real, loyalty: seq<(string, real)>, holidays: seq<int>)

  datatype Quote = Quote(currency: string, nights: nat, amount: int, taxes: int, discount: int, totalAmount: int)

  datatype Quoted = Ok(quote: Quote) | CheckOutBeforeCheckIn

  // ---- rounding ----------------------------------------------------------------------------

  /** Half up, as decimals round it: to the nearest cent, ties away from zero. */
  function HalfUp(x: real): int { if x >= 0.0 then (x + 0.5).Floor else -((0.5 - x).Floor) }

  function Abs(x: real): real { if x < 0.0 then -x else x }

  lemma HalfUpIsNearest(x: real, r: int)
    ensures r == HalfUp(x) <==> Abs(r as real - x) < 0.5 || (Abs(r as real - x) == 0.5 && Abs(r as real) > Abs(x))
  {
    var h := HalfUp(x);
    assert Abs(h as real - x) <= 0.5;
    if r != h {
      assert Abs(r as real - h as real) >= 1.0;
    }
  }

  lemma HalfUpGrows(x: real, y: real)
    requires x <= y
    ensures HalfUp(x) <= HalfUp(y)
  {
    HalfUpIsNearest(x, HalfUp(x));
    HalfUpIsNearest(y, HalfUp(y));
  }

  // ---- nightly rates -----------------------------------------------------------------------

  /** Monday is 0; the first of January 1970 was a Thursday. */
  function DayOfWeek(day: int): nat { (day + 3) % 7 }

  predicate IsWeekendNight(day: int) { DayOfWeek(day) == 4 || DayOfWeek(day) == 5 }

  /** A holiday wins over a weekend; the two are not added up. */
  function Multiplier(rules: Rules, night: int): real {
    if night in rules.holidays then 1.0 + rules.holidayUplift
    else if IsWeekendNight(night) then 1.0 + rules.weekendUplift
    else 1.0
  }

  function NightlyRate(base: real, rules: Rules, night: int): int { HalfUp(base * Multiplier(rules, night)) }

  function Subtotal(base: real, rules: Rules, checkIn: int, nights: nat): int {
    if nights == 0 then 0
    else Subtotal(base, rules, checkIn, nights - 1) + NightlyRate(base, rules, checkIn + nights - 1)
  }

  // ---- the quote -----------------------------------------------------------------------------

  function LowerChar(c: char): char { if 'A' <= c <= 'Z' then c - 'A' + 'a' else c }

  predicate EqualsIgnoreCase(a: string, b: string) {
    |a| == |b| && forall i :: 0 <= i < |a| ==> LowerChar(a[i]) == LowerChar(b[i])
  }

  function LoyaltyRate(table: seq<(string, real)>, tier: string): real {
    if table == [] then 0.0
    else if EqualsIgnoreCase(table[0].0, tier) then table[0].1
    else LoyaltyRate(table[1..], tier)
  }

  predicate IsFirstMatch(table: seq<(string, real)>, tier: string, k: int) {
    && 0 <= k < |table| && EqualsIgnoreCase(table[k].0, tier)
    && forall i :: 0 <= i < k ==> !EqualsIgnoreCase(table[i].0, tier)
  }

  function DiscountRate(rules: Rules, tier: Option<string>): real {
    match tier case None => 0.0 case Some(t) => LoyaltyRate(rules.loyalty, t)
  }

  /** The given share of an amount, rounded to the cent. */
  function Share(amount: int, rate: real): int { HalfUp(ExactShare(amount, rate)) }

  function ExactShare(amount: int, rate: real): real { amount as real * rate }

  function Discounted(subtotal: int, rate: real): int { subtotal - Share(subtotal, rate) }

  function Total(subtotal: int, discountRate: real, taxRate: real): int {
    var discounted := Discounted(subtotal, discountRate);
    discounted + Share(discounted, taxRate)
  }

  function QuoteStay(price: Price, rules: Rules, checkIn: int, checkOut: int, tier: Option<string>): Quoted {
    if checkOut < checkIn then CheckOutBeforeCheckIn
    else
      var nights := checkOut - checkIn;
      var subtotal := Subtotal(price.baseCents, rules, checkIn, nights);
      var discount := Share(subtotal, DiscountRate(rules, tier));
      var discounted := subtotal - discount;
      var taxes := Share(discounted, price.taxRate);
      Ok(Quote(price.currency, nights, discounted, taxes, discount, discounted + taxes))
  }

  /**
   * A quote balances to the cent: the amount and the discount make up the nightly rates, the amount
   * and the taxes make up the total; discount and taxes are each off by at most half a cent.
   */
  lemma QuotesBalance(price: Price, rules: Rules, checkIn: int, checkOut: int, tier: Option<string>)
    requires checkIn <= checkOut
    ensures QuoteStay(price, rules, checkIn, checkOut, tier).Ok?
    ensures var subtotal, rate :=
              Subtotal(price.baseCents, rules, checkIn, checkOut - checkIn), DiscountRate(rules, tier);
      var q := QuoteStay(price, rules, checkIn, checkOut, tier).quote;
      && q.amount + q.discount == subtotal
      && q.amount + q.taxes == q.totalAmount == Total(subtotal, rate, price.taxRate)
      && Abs(q.discount as real - ExactShare(subtotal, rate)) <= 0.5
      && Abs(q.taxes as real - ExactShare(q.amount, price.taxRate)) <= 0.5
  {
    hide HalfUp, Subtotal, DiscountRate, Share, ExactShare;
    var subtotal, rate := Subtotal(price.baseCents, rules, checkIn, checkOut - checkIn), DiscountRate(rules, tier);
    var q := QuoteStay(price, rules, checkIn, checkOut, tier).quote;
    ShareIsNearest(subtotal, rate);
    ShareIsNearest(q.amount, price.taxRate);
    assert q.amount == Discounted(subtotal, rate);
  }

  lemma ShareIsNearest(amount: int, rate: real)
    ensures Abs(Share(amount, rate) as real - ExactShare(amount, rate)) <= 0.5
  {
    hide HalfUp, ExactShare;
    HalfUpIsNearest(ExactShare(amount, rate), Share(amount, rate));
  }

  /** The tier is looked up without regard to case; the first entry wins and an unknown tier gets nothing. */
  lemma {:induction false} LoyaltyIsFirstMatch(table: seq<(string, real)>, tier: string)
    ensures (forall i :: 0 <= i < |table| ==> !EqualsIgnoreCase(table[i].0, tier)) ==> LoyaltyRate(table, tier) == 0.0
    ensures forall k :: IsFirstMatch(table, tier, k) ==> LoyaltyRate(table, tier) == table[k].1
  {
    if table != [] {
      LoyaltyIsFirstMatch(table[1..], tier);
      assert forall i :: 0 <= i < |table| - 1 ==> table[1..][i] == table[i + 1];
      forall k | IsFirstMatch(table, tier, k) && k > 0 ensures LoyaltyRate(table, tier) == table[k].1 {
        assert IsFirstMatch(table[1..], tier, k - 1);
      }
    }
  }

  // ---- splitting a stay ------------------------------------------------------------------------

  lemma {:induction false} SubtotalSplits(base: real, rules: Rules, checkIn: int, first: nat, second: nat)
    ensures Subtotal(base, rules, checkIn, first + second)
         == Subtotal(base, rules, checkIn, first) + Subtotal(base, rules, checkIn + first, second)
  {
    if second > 0 {
      SubtotalSplits(base, rules, checkIn, first, second - 1);
    }
  }

  lemma Distributes(a: int, b: int, rate: real)
    ensures ExactShare(a + b, rate) == ExactShare(a, rate) + ExactShare(b, rate)
  {
  }

  /** Rounding a sum and summing the rounded parts differ by at most one. */
  lemma SharesSplit(a: int, b: int, rate: real)
    ensures -1 <= Share(a + b, rate) - Share(a, rate) - Share(b, rate) <= 1
  {
    hide Share, ExactShare;
    Distributes(a, b, rate);
    ShareIsNearest(a, rate);
    ShareIsNearest(b, rate);
    ShareIsNearest(a + b, rate);
    ThreeErrors(ExactShare(a, rate), ExactShare(b, rate), Share(a, rate), Share(b, rate), Share(a + b, rate));
  }

  lemma ThreeErrors(x: real, y: real, p: int, q: int, r: int)
    requires Abs(p as real - x) <= 0.5 && Abs(q as real - y) <= 0.5 && Abs(r as real - (x + y)) <= 0.5
    ensures -1 <= r - p - q <= 1
  {
    var d := r - p - q;
    assert d as real == r as real - p as real - q as real;
    assert -1.5 <= d as real <= 1.5;
  }

  /** Rounding is monotone, and a step of less than one moves it by at most one. */
  lemma HalfUpSteps(x: real, y: real)
    requires x <= y < x + 1.0
    ensures HalfUp(x) <= HalfUp(y) <= HalfUp(x) + 1
  {
    HalfUpGrows(x, y);
    HalfUpIsNearest(x, HalfUp(x));
    HalfUpIsNearest(y, HalfUp(y));
  }

  /** One cent more is taxed by at most one cent more, and never less. */
  lemma OneMoreCent(amount: int, rate: real)
    requires 0.0 <= rate <= 1.0
    ensures Share(amount, rate) <= Share(amount + 1, rate) <= Share(amount, rate) + 1
  {
    hide HalfUp;
    if rate == 1.0 {
      WholeShare(amount);
      WholeShare(amount + 1);
    } else {
      Distributes(amount, 1, rate);
      HalfUpSteps(ExactShare(amount, rate), ExactShare(amount + 1, rate));
    }
  }

  lemma WholeShare(amount: int)
    ensures Share(amount, 1.0) == amount
  {
    HalfUpIsNearest(amount as real, amount);
    assert amount as real * 1.0 == amount as real;
  }

  /** With a tax rate between none and all, splitting a subtotal moves the total by at most three cents. */
  lemma TotalSplits(a: int, b: int, discountRate: real, taxRate: real)
    requires 0.0 <= taxRate <= 1.0
    ensures -3
         <= Total(a + b, discountRate, taxRate) - Total(a, discountRate, taxRate) - Total(b, discountRate, taxRate)
         <= 3
  {
    hide Share;
    var p, q, r := Discounted(a, discountRate), Discounted(b, discountRate), Discounted(a + b, discountRate);
    SharesSplit(a, b, discountRate);
    SharesSplit(p, q, taxRate);
    OneMoreCent(p + q, taxRate);
    OneMoreCent(p + q - 1, taxRate);
    assert -1 <= r - (p + q) <= 1;
  }

  /** Splitting a stay at any night changes what the guest is charged by at most three cents. */
  lemma SplittingMovesThreeCents(price: Price, rules: Rules, checkIn: int, between: int, checkOut: int,
                                 tier: Option<string>)
    requires checkIn <= between <= checkOut && 0.0 <= price.taxRate <= 1.0
    ensures var whole := QuoteStay(price, rules, checkIn, checkOut, tier).quote.totalAmount;
      var first := QuoteStay(price, rules, checkIn, between, tier).quote.totalAmount;
      var second := QuoteStay(price, rules, between, checkOut, tier).quote.totalAmount;
      -3 <= whole - first - second <= 3
  {
    hide Share, Subtotal, DiscountRate;
    var first, second := between - checkIn, checkOut - between;
    SubtotalSplits(price.baseCents, rules, checkIn, first, second);
    TotalSplits(Subtotal(price.baseCents, rules, checkIn, first), Subtotal(price.baseCents, rules, between, second),
                DiscountRate(rules, tier), price.taxRate);
  }

  /** The bound is reached: two nights at 27 cents, half of it off, taxed at 65 percent. */
  lemma ThreeCentsAreReached()
    ensures var price, rules := Price(27.0, 0.65, "USD"), Rules(0.0, 0.0, [("HALF", 0.5)], []);
      && QuoteStay(price, rules, 0, 2, Some("half")).quote.totalAmount == 45
      && QuoteStay(price, rules, 0, 1, Some("half")).quote.totalAmount == 21
      && QuoteStay(price, rules, 1, 2, Some("half")).quote.totalAmount == 21
  {
    var rules := Rules(0.0, 0.0, [("HALF", 0.5)], []);
    assert EqualsIgnoreCase("HALF", "half");
    assert DiscountRate(rules, Some("half")) == 0.5;
    assert NightlyRate(27.0, rules, 0) == 27 && NightlyRate(27.0, rules, 1) == 27;
    assert Subtotal(27.0, rules, 0, 1) == 27 && Subtotal(27.0, rules, 1, 1) == 27;
    assert Subtotal(27.0, rules, 0, 2) == 54;
  }

  // ---- whole weeks -----------------------------------------------------------------------------

  ghost predicate HolidayFree(rules: Rules, checkIn: int, nights: nat) {
    forall d :: checkIn <= d < checkIn + nights ==> d !in rules.holidays
  }

  function WeekdayRate(base: real): int { HalfUp(base) }

  function WeekendRate(base: real, rules: Rules): int { HalfUp(base * (1.0 + rules.weekendUplift)) }

  lemma OrdinaryNight(base: real, rules: Rules, night: int)
    requires night !in rules.holidays
    ensures NightlyRate(base, rules, night)
         == if IsWeekendNight(night) then WeekendRate(base, rules) else WeekdayRate(base)
  {
    assert base * 1.0 == base;
  }

  lemma OneWeek(base: real, rules: Rules, checkIn: int)
    requires HolidayFree(rules, checkIn, 7)
    ensures Subtotal(base, rules, checkIn, 7) == 5 * WeekdayRate(base) + 2 * WeekendRate(base, rules)
  {
    hide NightlyRate, WeekendRate, WeekdayRate, Subtotal, DayOfWeek;
    SevenNights(base, rules, checkIn);
    OrdinaryNight(base, rules, checkIn);
    OrdinaryNight(base, rules, checkIn + 1);
    OrdinaryNight(base, rules, checkIn + 2);
    OrdinaryNight(base, rules, checkIn + 3);
    OrdinaryNight(base, rules, checkIn + 4);
    OrdinaryNight(base, rules, checkIn + 5);
    OrdinaryNight(base, rules, checkIn + 6);
    NextDay(checkIn);
    NextDay(checkIn + 1);
    NextDay(checkIn + 2);
    NextDay(checkIn + 3);
    NextDay(checkIn + 4);
    NextDay(checkIn + 5);
    assert DayOfWeek(checkIn) in {0, 1, 2, 3, 4, 5, 6};
  }

  lemma NextDay(day: int)
    ensures DayOfWeek(day) < 7
    ensures DayOfWeek(day + 1) == if DayOfWeek(day) == 6 then 0 else DayOfWeek(day) + 1
  {
  }

  lemma OneMoreNight(base: real, rules: Rules, checkIn: int, nights: nat)
    ensures Subtotal(base, rules, checkIn, nights + 1)
         == Subtotal(base, rules, checkIn, nights) + NightlyRate(base, rules, checkIn + nights)
    ensures Subtotal(base, rules, checkIn, 0) == 0
  {
  }

  lemma SevenNights(base: real, rules: Rules, checkIn: int)
    ensures Subtotal(base, rules, checkIn, 7)
         == NightlyRate(base, rules, checkIn) + NightlyRate(base, rules, checkIn + 1)
            + NightlyRate(base, rules, checkIn + 2)
            + NightlyRate(base, rules, checkIn + 3) + NightlyRate(base, rules, checkIn + 4)
            + NightlyRate(base, rules, checkIn + 5) + NightlyRate(base, rules, checkIn + 6)
  {
    hide NightlyRate, Subtotal;
    OneMoreNight(base, rules, checkIn, 0);
    OneMoreNight(base, rules, checkIn, 1);
    OneMoreNight(base, rules, checkIn, 2);
    OneMoreNight(base, rules, checkIn, 3);
    OneMoreNight(base, rules, checkIn, 4);
    OneMoreNight(base, rules, checkIn, 5);
    OneMoreNight(base, rules, checkIn, 6);
  }

  /** A stay of whole weeks without holidays costs the same whatever day it starts. */
  lemma {:induction false} WholeWeeks(base: real, rules: Rules, checkIn: int, weeks: nat)
    requires HolidayFree(rules, checkIn, 7 * weeks)
    ensures Subtotal(base, rules, checkIn, 7 * weeks) == weeks * (5 * WeekdayRate(base) + 2 * WeekendRate(base, rules))
  {
    if weeks > 0 {
      var earlier := 7 * (weeks - 1);
      WholeWeeks(base, rules, checkIn, weeks - 1);
      SubtotalSplits(base, rules, checkIn, earlier, 7);
      OneWeek(base, rules, checkIn + earlier);
      var week := 5 * WeekdayRate(base) + 2 * WeekendRate(base, rules);
      assert weeks * week == (weeks - 1) * week + week;
    }
  }

  // ---- longer stays ------------------------------------------------------------------------------

  lemma OneMoreCentInTotal(a: int, discountRate: real, taxRate: real)
    requires 0.0 <= discountRate <= 1.0 && 0.0 <= taxRate <= 1.0
    ensures Total(a, discountRate, taxRate) <= Total(a + 1, discountRate, taxRate)
  {
    hide Share;
    OneMoreCent(a, discountRate);
    OneMoreCent(Discounted(a, discountRate), taxRate);
  }

  /** With rates between none and all, more before the discount never means less to pay. */
  lemma {:induction false} TotalGrows(a: int, b: int, discountRate: real, taxRate: real)
    requires a <= b && 0.0 <= discountRate <= 1.0 && 0.0 <= taxRate <= 1.0
    ensures Total(a, discountRate, taxRate) <= Total(b, discountRate, taxRate)
    decreases b - a
  {
    hide Total;
    if a < b {
      TotalGrows(a, b - 1, discountRate, taxRate);
      OneMoreCentInTotal(b - 1, discountRate, taxRate);
    }
  }

  /** Staying longer never costs less, when no night has a negative rate. */
  lemma LongerStaysCostNoLess(price: Price, rules: Rules, checkIn: int, checkOut: int, later: int, tier: Option<string>)
    requires checkIn <= checkOut <= later
    requires price.baseCents >= 0.0 && rules.weekendUplift >= -1.0 && rules.holidayUplift >= -1.0
    requires 0.0 <= DiscountRate(rules, tier) <= 1.0 && 0.0 <= price.taxRate <= 1.0
    ensures QuoteStay(price, rules, checkIn, checkOut, tier).quote.totalAmount
         <= QuoteStay(price, rules, checkIn, later, tier).quote.totalAmount
  {
    hide Share, Subtotal, DiscountRate;
    SubtotalSplits(price.baseCents, rules, checkIn, checkOut - checkIn, later - checkOut);
    SubtotalIsPositive(price.baseCents, rules, checkOut, later - checkOut);
    TotalGrows(Subtotal(price.baseCents, rules, checkIn, checkOut - checkIn),
               Subtotal(price.baseCents, rules, checkIn, later - checkIn), DiscountRate(rules, tier), price.taxRate);
  }

  lemma {:induction false} SubtotalIsPositive(base: real, rules: Rules, checkIn: int, nights: nat)
    requires base >= 0.0 && rules.weekendUplift >= -1.0 && rules.holidayUplift >= -1.0
    ensures Subtotal(base, rules, checkIn, nights) >= 0
  {
    hide NightlyRate;
    if nights > 0 {
      SubtotalIsPositive(base, rules, checkIn, nights - 1);
      RateIsPositive(base, rules, checkIn + nights - 1);
    }
  }

  lemma RateIsPositive(base: real, rules: Rules, night: int)
    requires base >= 0.0 && rules.weekendUplift >= -1.0 && rules.holidayUplift >= -1.0
    ensures NightlyRate(base, rules, night) >= 0
  {
    var m := Multiplier(rules, night);
    assert m >= 0.0;
    hide Multiplier, HalfUp;
    NotNegative(base, m);
  }

  lemma NotNegative(x: real, y: real)
    requires x >= 0.0 && y >= 0.0
    ensures HalfUp(x * y) >= 0
  {
    assert x * y >= 0.0;
  }
}
