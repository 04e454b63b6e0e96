/**
 * Cashing out unused vacation: remaining hours become days at the
 * configured hours per day, are truncated to whole days or rounded to two
 * decimals, are capped, and are paid at a fixed amount per day.
 */
module Cashout {
  import opened Money

  /** The hours per day used when none, or one not above 0, is configured. */
  const DefaultHoursPerDay: real := 8.0

  /** `round(x, 2)` on exact reals: to the nearest hundredth, a tie to the even hundredth. */
  function Round2(x: real): (r: real)
    ensures -0.005 <= r - x <= 0.005
  {
    var y := x * 100.0;
    var f := y.Floor;
    var frac := y - f as real;
    var n := if frac < 0.5 then f else if frac > 0.5 then f + 1 else if f % 2 == 0 then f else f + 1;
    n as real / 100.0
  }

  datatype CashoutResult = CashoutResult(remainingDays: real, cashoutDays: real, cashoutAmount: real)

  /** The hours per day actually used: the configured value, or 8 when it is not above 0. */
  function EffectiveHoursPerDay(hoursPerDay: real): (h: real)
    ensures h > 0.0
    ensures hoursPerDay > 0.0 ==> h == hoursPerDay
    ensures hoursPerDay <= 0.0 ==> h == DefaultHoursPerDay
  {
    if hoursPerDay <= 0.0 then DefaultHoursPerDay else hoursPerDay
  }

  /** The cap actually applied: `max(0, capDays)`. */
  function CapOf(capDays: real): (c: real)
    ensures c >= 0.0 && c >= capDays
    ensures c == capDays || c == 0.0
  {
    if capDays > 0.0 then capDays else 0.0
  }

  /** The days before capping: the whole part of the remaining days, or the remaining days rounded to two decimals. */
  function RawDays(remainingDays: real, wholeDaysOnly: bool): real {
    if wholeDaysOnly then Trunc(remainingDays) as real else Round2(remainingDays)
  }

  /**
   * `calc_cashout`. A missing argument reads as 0 (so a missing hours per
   * day falls back to 8 and a missing cap caps at 0). The days cashed out
   * are the smaller of the raw days and the cap.
   */
  function CalcCashout(remainingHours: real, hoursPerDay: real, capDays: real, amountPerDay: real, wholeDaysOnly: bool): (r: CashoutResult)
    ensures r.remainingDays == remainingHours / EffectiveHoursPerDay(hoursPerDay)
    ensures r.cashoutDays <= RawDays(r.remainingDays, wholeDaysOnly) && r.cashoutDays <= CapOf(capDays)
    ensures r.cashoutDays == RawDays(r.remainingDays, wholeDaysOnly) || r.cashoutDays == CapOf(capDays)
    ensures r.cashoutAmount == Times(r.cashoutDays, amountPerDay)
  {
    var hpd := EffectiveHoursPerDay(hoursPerDay);
    var remainingDays := remainingHours / hpd;
    var rawDays := if wholeDaysOnly then Trunc(remainingDays) as real else Round2(remainingDays);
    var cap := if capDays > 0.0 then capDays else 0.0;
    var days := if rawDays < cap then rawDays else cap;
    CashoutResult(remainingDays, days, Times(days, amountPerDay))
  }

  /**
   * Without whole days only, the days cashed out are at most the remaining
   * days plus 0.005, and are the cap or within 0.005 of the remaining days.
   */
  lemma RoundedDays(remainingHours: real, hoursPerDay: real, capDays: real, amountPerDay: real)
    ensures var r := CalcCashout(remainingHours, hoursPerDay, capDays, amountPerDay, false);
      r.cashoutDays <= r.remainingDays + 0.005 &&
      (r.cashoutDays == CapOf(capDays) || -0.005 <= r.cashoutDays - r.remainingDays <= 0.005)
  {
  }

  /**
   * With whole days only and a non-negative balance, the days cashed out
   * lie between 0 and the whole part of the remaining days, and are the
   * smaller of that whole part and the cap.
   */
  lemma WholeDaysBounds(remainingHours: real, hoursPerDay: real, capDays: real, amountPerDay: real)
    requires remainingHours >= 0.0
    ensures var r := CalcCashout(remainingHours, hoursPerDay, capDays, amountPerDay, true);
      0.0 <= r.cashoutDays <= Trunc(r.remainingDays) as real <= r.remainingDays &&
      r.cashoutDays <= CapOf(capDays) &&
      (r.cashoutDays == CapOf(capDays) || r.cashoutDays == Trunc(r.remainingDays) as real)
  {
    var hpd := EffectiveHoursPerDay(hoursPerDay);
    DivNonNegative(remainingHours, hpd);
  }

  lemma DivNonNegative(a: real, b: real)
    requires a >= 0.0 && b > 0.0
    ensures a / b >= 0.0
  {
  }

  /** A configured hours per day of 0 or below counts as 8. */
  lemma FallbackHoursPerDay(remainingHours: real, hoursPerDay: real, capDays: real, amountPerDay: real, wholeDaysOnly: bool)
    requires hoursPerDay <= 0.0
    ensures CalcCashout(remainingHours, hoursPerDay, capDays, amountPerDay, wholeDaysOnly)
         == CalcCashout(remainingHours, DefaultHoursPerDay, capDays, amountPerDay, wholeDaysOnly)
  {
  }

  /** 37 hours at 8 hours a day, capped at 5 days, 1000 a day: 4.625 days, 4 whole days cashed out, 4000 paid. */
  lemma CashoutExample()
    ensures CalcCashout(37.0, 8.0, 5.0, 1000.0, true) == CashoutResult(4.625, 4.0, 4000.0)
  {
    assert 37.0 / 8.0 == 4.625;
    assert Trunc(4.625) == 4;
  }

  /** A cap above the whole days does not raise them: 37 hours at 8 a day, capped at 4.5 days, cashes out 4 days. */
  lemma CapAboveWholeDays()
    ensures CalcCashout(37.0, 8.0, 4.5, 1000.0, true).cashoutDays == 4.0
  {
    assert 37.0 / 8.0 == 4.625;
    assert Trunc(4.625) == 4;
  }
}
