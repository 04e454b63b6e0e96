/**
 * The monthly lunch settlement: every attendance record marked present or
 * late on a Monday to Saturday of the month earns the daily allowance, and
 * the lunches ordered in the month are set against it.
 */
module Lunch {
  import opened Wrappers
  import opened Seqs
  import opened Text
  import opened Calendar

  /** A date `datetime.date` accepts. */
  type ValidDate = d: Date | Valid(d) witness Date(1, 1, 1)

  /** The allowance earned per working day. */
  const AllowancePerDay: int := 90

  // ---------------------------------------------------------------------
  // The month range
  // ---------------------------------------------------------------------

  /**
   * `_month_range`: the first day of the month and the first day of the
   * next one (January of the next year after December). None where `date`
   * would raise: a month outside 1..12, a year outside 1..9999, or December 9999.
   */
  function MonthRange(y: int, m: int): (r: Option<(Date, Date)>)
    ensures r.Some? <==> 1 <= y <= 9999 && 1 <= m <= 12 && !(y == 9999 && m == 12)
    ensures r.Some? ==> r.value.0 == Date(y, m, 1) && Valid(r.value.1) && r.value.1.day == 1
    ensures r.Some? ==> Before(r.value.0, r.value.1)
  {
    if !(1 <= y <= 9999 && 1 <= m <= 12) then None
    else if m == 12 then (if y == 9999 then None else Some((Date(y, m, 1), Date(y + 1, 1, 1))))
    else Some((Date(y, m, 1), Date(y, m + 1, 1)))
  }

  /** `start <= d < end`. */
  predicate InRange(d: Date, start: Date, end: Date) {
    AtOrBefore(start, d) && Before(d, end)
  }

  /** The range holds exactly the days of month `m` of year `y`. */
  lemma MonthRangeDays(y: int, m: int, d: ValidDate)
    requires MonthRange(y, m).Some?
    ensures var r := MonthRange(y, m).value;
      InRange(d, r.0, r.1) <==> d.year == y && d.month == m
  {
  }

  // ---------------------------------------------------------------------
  // Attendance
  // ---------------------------------------------------------------------

  /** An attendance record: employee, status and date (none when empty or unreadable). */
  datatype AttendanceRecord = AttendanceRecord(employee: string, status: string, date: Option<ValidDate>)

  /** Present ("出席") and late ("遲到") earn the allowance; leave ("請假") does not. */
  predicate LunchStatus(s: string) {
    s == "出席" || s == "遲到"
  }

  predicate Attended(r: AttendanceRecord, employee: string, start: Date, end: Date) {
    r.employee == employee && LunchStatus(r.status) && r.date.Some? && InRange(r.date.value, start, end)
  }

  /** The dates of the attended records of `employee` in `[start, end)`, in record order. */
  function AttendedDates(recs: seq<AttendanceRecord>, employee: string, start: Date, end: Date): (ds: seq<ValidDate>)
    ensures |ds| <= |recs|
    decreases |recs|
  {
    if recs == [] then []
    else
      var last := recs[|recs| - 1];
      AttendedDates(recs[..|recs| - 1], employee, start, end) + (if Attended(last, employee, start, end) then [last.date.value] else [])
  }

  /**
   * The eligible attendance days of an employee: none for an empty name or
   * when the attendance query fails (`fails`); duplicates are kept.
   */
  function EligibleDays(recs: seq<AttendanceRecord>, employee: string, start: Date, end: Date, fails: bool): seq<ValidDate> {
    var e := Strip(employee);
    if e == [] || fails then [] else AttendedDates(recs, e, start, end)
  }

  // ---------------------------------------------------------------------
  // Sorting the days (`sorted`)
  // ---------------------------------------------------------------------

  predicate DatesSorted(s: seq<ValidDate>) {
    forall i, j :: 0 <= i < j < |s| ==> DateKey(s[i]) <= DateKey(s[j])
  }

  function InsertDate(x: ValidDate, s: seq<ValidDate>): (r: seq<ValidDate>)
    ensures |r| == |s| + 1
    decreases |s|
  {
    if s == [] then [x]
    else if DateKey(x) <= DateKey(s[0]) then [x] + s
    else [s[0]] + InsertDate(x, s[1..])
  }

  lemma {:induction false} InsertDateMultiset(x: ValidDate, s: seq<ValidDate>)
    ensures multiset(InsertDate(x, s)) == multiset(s) + multiset{x}
    decreases |s|
  {
    if s != [] && DateKey(x) > DateKey(s[0]) {
      InsertDateMultiset(x, s[1..]);
      assert s == [s[0]] + s[1..];
    }
  }

  predicate KeysAtLeast(s: seq<ValidDate>, b: int) {
    forall i :: 0 <= i < |s| ==> b <= DateKey(s[i])
  }

  lemma {:induction false} InsertDateAtLeast(x: ValidDate, s: seq<ValidDate>, b: int)
    requires b <= DateKey(x) && KeysAtLeast(s, b)
    ensures KeysAtLeast(InsertDate(x, s), b)
    decreases |s|
  {
    if s != [] && DateKey(x) > DateKey(s[0]) {
      var t := InsertDate(x, s[1..]);
      InsertDateAtLeast(x, s[1..], b);
      var r := [s[0]] + t;
      assert forall i :: 1 <= i < |r| ==> r[i] == t[i - 1];
    }
  }

  lemma {:induction false} InsertDateSorted(x: ValidDate, s: seq<ValidDate>)
    requires DatesSorted(s)
    ensures DatesSorted(InsertDate(x, s))
    decreases |s|
  {
    if s != [] && DateKey(x) > DateKey(s[0]) {
      var t := InsertDate(x, s[1..]);
      InsertDateSorted(x, s[1..]);
      InsertDateAtLeast(x, s[1..], DateKey(s[0]));
      var r := [s[0]] + t;
      assert forall i :: 1 <= i < |r| ==> r[i] == t[i - 1];
    }
  }

  /** `sorted(days)`, as an insertion sort on the date order. */
  function SortDates(s: seq<ValidDate>): (r: seq<ValidDate>)
    ensures DatesSorted(r)
    decreases |s|
  {
    if s == [] then []
    else
      InsertDateSorted(s[0], SortDates(s[1..]));
      InsertDate(s[0], SortDates(s[1..]))
  }

  lemma {:induction false} SortDatesPermutes(s: seq<ValidDate>)
    ensures multiset(SortDates(s)) == multiset(s)
    decreases |s|
  {
    if s != [] {
      SortDatesPermutes(s[1..]);
      InsertDateMultiset(s[0], SortDates(s[1..]));
      assert s == [s[0]] + s[1..];
    }
  }

  // ---------------------------------------------------------------------
  // Working days
  // ---------------------------------------------------------------------

  /** Monday to Saturday: weekdays 0 to 5. */
  predicate LunchWorkday(d: ValidDate) {
    DateWeekday(d) < 6
  }

  predicate KeepDay(d: ValidDate, start: Date, end: Date) {
    LunchWorkday(d) && InRange(d, start, end)
  }

  /** The days of `ds`, in order, that are Monday to Saturday and inside `[start, end)`. */
  function WorkingList(ds: seq<ValidDate>, start: Date, end: Date): (r: seq<ValidDate>)
    ensures |r| <= |ds|
    decreases |ds|
  {
    if ds == [] then []
    else
      var last := ds[|ds| - 1];
      WorkingList(ds[..|ds| - 1], start, end) + (if KeepDay(last, start, end) then [last] else [])
  }

  /** A kept day occurs as often as in the input; any other day does not occur. */
  lemma {:induction false} WorkingListCount(ds: seq<ValidDate>, start: Date, end: Date, d: ValidDate)
    ensures multiset(WorkingList(ds, start, end))[d] == if KeepDay(d, start, end) then multiset(ds)[d] else 0
    decreases |ds|
  {
    if ds != [] {
      var init, last := ds[..|ds| - 1], ds[|ds| - 1];
      WorkingListCount(init, start, end, d);
      assert ds == init + [last];
    }
  }

  /** Filtering keeps the order, so the filtered sorted days are sorted. */
  lemma {:induction false} WorkingListSorted(ds: seq<ValidDate>, start: Date, end: Date)
    requires DatesSorted(ds)
    ensures DatesSorted(WorkingList(ds, start, end))
    decreases |ds|
  {
    if ds != [] {
      var init, last := ds[..|ds| - 1], ds[|ds| - 1];
      assert DatesSorted(init);
      WorkingListSorted(init, start, end);
      WorkingListBelow(init, start, end, DateKey(last));
    }
  }

  lemma {:induction false} WorkingListBelow(ds: seq<ValidDate>, start: Date, end: Date, b: int)
    requires forall i :: 0 <= i < |ds| ==> DateKey(ds[i]) <= b
    ensures forall i :: 0 <= i < |WorkingList(ds, start, end)| ==> DateKey(WorkingList(ds, start, end)[i]) <= b
    decreases |ds|
  {
    if ds != [] {
      WorkingListBelow(ds[..|ds| - 1], start, end, b);
    }
  }

  lemma WorkingListStep(ds: seq<ValidDate>, start: Date, end: Date, i: nat)
    requires i < |ds|
    ensures WorkingList(ds[..i + 1], start, end) == WorkingList(ds[..i], start, end) + (if KeepDay(ds[i], start, end) then [ds[i]] else [])
  {
    assert ds[..i + 1][..i] == ds[..i];
  }

  /** The days that earn the allowance, for an employee and a month. */
  function LunchDays(recs: seq<AttendanceRecord>, employee: string, y: int, m: int, fails: bool): seq<ValidDate>
    requires MonthRange(y, m).Some?
  {
    var r := MonthRange(y, m).value;
    WorkingList(SortDates(EligibleDays(recs, employee, r.0, r.1, fails)), r.0, r.1)
  }

  /** `calc_working_days_for_lunch`: the sorted eligible days, keeping the Monday-to-Saturday ones in the month. */
  method WorkingDaysForLunch(recs: seq<AttendanceRecord>, employee: string, y: int, m: int, fails: bool) returns (count: nat, days: seq<ValidDate>)
    requires MonthRange(y, m).Some?
    ensures days == LunchDays(recs, employee, y, m, fails) && count == |days|
  {
    var range := MonthRange(y, m).value;
    var start, end := range.0, range.1;
    var sorted := SortDates(EligibleDays(recs, employee, start, end, fails));
    days := [];
    var i := 0;
    assert sorted[..0] == [];
    while i < |sorted|
      invariant 0 <= i <= |sorted|
      invariant days == WorkingList(sorted[..i], start, end)
    {
      WorkingListStep(sorted, start, end, i);
      var d := sorted[i];
      if DateWeekday(d) < 6 && InRange(d, start, end) {
        days := days + [d];
      }
      i := i + 1;
    }
    assert sorted[..i] == sorted;
    count := |days|;
  }

  /** The earning days are in date order, and each is a Monday to Saturday of the month. */
  lemma LunchDaysOrdered(recs: seq<AttendanceRecord>, employee: string, y: int, m: int, fails: bool)
    requires MonthRange(y, m).Some?
    ensures DatesSorted(LunchDays(recs, employee, y, m, fails))
  {
    var r := MonthRange(y, m).value;
    WorkingListSorted(SortDates(EligibleDays(recs, employee, r.0, r.1, fails)), r.0, r.1);
  }

  /**
   * A Monday-to-Saturday day of the month is counted once per eligible
   * attendance record on it (duplicates are kept); a Sunday or a day of
   * another month is not counted.
   */
  lemma LunchDaysMultiplicity(recs: seq<AttendanceRecord>, employee: string, y: int, m: int, fails: bool, d: ValidDate)
    requires MonthRange(y, m).Some?
    ensures var r := MonthRange(y, m).value;
      multiset(LunchDays(recs, employee, y, m, fails))[d]
      == if LunchWorkday(d) && d.year == y && d.month == m then multiset(EligibleDays(recs, employee, r.0, r.1, fails))[d] else 0
  {
    var r := MonthRange(y, m).value;
    var ds := EligibleDays(recs, employee, r.0, r.1, fails);
    WorkingListCount(SortDates(ds), r.0, r.1, d);
    SortDatesPermutes(ds);
    MonthRangeDays(y, m, d);
  }

  // ---------------------------------------------------------------------
  // Lunch orders and the settlement
  // ---------------------------------------------------------------------

  /** A lunch order: employee, date (none when empty) and amount (none when empty). */
  datatype LunchRecord = LunchRecord(employee: string, date: Option<ValidDate>, amount: Option<real>)

  /** The query's filter: the employee unless the name is empty or "全部員工", and a date in `[start, end)`. */
  predicate Ordered(r: LunchRecord, emp: string, start: Date, end: Date) {
    (emp == [] || emp == "全部員工" || r.employee == emp) && r.date.Some? && InRange(r.date.value, start, end)
  }

  function OrdersIn(recs: seq<LunchRecord>, emp: string, start: Date, end: Date): (r: seq<LunchRecord>)
    ensures |r| <= |recs|
    decreases |recs|
  {
    if recs == [] then []
    else
      var last := recs[|recs| - 1];
      OrdersIn(recs[..|recs| - 1], emp, start, end) + (if Ordered(last, emp, start, end) then [last] else [])
  }

  /** The sort key of an order: its date (every order the query returns has one). */
  function OrderKey(r: LunchRecord): int {
    if r.date.Some? then DateKey(r.date.value) else 0
  }

  /** Newest first: the dates never increase along the sequence. */
  predicate NewestFirst(s: seq<LunchRecord>) {
    forall i, j :: 0 <= i < j < |s| ==> OrderKey(s[j]) <= OrderKey(s[i])
  }

  function InsertOrder(x: LunchRecord, s: seq<LunchRecord>): (r: seq<LunchRecord>)
    ensures |r| == |s| + 1
    decreases |s|
  {
    if s == [] then [x]
    else if OrderKey(x) >= OrderKey(s[0]) then [x] + s
    else [s[0]] + InsertOrder(x, s[1..])
  }

  lemma {:induction false} InsertOrderMultiset(x: LunchRecord, s: seq<LunchRecord>)
    ensures multiset(InsertOrder(x, s)) == multiset(s) + multiset{x}
    decreases |s|
  {
    if s != [] && OrderKey(x) < OrderKey(s[0]) {
      InsertOrderMultiset(x, s[1..]);
      assert s == [s[0]] + s[1..];
    }
  }

  predicate KeysAtMost(s: seq<LunchRecord>, b: int) {
    forall i :: 0 <= i < |s| ==> OrderKey(s[i]) <= b
  }

  lemma {:induction false} InsertOrderAtMost(x: LunchRecord, s: seq<LunchRecord>, b: int)
    requires OrderKey(x) <= b && KeysAtMost(s, b)
    ensures KeysAtMost(InsertOrder(x, s), b)
    decreases |s|
  {
    if s != [] && OrderKey(x) < OrderKey(s[0]) {
      var t := InsertOrder(x, s[1..]);
      InsertOrderAtMost(x, s[1..], b);
      var r := [s[0]] + t;
      assert forall i :: 1 <= i < |r| ==> r[i] == t[i - 1];
    }
  }

  lemma {:induction false} InsertOrderSorted(x: LunchRecord, s: seq<LunchRecord>)
    requires NewestFirst(s)
    ensures NewestFirst(InsertOrder(x, s))
    decreases |s|
  {
    if s != [] && OrderKey(x) < OrderKey(s[0]) {
      var t := InsertOrder(x, s[1..]);
      InsertOrderSorted(x, s[1..]);
      InsertOrderAtMost(x, s[1..], OrderKey(s[0]));
      var r := [s[0]] + t;
      assert forall i :: 1 <= i < |r| ==> r[i] == t[i - 1];
    }
  }

  /** The query's `sorts` on the order date, descending, as a stable insertion sort. */
  function SortNewest(s: seq<LunchRecord>): (r: seq<LunchRecord>)
    ensures NewestFirst(r)
    decreases |s|
  {
    if s == [] then []
    else
      InsertOrderSorted(s[0], SortNewest(s[1..]));
      InsertOrder(s[0], SortNewest(s[1..]))
  }

  lemma {:induction false} SortNewestPermutes(s: seq<LunchRecord>)
    ensures multiset(SortNewest(s)) == multiset(s)
    decreases |s|
  {
    if s != [] {
      var tl := s[1..];
      assert s == [s[0]] + tl;
      assert multiset(s) == multiset(tl) + multiset{s[0]};
      SortNewestPermutes(tl);
      InsertOrderMultiset(s[0], SortNewest(tl));
    }
  }

  /**
   * `list_lunch_records` for the settlement: the month's orders of the
   * employee, newest first, one page of at most 100 (a limit of 500 is cut
   * to the page size); none when the query fails (`fails`).
   */
  function OrdersRead(recs: seq<LunchRecord>, employee: string, start: Date, end: Date, fails: bool): seq<LunchRecord> {
    if fails then [] else Take(SortNewest(OrdersIn(recs, Strip(employee), start, end)), 100)
  }

  /** The amounts ordered (`amount or 0`). */
  function Spent(rs: seq<LunchRecord>): real
    decreases |rs|
  {
    if rs == [] then 0.0 else Spent(rs[..|rs| - 1]) + rs[|rs| - 1].amount.GetOr(0.0)
  }

  lemma {:induction false} SpentAppend(a: seq<LunchRecord>, b: seq<LunchRecord>)
    ensures Spent(a + b) == Spent(a) + Spent(b)
    decreases |b|
  {
    if b == [] {
      assert a + b == a;
    } else {
      var b' := b[..|b| - 1];
      assert (a + b)[..|a + b| - 1] == a + b';
      SpentAppend(a, b');
    }
  }

  lemma {:induction false} InsertOrderSpent(x: LunchRecord, s: seq<LunchRecord>)
    ensures Spent(InsertOrder(x, s)) == Spent(s) + x.amount.GetOr(0.0)
    decreases |s|
  {
    assert [x][..0] == [];
    if s == [] {
    } else if OrderKey(x) >= OrderKey(s[0]) {
      SpentAppend([x], s);
    } else {
      assert [s[0]][..0] == [];
      InsertOrderSpent(x, s[1..]);
      SpentAppend([s[0]], InsertOrder(x, s[1..]));
      SpentAppend([s[0]], s[1..]);
      assert s == [s[0]] + s[1..];
    }
  }

  /** Sorting the orders does not change what they add up to. */
  lemma {:induction false} SortNewestSpent(s: seq<LunchRecord>)
    ensures Spent(SortNewest(s)) == Spent(s)
    decreases |s|
  {
    if s != [] {
      assert [s[0]][..0] == [];
      SortNewestSpent(s[1..]);
      InsertOrderSpent(s[0], SortNewest(s[1..]));
      SpentAppend([s[0]], s[1..]);
      assert s == [s[0]] + s[1..];
    }
  }

  /**
   * The orders read are matching orders, at most 100 of them, and the
   * newest: every matching order left unread is no newer than any order read.
   */
  lemma OrdersReadNewest(recs: seq<LunchRecord>, employee: string, start: Date, end: Date)
    ensures var matching := OrdersIn(recs, Strip(employee), start, end);
      var all := SortNewest(matching);
      var read := OrdersRead(recs, employee, start, end, false);
      multiset(all) == multiset(matching) &&
      multiset(read) <= multiset(matching) &&
      |read| == (if |matching| <= 100 then |matching| else 100) &&
      forall i, j :: 0 <= i < |read| <= j < |all| ==> OrderKey(all[j]) <= OrderKey(read[i])
  {
    var matching := OrdersIn(recs, Strip(employee), start, end);
    var all := SortNewest(matching);
    var read := OrdersRead(recs, employee, start, end, false);
    SortNewestPermutes(matching);
    assert read == all[..|read|];
    assert all == read + all[|read|..];
    assert multiset(all) == multiset(read) + multiset(all[|read|..]);
  }

  /** With at most 100 matching orders, all of them are counted as spent. */
  lemma OrdersReadFew(recs: seq<LunchRecord>, employee: string, start: Date, end: Date)
    requires |OrdersIn(recs, Strip(employee), start, end)| <= 100
    ensures Spent(OrdersRead(recs, employee, start, end, false)) == Spent(OrdersIn(recs, Strip(employee), start, end))
  {
    var matching := OrdersIn(recs, Strip(employee), start, end);
    SortNewestPermutes(matching);
    assert |SortNewest(matching)| == |matching| by {
      assert |multiset(SortNewest(matching))| == |multiset(matching)|;
    }
    SortNewestSpent(matching);
  }

  /** The settlement's difference: allowance for the earning days minus the amounts spent. */
  function SettlementDiff(attendance: seq<AttendanceRecord>, orders: seq<LunchRecord>, employee: string, y: int, m: int,
                          attendanceFails: bool, ordersFails: bool): real
    requires MonthRange(y, m).Some?
  {
    var r := MonthRange(y, m).value;
    (|LunchDays(attendance, employee, y, m, attendanceFails)| * AllowancePerDay) as real - Spent(OrdersRead(orders, employee, r.0, r.1, ordersFails))
  }

  datatype Settlement = Settlement(employee: string, year: int, month: int, days: nat, entitlement: real, spent: real, diff: real)

  /**
   * `calc_month_lunch_settlement`: entitlement = days × 90, difference =
   * entitlement − spent. A failed query reads as no rows: no days, or
   * nothing spent.
   */
  method CalcMonthLunchSettlement(attendance: seq<AttendanceRecord>, orders: seq<LunchRecord>, employee: string, y: int, m: int,
                                  attendanceFails: bool, ordersFails: bool)
    returns (s: Settlement)
    requires MonthRange(y, m).Some?
    ensures s.days == |LunchDays(attendance, employee, y, m, attendanceFails)|
    ensures s.entitlement == (s.days * AllowancePerDay) as real
    ensures s.spent == Spent(OrdersRead(orders, employee, MonthRange(y, m).value.0, MonthRange(y, m).value.1, ordersFails))
    ensures s.diff == s.entitlement - s.spent == SettlementDiff(attendance, orders, employee, y, m, attendanceFails, ordersFails)
  {
    var range := MonthRange(y, m).value;
    var days, _ := WorkingDaysForLunch(attendance, employee, y, m, attendanceFails);
    var entitlement := days * AllowancePerDay;
    var rows := OrdersRead(orders, employee, range.0, range.1, ordersFails);
    var spent := Spent(rows);
    s := Settlement(employee, y, m, days, entitlement as real, spent, entitlement as real - spent);
  }

  /**
   * With an empty name no day earns the allowance, yet the orders of every
   * employee in the month are counted as spent.
   */
  lemma EmptyNameSettlement(attendance: seq<AttendanceRecord>, orders: seq<LunchRecord>, employee: string, y: int, m: int,
                            attendanceFails: bool, r: LunchRecord)
    requires MonthRange(y, m).Some? && Strip(employee) == []
    requires r.date.Some? && InRange(r.date.value, MonthRange(y, m).value.0, MonthRange(y, m).value.1)
    ensures LunchDays(attendance, employee, y, m, attendanceFails) == []
    ensures Ordered(r, Strip(employee), MonthRange(y, m).value.0, MonthRange(y, m).value.1)
  {
  }

  /**
   * A failed attendance query earns nothing, so the difference is minus the
   * amount spent; a failed order query spends nothing, so the difference is
   * the whole entitlement.
   */
  lemma FailedReadsSettlement(attendance: seq<AttendanceRecord>, orders: seq<LunchRecord>, employee: string, y: int, m: int,
                              attendanceFails: bool, ordersFails: bool)
    requires MonthRange(y, m).Some?
    ensures var r := MonthRange(y, m).value;
      SettlementDiff(attendance, orders, employee, y, m, true, ordersFails) == 0.0 - Spent(OrdersRead(orders, employee, r.0, r.1, ordersFails))
    ensures SettlementDiff(attendance, orders, employee, y, m, attendanceFails, true)
         == (|LunchDays(attendance, employee, y, m, attendanceFails)| * AllowancePerDay) as real
  {
    var r := MonthRange(y, m).value;
    assert SortDates([]) == [];
    assert WorkingList([], r.0, r.1) == [];
  }
}
