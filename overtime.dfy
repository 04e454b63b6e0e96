/**
 * Weekday overtime accrual from the duty roster and the overtime-count table.
 *
 * Every occurrence of a name in a shift column of a Monday-to-Friday row
 * counts one hour; the counts are upserted, one record per (employee, year,
 * month), into the overtime-count table, whose hours times the month's
 * hourly rate give the weekday overtime pay.
 */
module Overtime {
  import opened Wrappers
  import opened Seqs
  import opened Text
  import opened Calendar
  import opened DutyRoster
  import opened Money

  // ---------------------------------------------------------------------
  // Roster rows
  // ---------------------------------------------------------------------

  /** A roster row: its column names in order and the cell under each. */
  datatype Row = Row(cols: seq<string>, cells: map<string, Cell>)

  /** `row.get(col)`. */
  function Get(row: Row, col: string): Cell {
    if col in row.cells then row.cells[col] else Missing
  }

  /** The columns that never hold names. */
  const SkipCols: set<string> := {"日期", "星期", "備註"}

  /** The name columns: the first row's columns other than day, weekday and note. */
  function NameCols(rows: seq<Row>): (cols: seq<string>)
    ensures forall c :: c in cols <==> rows != [] && c in rows[0].cols && c !in SkipCols
  {
    if rows == [] then []
    else
      FilterMembers(rows[0].cols, NotSkipped);
      Filter(rows[0].cols, NotSkipped)
  }

  function NotSkipped(c: string): bool {
    c !in SkipCols
  }

  /** `int(cell or 0)`, with 0 when the conversion raises. */
  function DayValue(c: Cell): int {
    match c
    case Missing => 0
    case ListCell(_) => 0
    case IntCell(n) => n
    case TextCell(s) => if s == [] then 0 else ParseInt(s).GetOr(0)
  }

  /** The row's day is a positive day of a valid date in month `m` of year `y` that falls on Monday to Friday. */
  predicate Eligible(y: int, m: int, row: Row) {
    var d := DayValue(Get(row, "日期"));
    d > 0 && ValidYmd(y, m, d) && Weekday(y, m, d) < 5
  }

  /** The names under columns `cols` of a row, column by column, each stripped and non-empty. */
  function CellsNames(cols: seq<string>, row: Row): (r: seq<string>)
    decreases |cols|
  {
    if cols == [] then []
    else CellsNames(cols[..|cols| - 1], row) + KeepNames(ParseCell(Get(row, cols[|cols| - 1])))
  }

  /** One name per occurrence in an eligible row; nothing for any other row. */
  function RowNames(y: int, m: int, cols: seq<string>, row: Row): (r: seq<string>)
  {
    if Eligible(y, m, row) then CellsNames(cols, row) else []
  }

  function AppearancesIn(y: int, m: int, cols: seq<string>, rows: seq<Row>): (r: seq<string>)
    decreases |rows|
  {
    if rows == [] then []
    else AppearancesIn(y, m, cols, rows[..|rows| - 1]) + RowNames(y, m, cols, rows[|rows| - 1])
  }

  /** Every counted occurrence of a name in the month's roster. */
  function Appearances(y: int, m: int, rows: seq<Row>): (r: seq<string>)
  {
    AppearancesIn(y, m, NameCols(rows), rows)
  }

  lemma {:induction false} CellsNamesAllNames(cols: seq<string>, row: Row)
    ensures AllNames(CellsNames(cols, row))
    decreases |cols|
  {
    if cols != [] {
      CellsNamesAllNames(cols[..|cols| - 1], row);
      var ps := ParseCell(Get(row, cols[|cols| - 1]));
      KeepNamesAllNames(ps);
      AllNamesAppend(CellsNames(cols[..|cols| - 1], row), KeepNames(ps));
    }
  }

  lemma {:induction false} AppearancesInAllNames(y: int, m: int, cols: seq<string>, rows: seq<Row>)
    ensures AllNames(AppearancesIn(y, m, cols, rows))
    decreases |rows|
  {
    if rows != [] {
      var init := rows[..|rows| - 1];
      AppearancesInAllNames(y, m, cols, init);
      CellsNamesAllNames(cols, rows[|rows| - 1]);
      AllNamesAppend(AppearancesIn(y, m, cols, init), RowNames(y, m, cols, rows[|rows| - 1]));
    }
  }

  /** Every counted occurrence is a non-empty name without whitespace at its ends. */
  lemma AppearancesAllNames(y: int, m: int, rows: seq<Row>)
    ensures AllNames(Appearances(y, m, rows))
  {
    AppearancesInAllNames(y, m, NameCols(rows), rows);
  }

  /**
   * The hours per name, tallied occurrence by occurrence as the counting
   * loop does (`counts[e] = counts.get(e, 0.0) + 1.0`).
   */
  function CountMap(occ: seq<string>): (c: map<string, real>)
    decreases |occ|
  {
    if occ == [] then map[]
    else
      var c := CountMap(occ[..|occ| - 1]);
      var e := occ[|occ| - 1];
      c[e := (if e in c then c[e] else 0.0) + 1.0]
  }

  lemma CountSnoc(occ: seq<string>, e: string)
    ensures CountMap(occ + [e]) == CountMap(occ)[e := (if e in CountMap(occ) then CountMap(occ)[e] else 0.0) + 1.0]
  {
    assert (occ + [e])[..|occ|] == occ;
  }

  /** The tally has a key exactly for every name that occurs, and its value is the number of occurrences. */
  lemma {:induction false} CountMapCounts(occ: seq<string>)
    ensures forall e :: e in CountMap(occ) <==> e in occ
    ensures forall e :: e in CountMap(occ) ==> CountMap(occ)[e] == multiset(occ)[e] as real
    decreases |occ|
  {
    if occ != [] {
      var init, x := occ[..|occ| - 1], occ[|occ| - 1];
      CountMapCounts(init);
      assert occ == init + [x];
      assert multiset(occ) == multiset(init) + multiset{x};
    }
  }

  // ---------------------------------------------------------------------
  // Counting, step by step
  // ---------------------------------------------------------------------

  /** Count one more hour for `emp`; a name seen for the first time goes to the end of the order. */
  method AddOne(counts0: map<string, real>, order0: seq<string>, emp: string, ghost occ: seq<string>)
    returns (counts: map<string, real>, order: seq<string>)
    requires counts0 == CountMap(occ) && order0 == Dedup(occ)
    ensures counts == CountMap(occ + [emp]) && order == Dedup(occ + [emp])
  {
    CountSnoc(occ, emp);
    CountMapCounts(occ);
    DedupSnoc(occ, emp);
    order := if emp in counts0 then order0 else order0 + [emp];
    counts := counts0[emp := (if emp in counts0 then counts0[emp] else 0.0) + 1.0];
  }

  lemma OccurrencesStep(occ: seq<string>, names: seq<string>, k: nat)
    requires k < |names|
    ensures occ + KeepNames(names[..k + 1]) == (occ + KeepNames(names[..k])) + KeepOne(names[k])
  {
    TakeSnoc(names, k);
    KeepNamesSnoc(names[..k], names[k]);
    AppendAssoc(occ, KeepNames(names[..k]), KeepOne(names[k]));
  }

  /** Count one more hour for a name that is non-empty once stripped; nothing for a blank one. */
  method AddName(counts0: map<string, real>, order0: seq<string>, name: string, ghost occ: seq<string>)
    returns (counts: map<string, real>, order: seq<string>)
    requires counts0 == CountMap(occ) && order0 == Dedup(occ)
    ensures counts == CountMap(occ + KeepOne(name)) && order == Dedup(occ + KeepOne(name))
  {
    var emp := Strip(name);
    if emp != [] {
      assert KeepOne(name) == [emp];
      counts, order := AddOne(counts0, order0, emp, occ);
    } else {
      assert occ + KeepOne(name) == occ;
      counts, order := counts0, order0;
    }
  }

  /** Count one more hour for every non-empty stripped name of `names`. */
  method AddNames(counts0: map<string, real>, order0: seq<string>, names: seq<string>, ghost occ: seq<string>)
    returns (counts: map<string, real>, order: seq<string>)
    requires counts0 == CountMap(occ) && order0 == Dedup(occ)
    ensures counts == CountMap(occ + KeepNames(names)) && order == Dedup(occ + KeepNames(names))
  {
    counts, order := counts0, order0;
    var k := 0;
    assert names[..0] == [] && KeepNames([]) == [];
    assert occ + KeepNames(names[..0]) == occ;
    while k < |names|
      invariant 0 <= k <= |names|
      invariant counts == CountMap(occ + KeepNames(names[..k]))
      invariant order == Dedup(occ + KeepNames(names[..k]))
    {
      OccurrencesStep(occ, names, k);
      counts, order := AddName(counts, order, names[k], occ + KeepNames(names[..k]));
      k := k + 1;
    }
    assert names[..k] == names;
  }

  lemma CellsStep(occ: seq<string>, cols: seq<string>, row: Row, j: nat)
    requires j < |cols|
    ensures occ + CellsNames(cols[..j + 1], row) == (occ + CellsNames(cols[..j], row)) + KeepNames(ParseCell(Get(row, cols[j])))
  {
    assert cols[..j + 1][..j] == cols[..j];
    AppendAssoc(occ, CellsNames(cols[..j], row), KeepNames(ParseCell(Get(row, cols[j]))));
  }

  lemma RowsStep(y: int, m: int, cols: seq<string>, rows: seq<Row>, i: nat)
    requires i < |rows|
    ensures AppearancesIn(y, m, cols, rows[..i + 1]) == AppearancesIn(y, m, cols, rows[..i]) + RowNames(y, m, cols, rows[i])
  {
    assert rows[..i + 1][..i] == rows[..i];
  }

  /** The names of one row, added to the counts when the row is eligible. */
  method CountRow(y: int, m: int, cols: seq<string>, row: Row,
                  counts0: map<string, real>, order0: seq<string>, ghost occ: seq<string>)
    returns (counts: map<string, real>, order: seq<string>)
    requires counts0 == CountMap(occ) && order0 == Dedup(occ)
    ensures counts == CountMap(occ + RowNames(y, m, cols, row)) && order == Dedup(occ + RowNames(y, m, cols, row))
  {
    counts, order := counts0, order0;
    var d := DayValue(Get(row, "日期"));
    if d <= 0 {
      assert occ + [] == occ;
      return;
    }
    if !ValidYmd(y, m, d) {
      assert occ + [] == occ;
      return;
    }
    if Weekday(y, m, d) >= 5 {
      assert occ + [] == occ;
      return;
    }
    var j := 0;
    while j < |cols|
      invariant 0 <= j <= |cols|
      invariant counts == CountMap(occ + CellsNames(cols[..j], row))
      invariant order == Dedup(occ + CellsNames(cols[..j], row))
    {
      var names := ParseNamesCell(Get(row, cols[j]));
      CellsStep(occ, cols, row, j);
      counts, order := AddNames(counts, order, names, occ + CellsNames(cols[..j], row));
      j := j + 1;
    }
    assert cols[..j] == cols;
  }

  /**
   * The hours per employee for month `m` of year `y`: one hour per
   * occurrence, with no same-day de-duplication. `order` lists the employees
   * in the order they were first counted (the order of the result's keys).
   */
  method CalcOvertimeHours(y: int, m: int, rows: seq<Row>) returns (counts: map<string, real>, order: seq<string>)
    ensures counts == CountMap(Appearances(y, m, rows))
    ensures order == Dedup(Appearances(y, m, rows))
  {
    counts, order := map[], [];
    if rows == [] {
      return;
    }
    var cols := NameCols(rows);
    var i := 0;
    while i < |rows|
      invariant 0 <= i <= |rows|
      invariant counts == CountMap(AppearancesIn(y, m, cols, rows[..i]))
      invariant order == Dedup(AppearancesIn(y, m, cols, rows[..i]))
    {
      RowsStep(y, m, cols, rows, i);
      counts, order := CountRow(y, m, cols, rows[i], counts, order, AppearancesIn(y, m, cols, rows[..i]));
      i := i + 1;
    }
    assert rows[..i] == rows;
  }

  // ---------------------------------------------------------------------
  // Properties of the count
  // ---------------------------------------------------------------------

  lemma AppearancesAppend(y: int, m: int, cols: seq<string>, rows: seq<Row>, row: Row)
    ensures AppearancesIn(y, m, cols, rows + [row]) == AppearancesIn(y, m, cols, rows) + RowNames(y, m, cols, row)
  {
    assert (rows + [row])[..|rows|] == rows;
  }

  /**
   * A row whose day is not positive, whose date is not valid or that falls
   * on Saturday or Sunday adds nothing.
   */
  lemma IneligibleRowIgnored(y: int, m: int, rows: seq<Row>, row: Row)
    requires rows != []
    requires var d := DayValue(Get(row, "日期")); d <= 0 || !ValidYmd(y, m, d) || Weekday(y, m, d) >= 5
    ensures Appearances(y, m, rows + [row]) == Appearances(y, m, rows)
  {
    assert NameCols(rows + [row]) == NameCols(rows);
    AppearancesAppend(y, m, NameCols(rows), rows, row);
  }

  /** An eligible row adds, for each name, its number of occurrences over the name columns. */
  lemma EligibleRowAdds(y: int, m: int, rows: seq<Row>, row: Row, e: string)
    requires rows != [] && Eligible(y, m, row)
    ensures multiset(Appearances(y, m, rows + [row]))[e]
         == multiset(Appearances(y, m, rows))[e] + multiset(CellsNames(NameCols(rows), row))[e]
  {
    assert NameCols(rows + [row]) == NameCols(rows);
    AppearancesAppend(y, m, NameCols(rows), rows, row);
  }

  lemma CellsNamesPair(c1: string, c2: string, row: Row)
    ensures CellsNames([c1, c2], row) == KeepNames(ParseCell(Get(row, c1))) + KeepNames(ParseCell(Get(row, c2)))
  {
    var p1, p2 := KeepNames(ParseCell(Get(row, c1))), KeepNames(ParseCell(Get(row, c2)));
    assert [c1, c2][..1] == [c1] && [c1, c2][1] == c2;
    assert [c1][..0] == [] && [c1][0] == c1;
    assert CellsNames([c1], row) == CellsNames([], row) + p1;
    assert [] + p1 == p1;
    assert CellsNames([c1, c2], row) == CellsNames([c1], row) + p2;
  }

  lemma AppearancesSingle(y: int, m: int, cols: seq<string>, row: Row)
    ensures AppearancesIn(y, m, cols, [row]) == RowNames(y, m, cols, row)
  {
    assert [row][..0] == [];
  }

  lemma KeepSingle(e: string)
    requires e != [] && Stripped(e)
    ensures KeepNames([e]) == [e]
  {
    KeepNamesCons(e, []);
    StripUnchanged(e);
    assert [e] + [] == [e];
  }

  lemma CountTwice(e: string)
    ensures CountMap([e, e]) == map[e := 2.0]
  {
    assert [e, e][..1] == [e];
    assert [e][..0] == [];
    assert CountMap([]) == map[];
    assert CountMap([e]) == map[e := 1.0];
  }

  /** The same employee in two shift columns of one weekday counts two hours for that day. */
  lemma TwoShiftsOneDay(y: int, m: int, c1: string, c2: string, row: Row, e: string)
    requires Eligible(y, m, row) && c1 != c2
    requires e != [] && Stripped(e)
    requires Get(row, c1) == ListCell([e]) && Get(row, c2) == ListCell([e])
    ensures CountMap(AppearancesIn(y, m, [c1, c2], [row]))[e] == 2.0
  {
    KeepSingle(e);
    assert KeepNames(ParseCell(ListCell([e]))) == [e];
    CellsNamesPair(c1, c2, row);
    AppearancesSingle(y, m, [c1, c2], row);
    assert AppearancesIn(y, m, [c1, c2], [row]) == [e, e];
    CountTwice(e);
  }

  /** Monday 2 February 2026 is a counted day, Sunday 1 March 2026 is not. */
  lemma CountedDaysExample(row1: Row, row2: Row)
    requires Get(row1, "日期") == IntCell(2) && Get(row2, "日期") == IntCell(1)
    ensures Eligible(2026, 2, row1)
    ensures !Eligible(2026, 3, row2)
  {
    KnownWeekdays();
  }

  // ---------------------------------------------------------------------
  // The overtime-count table
  // ---------------------------------------------------------------------

  /** The key of an overtime-count record. */
  datatype OtKey = OtKey(employee: string, year: int, month: int)

  datatype OtPage = OtPage(id: nat, hours: real)

  /** The table's records and the id the next created record gets. */
  datatype OtStore = OtStore(pages: map<OtKey, OtPage>, nextId: nat)

  /**
   * Upsert of one employee's hours: strip the name; no write and no id for an
   * empty name or a failed request; otherwise overwrite the hours of the
   * existing record for (employee, year, month), keeping its id, or create a
   * record with the next id.
   */
  function UpsertCount(st: OtStore, employee: string, y: int, m: int, hours: real, fails: bool): (res: (OtStore, Option<nat>))
    ensures var e := Strip(employee);
      (e == [] || fails) <==> res.1.None?
    ensures var e := Strip(employee);
      (e == [] || fails) ==> res.0 == st
    ensures var e := Strip(employee); var k := OtKey(e, y, m);
      !(e == [] || fails) ==>
        k in res.0.pages && res.0.pages[k].hours == hours && res.1 == Some(res.0.pages[k].id) &&
        (k in st.pages ==> res.0.pages[k].id == st.pages[k].id && res.0.nextId == st.nextId) &&
        (k !in st.pages ==> res.0.pages[k].id == st.nextId && res.0.nextId == st.nextId + 1) &&
        forall k' :: k' != k ==> (k' in res.0.pages <==> k' in st.pages) && (k' in st.pages ==> res.0.pages[k'] == st.pages[k'])
  {
    var e := Strip(employee);
    var k := OtKey(e, y, m);
    if e == [] || fails then (st, None)
    else if k in st.pages then
      (OtStore(st.pages[k := OtPage(st.pages[k].id, hours)], st.nextId), Some(st.pages[k].id))
    else
      (OtStore(st.pages[k := OtPage(st.nextId, hours)], st.nextId + 1), Some(st.nextId))
  }

  /** One step of a sync: upsert `e`'s hours and count the request as a success or a failure. */
  function SyncStep(prev: (OtStore, nat, nat), e: string, y: int, m: int, counts: map<string, real>, rejected: set<string>): (OtStore, nat, nat)
  {
    var hours := if e in counts then counts[e] else 0.0;
    var up := UpsertCount(prev.0, e, y, m, hours, e in rejected);
    if up.1.Some? then (up.0, prev.1 + 1, prev.2) else (up.0, prev.1, prev.2 + 1)
  }

  /** The result of syncing a prefix of the counted employees, in order. */
  function SyncOver(st: OtStore, y: int, m: int, order: seq<string>, counts: map<string, real>, rejected: set<string>): (res: (OtStore, nat, nat))
    decreases |order|
  {
    if order == [] then (st, 0, 0)
    else SyncStep(SyncOver(st, y, m, order[..|order| - 1], counts, rejected), order[|order| - 1], y, m, counts, rejected)
  }

  lemma SyncOverStep(st: OtStore, y: int, m: int, order: seq<string>, counts: map<string, real>, rejected: set<string>, i: nat)
    requires i < |order|
    ensures SyncOver(st, y, m, order[..i + 1], counts, rejected)
         == SyncStep(SyncOver(st, y, m, order[..i], counts, rejected), order[i], y, m, counts, rejected)
  {
    assert order[..i + 1][..i] == order[..i];
  }

  /** How many of `order` are in `rejected`. */
  function CountRejected(order: seq<string>, rejected: set<string>): (n: nat)
    ensures n <= |order|
    decreases |order|
  {
    if order == [] then 0
    else CountRejected(order[..|order| - 1], rejected) + (if order[|order| - 1] in rejected then 1 else 0)
  }

  /** Every upsert is counted once, as a success or a failure; the failures are the rejected employees. */
  lemma {:induction false} SyncOverTally(st: OtStore, y: int, m: int, order: seq<string>, counts: map<string, real>, rejected: set<string>)
    requires AllNames(order)
    ensures var res := SyncOver(st, y, m, order, counts, rejected);
      res.1 + res.2 == |order| && res.2 == CountRejected(order, rejected)
    decreases |order|
  {
    if order != [] {
      var init := order[..|order| - 1];
      var e := order[|order| - 1];
      assert forall i :: 0 <= i < |init| ==> init[i] == order[i];
      SyncOverTally(st, y, m, init, counts, rejected);
      StripUnchanged(e);
    }
  }

  /** After a sync every counted employee who was not rejected has a record with their hours. */
  lemma {:induction false} SyncOverWrites(st: OtStore, y: int, m: int, order: seq<string>, counts: map<string, real>, rejected: set<string>)
    requires forall i :: 0 <= i < |order| ==> order[i] != [] && Stripped(order[i]) && order[i] in counts
    ensures var res := SyncOver(st, y, m, order, counts, rejected);
      forall i :: 0 <= i < |order| && order[i] !in rejected ==>
        OtKey(order[i], y, m) in res.0.pages && res.0.pages[OtKey(order[i], y, m)].hours == counts[order[i]]
    decreases |order|
  {
    if order != [] {
      var init := order[..|order| - 1];
      var e := order[|order| - 1];
      SyncOverWrites(st, y, m, init, counts, rejected);
      StripUnchanged(e);
      var res := SyncOver(st, y, m, order, counts, rejected);
      forall i | 0 <= i < |order| && order[i] !in rejected
        ensures OtKey(order[i], y, m) in res.0.pages && res.0.pages[OtKey(order[i], y, m)].hours == counts[order[i]]
      {
        if i < |order| - 1 {
          assert order[i] == init[i];
          StripUnchanged(order[i]);
        }
      }
    }
  }

  /** A store already holding every written value is left unchanged by the same sync. */
  lemma {:induction false} SyncOverStable(st: OtStore, y: int, m: int, order: seq<string>, counts: map<string, real>, rejected: set<string>)
    requires forall i :: 0 <= i < |order| ==> order[i] != [] && Stripped(order[i]) && order[i] in counts
    requires forall i :: 0 <= i < |order| && order[i] !in rejected ==>
      OtKey(order[i], y, m) in st.pages && st.pages[OtKey(order[i], y, m)].hours == counts[order[i]]
    ensures SyncOver(st, y, m, order, counts, rejected).0 == st
    decreases |order|
  {
    if order != [] {
      var init := order[..|order| - 1];
      var e := order[|order| - 1];
      SyncOverStable(st, y, m, init, counts, rejected);
      StripUnchanged(e);
      if e !in rejected {
        var k := OtKey(e, y, m);
        assert st.pages[k := OtPage(st.pages[k].id, counts[e])] == st.pages;
      }
    }
  }

  /**
   * Syncing the same counts twice gives the store the first sync gave: one
   * record per key, with the same hours and ids.
   */
  lemma SyncIdempotent(st: OtStore, y: int, m: int, order: seq<string>, counts: map<string, real>, rejected: set<string>)
    requires forall i :: 0 <= i < |order| ==> order[i] != [] && Stripped(order[i]) && order[i] in counts
    ensures var once := SyncOver(st, y, m, order, counts, rejected).0;
      SyncOver(once, y, m, order, counts, rejected).0 == once
  {
    SyncOverWrites(st, y, m, order, counts, rejected);
    SyncOverStable(SyncOver(st, y, m, order, counts, rejected).0, y, m, order, counts, rejected);
  }

  /** The hours of an overtime-count record; 0 without one or when the query fails (`fails`). */
  function RecordedHours(st: OtStore, employee: string, y: int, m: int, fails: bool): real {
    var k := OtKey(employee, y, m);
    if !fails && k in st.pages then st.pages[k].hours else 0.0
  }

  /** The weekday overtime of one employee for a month. */
  datatype OtPay = OtPay(hours: real, amount: real)

  /**
   * The weekday overtime pay: nothing for an empty name or a rate that is
   * not positive; otherwise the hours of the employee's record for the month
   * (0 without a record or when the count query fails) times the rate.
   */
  function WeekdayOt(st: OtStore, employee: string, y: int, m: int, rate: real, countFails: bool): (r: OtPay)
    ensures var e := Strip(employee);
      (e == [] || rate <= 0.0) ==> r == OtPay(0.0, 0.0)
    ensures var e := Strip(employee);
      (e != [] && rate > 0.0) ==> r.hours == RecordedHours(st, e, y, m, countFails) && r.amount == Times(r.hours, rate)
    ensures countFails ==> r == OtPay(0.0, 0.0)
  {
    var e := Strip(employee);
    if e == [] || rate <= 0.0 then OtPay(0.0, 0.0)
    else
      var hours := RecordedHours(st, e, y, m, countFails);
      OtPay(hours, Times(hours, rate))
  }

  /** What an upsert writes is what the pay computation reads back, whatever the spelling's surrounding spaces. */
  lemma {:induction false} UpsertThenPay(st: OtStore, employee: string, y: int, m: int, hours: real, rate: real)
    requires Strip(employee) != [] && rate > 0.0
    ensures var st' := UpsertCount(st, employee, y, m, hours, false).0;
      WeekdayOt(st', employee, y, m, rate, false) == OtPay(hours, Times(hours, rate))
  {
  }

  /** The overtime-count table as a mutable store. */
  class OvertimeCountTable {
    var pages: map<OtKey, OtPage>
    var nextId: nat

    function State(): OtStore
      reads this
    {
      OtStore(pages, nextId)
    }

    constructor ()
      ensures pages == map[] && nextId == 0
    {
      pages := map[];
      nextId := 0;
    }

    /** The upsert of one employee's hours for a month; `fails` stands for a failed request. */
    method Upsert(employee: string, y: int, m: int, hours: real, fails: bool) returns (pid: Option<nat>)
      modifies this
      ensures (State(), pid) == UpsertCount(old(State()), employee, y, m, hours, fails)
    {
      var e := Strip(employee);
      if e == [] || fails {
        return None;
      }
      var k := OtKey(e, y, m);
      if k in pages {
        pid := Some(pages[k].id);
        pages := pages[k := OtPage(pages[k].id, hours)];
      } else {
        pid := Some(nextId);
        pages := pages[k := OtPage(nextId, hours)];
        nextId := nextId + 1;
      }
    }

    /** Upsert one employee's hours and count the request as a success or a failure. */
    method SyncOne(e: string, y: int, m: int, counts: map<string, real>, rejected: set<string>, ok0: nat, fail0: nat)
      returns (ok: nat, fail: nat)
      modifies this
      ensures (State(), ok, fail) == SyncStep((old(State()), ok0, fail0), e, y, m, counts, rejected)
    {
      var pid := Upsert(e, y, m, if e in counts then counts[e] else 0.0, e in rejected);
      if pid.Some? {
        ok, fail := ok0 + 1, fail0;
      } else {
        ok, fail := ok0, fail0 + 1;
      }
    }

    /**
     * Sync a month's roster counts into the table. `rejected` are the
     * employees whose request fails; returns the numbers of successes and failures.
     */
    method Sync(y: int, m: int, rows: seq<Row>, rejected: set<string>) returns (ok: nat, fail: nat)
      modifies this
      ensures var counted := Appearances(y, m, rows);
        (State(), ok, fail) == SyncOver(old(State()), y, m, Dedup(counted), CountMap(counted), rejected)
      ensures ok + fail == |Dedup(Appearances(y, m, rows))|
    {
      var counts, order := CalcOvertimeHours(y, m, rows);
      ok, fail := 0, 0;
      var i := 0;
      assert order[..0] == [];
      while i < |order|
        invariant 0 <= i <= |order|
        invariant (State(), ok, fail) == SyncOver(old(State()), y, m, order[..i], counts, rejected)
      {
        SyncOverStep(old(State()), y, m, order, counts, rejected, i);
        ok, fail := SyncOne(order[i], y, m, counts, rejected, ok, fail);
        i := i + 1;
      }
      assert order[..i] == order;
      SyncTallyOfRoster(old(State()), y, m, rows, rejected);
    }
  }

  /** For a roster sync: successes and failures add up to the number of distinct employees counted. */
  lemma SyncTallyOfRoster(st: OtStore, y: int, m: int, rows: seq<Row>, rejected: set<string>)
    ensures var counted := Appearances(y, m, rows);
      var res := SyncOver(st, y, m, Dedup(counted), CountMap(counted), rejected);
      res.1 + res.2 == |Dedup(counted)| && res.2 == CountRejected(Dedup(counted), rejected)
  {
    var counted := Appearances(y, m, rows);
    AppearancesAllNames(y, m, rows);
    AllNamesDedup(counted);
    SyncOverTally(st, y, m, Dedup(counted), CountMap(counted), rejected);
  }
}
