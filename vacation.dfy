/**
 * The annual vacation ledger: the approved-status label, the hours already
 * used in a year, the per-(employee, year) summary row that is created on
 * first use, the balance snapshot and the check that a request fits in it.
 */
module Vacation {
  import opened Wrappers
  import opened Seqs
  import opened Text

  // ---------------------------------------------------------------------
  // The approved label
  // ---------------------------------------------------------------------

  /** The labels that mean "approved", in order of preference. */
  const ApprovedLabels: seq<string> := ["通過", "已通過", "核准", "已核准", "同意", "Approved"]

  /** The first of `cands` that is among `options`. */
  function FirstPresent(cands: seq<string>, options: seq<string>): (r: Option<string>)
    ensures r.Some? ==> r.value in cands && r.value in options
    decreases |cands|
  {
    if cands == [] then None
    else if cands[0] in options then Some(cands[0])
    else FirstPresent(cands[1..], options)
  }

  /** The candidate at `i` is the result exactly when it is present and no earlier candidate is. */
  lemma {:induction false} FirstPresentAt(cands: seq<string>, options: seq<string>, i: nat)
    requires i < |cands| && cands[i] in options
    requires forall j :: 0 <= j < i ==> cands[j] !in options
    ensures FirstPresent(cands, options) == Some(cands[i])
    decreases i
  {
    if i > 0 {
      assert cands[0] !in options;
      assert forall j :: 0 <= j < i - 1 ==> cands[1..][j] == cands[j + 1];
      FirstPresentAt(cands[1..], options, i - 1);
    }
  }

  /** There is no result exactly when no candidate is present. */
  lemma {:induction false} FirstPresentNone(cands: seq<string>, options: seq<string>)
    ensures FirstPresent(cands, options).None? <==> forall j :: 0 <= j < |cands| ==> cands[j] !in options
    decreases |cands|
  {
    if cands != [] {
      FirstPresentNone(cands[1..], options);
      assert forall j :: 1 <= j < |cands| ==> cands[j] == cands[1..][j - 1];
    }
  }

  /** The status that marks an approved request: the first approved label the status property offers, else "通過". */
  function ApprovedStatus(options: seq<string>): (s: string)
    ensures s in ApprovedLabels
  {
    match FirstPresent(ApprovedLabels, options)
    case None => "通過"
    case Some(c) => c
  }

  /** The label is one the property offers, or "通過" when it offers none; "通過" wins whenever it is offered. */
  lemma ApprovedStatusChoice(options: seq<string>)
    ensures ApprovedStatus(options) in options
         || (ApprovedStatus(options) == "通過" && forall j :: 0 <= j < |ApprovedLabels| ==> ApprovedLabels[j] !in options)
    ensures "通過" in options ==> ApprovedStatus(options) == "通過"
  {
    FirstPresentNone(ApprovedLabels, options);
    if "通過" in options {
      FirstPresentAt(ApprovedLabels, options, 0);
    }
  }

  // ---------------------------------------------------------------------
  // Hours used
  // ---------------------------------------------------------------------

  /**
   * A leave request as read back: employee (the title), leave kind, status,
   * the year of its start (none when the period is missing or unreadable)
   * and its hours (none when the number is empty).
   */
  datatype LeaveRequest = LeaveRequest(employee: string, kind: string, status: string, startYear: Option<int>, hours: Option<real>)

  /** `hours or 0`. */
  function HoursOf(r: LeaveRequest): real {
    r.hours.GetOr(0.0)
  }

  /** The query's filter: this employee's annual leave ("特休") with the approved status. */
  predicate IsMatch(r: LeaveRequest, employee: string, approved: string) {
    r.employee == employee && r.kind == "特休" && r.status == approved
  }

  /** The requests the query returns, in order. */
  function Matching(reqs: seq<LeaveRequest>, employee: string, approved: string): (r: seq<LeaveRequest>)
    ensures |r| <= |reqs|
    decreases |reqs|
  {
    if reqs == [] then []
    else
      var last := reqs[|reqs| - 1];
      Matching(reqs[..|reqs| - 1], employee, approved) + (if IsMatch(last, employee, approved) then [last] else [])
  }

  lemma {:induction false} MatchingMatch(reqs: seq<LeaveRequest>, employee: string, approved: string)
    ensures forall r :: r in Matching(reqs, employee, approved) <==> r in reqs && IsMatch(r, employee, approved)
    decreases |reqs|
  {
    if reqs != [] {
      MatchingMatch(reqs[..|reqs| - 1], employee, approved);
      assert reqs == reqs[..|reqs| - 1] + [reqs[|reqs| - 1]];
    }
  }

  /** A request counts for `year` when its start falls in that year. */
  predicate InYear(r: LeaveRequest, year: int) {
    r.startYear.Some? && r.startYear.value == year
  }

  /** The hours of the requests of `rs` that start in `year`. */
  function UsedSum(rs: seq<LeaveRequest>, year: int): real
    decreases |rs|
  {
    if rs == [] then 0.0
    else UsedSum(rs[..|rs| - 1], year) + (if InYear(rs[|rs| - 1], year) then HoursOf(rs[|rs| - 1]) else 0.0)
  }

  lemma {:induction false} UsedSumAppend(a: seq<LeaveRequest>, b: seq<LeaveRequest>, year: int)
    ensures UsedSum(a + b, year) == UsedSum(a, year) + UsedSum(b, year)
    decreases |b|
  {
    if b == [] {
      assert a + b == a;
    } else {
      var n := |b| - 1;
      assert (a + b)[..|a + b| - 1] == a + b[..n];
      UsedSumAppend(a, b[..n], year);
    }
  }

  /** A request that starts in another year, or has no start, changes nothing wherever it stands. */
  lemma OtherYearIgnored(a: seq<LeaveRequest>, r: LeaveRequest, b: seq<LeaveRequest>, year: int)
    requires !InYear(r, year)
    ensures UsedSum(a + [r] + b, year) == UsedSum(a + b, year)
  {
    UsedSumAppend(a + [r], b, year);
    UsedSumAppend(a, [r], year);
    UsedSumAppend(a, b, year);
    assert [r][..0] == [];
  }

  /** With no negative hours, the hours used are not negative. */
  lemma {:induction false} UsedSumNonNegative(rs: seq<LeaveRequest>, year: int)
    requires forall i :: 0 <= i < |rs| ==> HoursOf(rs[i]) >= 0.0
    ensures UsedSum(rs, year) >= 0.0
    decreases |rs|
  {
    if rs != [] {
      UsedSumNonNegative(rs[..|rs| - 1], year);
    }
  }

  /** The query returns at most 100 requests. */
  const PageSize: nat := 100

  /**
   * The hours of approved annual leave an employee used in `year`: 0 for an
   * empty name or a failed query (`fails`); otherwise the hours of the first
   * 100 matching requests whose start falls in the year.
   */
  function UsedHours(reqs: seq<LeaveRequest>, options: seq<string>, employee: string, year: int, fails: bool): real {
    var e := Strip(employee);
    if e == [] || fails then 0.0 else UsedSum(Take(Matching(reqs, e, ApprovedStatus(options)), PageSize), year)
  }

  /** Up to 100 matching requests, every one of them counts. */
  lemma UsedHoursAllCounted(reqs: seq<LeaveRequest>, options: seq<string>, employee: string, year: int)
    requires Strip(employee) != []
    requires |Matching(reqs, Strip(employee), ApprovedStatus(options))| <= PageSize
    ensures UsedHours(reqs, options, employee, year, false) == UsedSum(Matching(reqs, Strip(employee), ApprovedStatus(options)), year)
  {
  }

  /** The requests the query returns, then the summing loop over them. */
  method CalcUsedVacationHours(reqs: seq<LeaveRequest>, options: seq<string>, employee: string, year: int, fails: bool)
    returns (total: real)
    ensures total == UsedHours(reqs, options, employee, year, fails)
    ensures Strip(employee) == [] || fails ==> total == 0.0
  {
    var e := Strip(employee);
    if e == [] {
      return 0.0;
    }
    if fails {
      return 0.0;
    }
    var approved := ApprovedStatus(options);
    var results := Take(Matching(reqs, e, approved), PageSize);
    total := SumInYear(results, year);
  }

  /** `for page in results: if start year == year: total += hours`. */
  method SumInYear(results: seq<LeaveRequest>, year: int) returns (total: real)
    ensures total == UsedSum(results, year)
  {
    total := 0.0;
    var i := 0;
    assert results[..0] == [];
    while i < |results|
      invariant 0 <= i <= |results|
      invariant total == UsedSum(results[..i], year)
    {
      assert results[..i + 1][..i] == results[..i];
      var page := results[i];
      if page.startYear.Some? && page.startYear.value == year {
        total := total + HoursOf(page);
      }
      i := i + 1;
    }
    assert results[..i] == results;
  }

  // ---------------------------------------------------------------------
  // The summary table
  // ---------------------------------------------------------------------

  /** The key of a summary row. */
  datatype VacKey = VacKey(employee: string, year: int)

  /** A summary row: its page id and its total, used and remaining hours (none when empty). */
  datatype VacRow = VacRow(id: nat, total: Option<real>, used: Option<real>, remaining: Option<real>)

  datatype VacStore = VacStore(rows: map<VacKey, VacRow>, nextId: nat)

  /**
   * `ensure_vacation_row`: false for an empty name or a failed request
   * (`fails`), which leave the table as it was; true otherwise, creating the
   * row (total and remaining `defaultTotal`, used 0) only when the stripped
   * name has none for the year.
   */
  function EnsureRowIn(st: VacStore, employee: string, year: int, defaultTotal: real, fails: bool): (res: (VacStore, bool))
    ensures res.1 <==> Strip(employee) != [] && !fails
    ensures !res.1 ==> res.0 == st
    ensures forall k :: k in st.rows ==> k in res.0.rows && res.0.rows[k] == st.rows[k]
    ensures res.1 ==> VacKey(Strip(employee), year) in res.0.rows
  {
    var e := Strip(employee);
    var k := VacKey(e, year);
    if e == [] || fails then (st, false)
    else if k in st.rows then (st, true)
    else (VacStore(st.rows[k := VacRow(st.nextId, Some(defaultTotal), Some(0.0), Some(defaultTotal))], st.nextId + 1), true)
  }

  /** An existing row leaves the table as it was; a missing one is the only row added, with used 0. */
  lemma EnsureRowEffect(st: VacStore, employee: string, year: int, defaultTotal: real)
    requires Strip(employee) != []
    ensures var k := VacKey(Strip(employee), year);
      var res := EnsureRowIn(st, employee, year, defaultTotal, false);
      (k in st.rows ==> res.0 == st) &&
      (k !in st.rows ==>
        res.0.rows.Keys == st.rows.Keys + {k} && res.0.rows[k].used == Some(0.0) &&
        res.0.rows[k].total == Some(defaultTotal) && res.0.rows[k].remaining == Some(defaultTotal))
  {
  }

  /** Ensuring a row twice is ensuring it once. */
  lemma EnsureRowIdempotent(st: VacStore, employee: string, year: int, defaultTotal: real)
    ensures var once := EnsureRowIn(st, employee, year, defaultTotal, false);
      EnsureRowIn(once.0, employee, year, defaultTotal, false) == once
  {
  }

  /** The balance of one employee for one year. */
  datatype VacSnapshot = VacSnapshot(employee: string, year: int, total: real, used: real, remaining: real, pageId: nat)

  /** `max(0.0, total - used)`. */
  function Remaining(total: real, used: real): (r: real)
    ensures r >= 0.0 && r >= total - used
    ensures r == total - used || r == 0.0
  {
    if total - used > 0.0 then total - used else 0.0
  }

  /**
   * Which requests of a snapshot fail: ensuring the row, reading the summary
   * (read as no rows), and querying the hours used (read as 0).
   */
  datatype Faults = Faults(ensureFails: bool, summaryFails: bool, usedFails: bool)

  const NoFaults := Faults(false, false, false)

  /**
   * `get_employee_vacation_snapshot`: ensure the row, read the row of the
   * name as given for the year (its total, 0 when empty), and pair it with
   * the hours used. No snapshot when the row cannot be ensured or read.
   */
  function SnapshotIn(st: VacStore, employee: string, year: int, used: real, faults: Faults): (res: (VacStore, Option<VacSnapshot>))
    ensures res.0 == EnsureRowIn(st, employee, year, 0.0, faults.ensureFails).0
    ensures res.1.Some? ==> var k := VacKey(employee, year);
      k in res.0.rows && res.1.value.total == res.0.rows[k].total.GetOr(0.0) && res.1.value.pageId == res.0.rows[k].id &&
      res.1.value.employee == employee && res.1.value.year == year && res.1.value.used == used &&
      res.1.value.remaining == Remaining(res.1.value.total, used)
    ensures res.1.Some? && VacKey(employee, year) in st.rows ==> res.1.value.total == st.rows[VacKey(employee, year)].total.GetOr(0.0)
    ensures faults.ensureFails || faults.summaryFails ==> res.1.None?
  {
    var ens := EnsureRowIn(st, employee, year, 0.0, faults.ensureFails);
    var k := VacKey(employee, year);
    if !ens.1 || faults.summaryFails || k !in ens.0.rows then (ens.0, None)
    else
      var row := ens.0.rows[k];
      var total := row.total.GetOr(0.0);
      (ens.0, Some(VacSnapshot(employee, year, total, used, Remaining(total, used), row.id)))
  }

  /** The yearly total stored for (employee, year): the row's total, 0 when empty or when there is no row yet. */
  function StoredTotal(st: VacStore, employee: string, year: int): real {
    var k := VacKey(employee, year);
    if k in st.rows then st.rows[k].total.GetOr(0.0) else 0.0
  }

  /**
   * A non-empty name without surrounding whitespace always gets a snapshot:
   * its total is the stored total (0 for a row just created) and its
   * remaining hours are `max(0, total - used)`.
   */
  lemma SnapshotFound(st: VacStore, employee: string, year: int, used: real)
    requires employee != [] && Strip(employee) == employee
    ensures var snap := SnapshotIn(st, employee, year, used, NoFaults).1;
      snap.Some? && snap.value.used == used && snap.value.total == StoredTotal(st, employee, year) &&
      snap.value.remaining == Remaining(StoredTotal(st, employee, year), used)
  {
  }

  /**
   * The row is ensured under the stripped name but read under the name as
   * given: a name with surrounding whitespace and no row of its own gets no snapshot.
   */
  lemma SnapshotPaddedName(st: VacStore, employee: string, year: int, used: real)
    requires Strip(employee) != employee && VacKey(employee, year) !in st.rows
    ensures SnapshotIn(st, employee, year, used, NoFaults).1.None?
  {
  }

  /** The outcome of `validate_vacation_enough`. */
  datatype VacCheck = Enough | ReadFailed | NotEnough(remaining: real, requested: int)

  /** No snapshot fails; otherwise a request fails exactly when it asks for more hours than remain. */
  function CheckEnough(snap: Option<VacSnapshot>, requestHours: int): (c: VacCheck)
    ensures c == Enough <==> snap.Some? && requestHours as real <= snap.value.remaining
    ensures c == ReadFailed <==> snap.None?
    ensures c.NotEnough? <==> snap.Some? && requestHours as real > snap.value.remaining
    ensures c.NotEnough? ==> c.remaining == snap.value.remaining && c.requested == requestHours
  {
    match snap
    case None => ReadFailed
    case Some(s) => if requestHours as real > s.remaining then NotEnough(s.remaining, requestHours) else Enough
  }

  /** The summary table as a mutable store. */
  class VacationTable {
    var rows: map<VacKey, VacRow>
    var nextId: nat

    function State(): VacStore
      reads this
    {
      VacStore(rows, nextId)
    }

    constructor (initial: map<VacKey, VacRow>, next: nat)
      ensures rows == initial && nextId == next
    {
      rows := initial;
      nextId := next;
    }

    /** Create the summary row for (employee, year) unless it exists. */
    method EnsureRow(employee: string, year: int, defaultTotal: real, fails: bool) returns (ok: bool)
      modifies this
      ensures (State(), ok) == EnsureRowIn(old(State()), employee, year, defaultTotal, fails)
    {
      var e := Strip(employee);
      var k := VacKey(e, year);
      var row := VacRow(nextId, Some(defaultTotal), Some(0.0), Some(defaultTotal));
      assert EnsureRowIn(State(), employee, year, defaultTotal, fails)
          == if e == [] || fails then (State(), false)
             else if k in rows then (State(), true)
             else (VacStore(rows[k := row], nextId + 1), true);
      if e == [] || fails {
        return false;
      }
      if k in rows {
        return true;
      }
      rows := rows[k := row];
      nextId := nextId + 1;
      ok := true;
    }

    /** The snapshot, with the hours used computed from the leave requests. */
    method Snapshot(employee: string, year: int, reqs: seq<LeaveRequest>, options: seq<string>, faults: Faults)
      returns (snap: Option<VacSnapshot>)
      modifies this
      ensures (State(), snap) == SnapshotIn(old(State()), employee, year, UsedHours(reqs, options, employee, year, faults.usedFails), faults)
    {
      var ok := EnsureRow(employee, year, 0.0, faults.ensureFails);
      var k := VacKey(employee, year);
      if !ok || faults.summaryFails || k !in rows {
        return None;
      }
      var row := rows[k];
      var used := CalcUsedVacationHours(reqs, options, employee, year, faults.usedFails);
      var total := row.total.GetOr(0.0);
      snap := Some(VacSnapshot(employee, year, total, used, Remaining(total, used), row.id));
    }

    /** Whether a request of `requestHours` fits in the remaining hours. */
    method Validate(employee: string, year: int, requestHours: int, reqs: seq<LeaveRequest>, options: seq<string>, faults: Faults)
      returns (check: VacCheck)
      modifies this
      ensures var res := SnapshotIn(old(State()), employee, year, UsedHours(reqs, options, employee, year, faults.usedFails), faults);
        State() == res.0 && check == CheckEnough(res.1, requestHours)
    {
      var snap := Snapshot(employee, year, reqs, options, faults);
      if snap.None? {
        return ReadFailed;
      }
      var remaining := snap.value.remaining;
      if requestHours as real > remaining {
        return NotEnough(remaining, requestHours);
      }
      return Enough;
    }
  }

  /** Validation of a well-formed name fails exactly when the request is above `max(0, total - used)`. */
  lemma ValidateExactly(st: VacStore, employee: string, year: int, used: real, requestHours: int)
    requires employee != [] && Strip(employee) == employee
    ensures var snap := SnapshotIn(st, employee, year, used, NoFaults).1;
      snap.Some? && (CheckEnough(snap, requestHours) != Enough <==> requestHours as real > Remaining(StoredTotal(st, employee, year), used))
  {
    SnapshotFound(st, employee, year, used);
  }

  /**
   * A failed query for the hours used reads as none used, so a well-formed
   * name is then checked against the whole yearly total: the request passes
   * exactly when it is at most `max(0, total)`.
   */
  lemma ValidateUsedQueryFails(st: VacStore, employee: string, year: int, reqs: seq<LeaveRequest>, options: seq<string>,
                               requestHours: int)
    requires employee != [] && Strip(employee) == employee
    ensures var used := UsedHours(reqs, options, employee, year, true);
      var snap := SnapshotIn(st, employee, year, used, Faults(false, false, true)).1;
      used == 0.0 && snap.Some? &&
      (CheckEnough(snap, requestHours) == Enough <==> requestHours as real <= Remaining(StoredTotal(st, employee, year), 0.0))
  {
    SnapshotFound(st, employee, year, 0.0);
  }

  /** When the row cannot be ensured or the summary cannot be read, validation fails with a read error and nothing else. */
  lemma ValidateReadFails(st: VacStore, employee: string, year: int, used: real, faults: Faults, requestHours: int)
    requires faults.ensureFails || faults.summaryFails
    ensures CheckEnough(SnapshotIn(st, employee, year, used, faults).1, requestHours) == ReadFailed
  {
  }
}
