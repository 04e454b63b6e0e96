/**
 * The salary table: the 14 additions and 8 deductions of a month's salary,
 * their totals, the keyed upsert of a salary record that writes only the
 * properties the table has, reading a record back, the "suggest only when
 * nothing is stored" merge for the meal allowance and the weekday overtime,
 * and the payable amount.
 */
module Payroll {
  import opened Wrappers
  import opened Seqs
  import opened Text
  import opened Money
  import opened FieldResolver
  import Overtime
  import Lunch

  // ---------------------------------------------------------------------
  // Properties
  // ---------------------------------------------------------------------

  const TitleKey: string := "員工姓名"
  const YearKey: string := "薪資年份"
  const MonthKey: string := "薪資月份"
  const NoteKey: string := "備註"

  /** The additions, in the order of the table. */
  const AddKeys: seq<string> := ["全薪", "負責人職務津貼", "職務津貼", "績效獎金", "交通津貼", "營業津貼", "配合",
                                 "全勤獎金", "證照加給", "伙食津貼", "平日(中晚)加班費", "週六加班費", "交際費", "年終補助"]

  /** The deductions. */
  const DeductKeys: seq<string> := ["借支", "病假請假", "事假請假", "借款利息", "遲到/早退", "勞保費", "健保費", "其他"]

  const GrossKey: string := "薪資總計"
  const DeductTotalKey: string := "應扣總計"
  const NetKey: string := "實發金額"
  const TotalKeys: seq<string> := [GrossKey, DeductTotalKey, NetKey]

  const MealKey: string := "伙食津貼"
  const OtWeekdayKey: string := "平日(中晚)加班費"

  /** A property value as written: a title, a number or a rich text. */
  datatype SalaryValue = Title(text: string) | Num(n: real) | Text(t: string)

  // ---------------------------------------------------------------------
  // Totals
  // ---------------------------------------------------------------------

  /**
   * The arguments of an upsert: employee, year, month, the 14 additions and
   * the 8 deductions (a missing amount reads as 0), the totals when supplied,
   * and the note.
   */
  datatype SalaryInput = SalaryInput(employee: string, year: int, month: int,
                                     adds: seq<real>, deducts: seq<real>,
                                     gross: Option<real>, deduct: Option<real>, net: Option<real>, note: string)

  predicate WellShaped(inp: SalaryInput) {
    |inp.adds| == |AddKeys| && |inp.deducts| == |DeductKeys|
  }

  /** The gross total: as supplied, else the sum of the additions. */
  function GrossOf(inp: SalaryInput): real {
    inp.gross.GetOr(Sum(inp.adds))
  }

  /** The deduction total: as supplied, else the sum of the deductions. */
  function DeductOf(inp: SalaryInput): real {
    inp.deduct.GetOr(Sum(inp.deducts))
  }

  /** The net pay: as supplied, else gross minus deductions. */
  function NetOf(inp: SalaryInput): real {
    inp.net.GetOr(GrossOf(inp) - DeductOf(inp))
  }

  /** With no totals supplied, the net pay is the additions minus the deductions. */
  lemma NetComputed(inp: SalaryInput)
    requires inp.gross.None? && inp.deduct.None? && inp.net.None?
    ensures NetOf(inp) == Sum(inp.adds) - Sum(inp.deducts)
  {
  }

  /** With no totals supplied, raising one addition by `delta` raises the gross total and the net pay by `delta`. */
  lemma RaiseAddition(inp: SalaryInput, i: nat, delta: real)
    requires inp.gross.None? && inp.deduct.None? && inp.net.None? && i < |inp.adds|
    ensures var inp' := inp.(adds := inp.adds[i := inp.adds[i] + delta]);
      GrossOf(inp') == GrossOf(inp) + delta && NetOf(inp') == NetOf(inp) + delta
  {
    SumUpdate(inp.adds, i, delta);
  }

  /** With no totals supplied, raising one deduction by `delta` raises the deduction total and lowers the net pay by `delta`. */
  lemma RaiseDeduction(inp: SalaryInput, i: nat, delta: real)
    requires inp.gross.None? && inp.deduct.None? && inp.net.None? && i < |inp.deducts|
    ensures var inp' := inp.(deducts := inp.deducts[i := inp.deducts[i] + delta]);
      DeductOf(inp') == DeductOf(inp) + delta && NetOf(inp') == NetOf(inp) - delta
  {
    SumUpdate(inp.deducts, i, delta);
  }

  /** A supplied total is written as given, whatever the amounts. */
  lemma SuppliedTotalsKept(inp: SalaryInput, g: real, d: real, n: real)
    ensures var inp' := inp.(gross := Some(g), deduct := Some(d), net := Some(n));
      GrossOf(inp') == g && DeductOf(inp') == d && NetOf(inp') == n
  {
  }

  // ---------------------------------------------------------------------
  // The properties written
  // ---------------------------------------------------------------------

  /** Write `Num(vals[i])` under `keys[i]`, for each key the schema has. */
  function PutNumbers(props: map<string, SalaryValue>, schema: seq<string>, keys: seq<string>, vals: seq<real>): (r: map<string, SalaryValue>)
    requires |keys| == |vals|
    decreases |keys|
  {
    if keys == [] then props
    else
      var n := |keys| - 1;
      var p := PutNumbers(props, schema, keys[..n], vals[..n]);
      if keys[n] in schema then p[keys[n] := Num(vals[n])] else p
  }

  /** The written keys are the old ones and the keys the schema has. */
  lemma {:induction false} PutNumbersKeys(props: map<string, SalaryValue>, schema: seq<string>, keys: seq<string>, vals: seq<real>)
    requires |keys| == |vals|
    ensures forall k :: k in PutNumbers(props, schema, keys, vals) <==> k in props || (k in keys && k in schema)
    decreases |keys|
  {
    if keys != [] {
      var n := |keys| - 1;
      PutNumbersKeys(props, schema, keys[..n], vals[..n]);
      assert keys == keys[..n] + [keys[n]];
    }
  }

  /** A key that is not written keeps its old value. */
  lemma {:induction false} PutNumbersOther(props: map<string, SalaryValue>, schema: seq<string>, keys: seq<string>, vals: seq<real>, k: string)
    requires |keys| == |vals| && k !in keys && k in props
    ensures k in PutNumbers(props, schema, keys, vals) && PutNumbers(props, schema, keys, vals)[k] == props[k]
    decreases |keys|
  {
    if keys != [] {
      var n := |keys| - 1;
      assert k !in keys[..n];
      PutNumbersOther(props, schema, keys[..n], vals[..n], k);
    }
  }

  /** Each key the schema has gets its own amount. */
  lemma {:induction false} PutNumbersAt(props: map<string, SalaryValue>, schema: seq<string>, keys: seq<string>, vals: seq<real>, i: nat)
    requires |keys| == |vals| && NoDup(keys) && i < |keys| && keys[i] in schema
    ensures keys[i] in PutNumbers(props, schema, keys, vals) && PutNumbers(props, schema, keys, vals)[keys[i]] == Num(vals[i])
    decreases |keys|
  {
    var n := |keys| - 1;
    if i < n {
      assert keys[i] == keys[..n][i];
      PutNumbersAt(props, schema, keys[..n], vals[..n], i);
    }
  }

  /** The `for k, v in [...]: if has_prop(k): props[k] = ...` loop. */
  method WriteNumbers(props0: map<string, SalaryValue>, schema: seq<string>, keys: seq<string>, vals: seq<real>)
    returns (props: map<string, SalaryValue>)
    requires |keys| == |vals|
    ensures props == PutNumbers(props0, schema, keys, vals)
  {
    props := props0;
    var i := 0;
    assert keys[..0] == [] && vals[..0] == [];
    while i < |keys|
      invariant 0 <= i <= |keys|
      invariant props == PutNumbers(props0, schema, keys[..i], vals[..i])
    {
      assert keys[..i + 1][..i] == keys[..i] && vals[..i + 1][..i] == vals[..i];
      if keys[i] in schema {
        props := props[keys[i] := Num(vals[i])];
      }
      i := i + 1;
    }
    assert keys[..i] == keys && vals[..i] == vals;
  }

  /** `props[k] = v` when the schema has `k`. */
  function PutIf(props: map<string, SalaryValue>, schema: seq<string>, k: string, v: SalaryValue): (r: map<string, SalaryValue>)
    ensures forall k' :: k' in r <==> k' in props || (k' == k && k in schema)
  {
    if k in schema then props[k := v] else props
  }

  /** The first properties written: the title, then year and month when the schema has them. */
  function KeyProps(schema: seq<string>, inp: SalaryInput, e: string): map<string, SalaryValue> {
    PutIf(PutIf(map[TitleKey := Title(e)], schema, YearKey, Num(inp.year as real)), schema, MonthKey, Num(inp.month as real))
  }

  /** Then the additions and the gross total. */
  function AddProps(schema: seq<string>, inp: SalaryInput, e: string): map<string, SalaryValue>
    requires WellShaped(inp)
  {
    PutIf(PutNumbers(KeyProps(schema, inp, e), schema, AddKeys, inp.adds), schema, GrossKey, Num(GrossOf(inp)))
  }

  /** Then the deductions and the deduction total. */
  function DeductProps(schema: seq<string>, inp: SalaryInput, e: string): map<string, SalaryValue>
    requires WellShaped(inp)
  {
    PutIf(PutNumbers(AddProps(schema, inp, e), schema, DeductKeys, inp.deducts), schema, DeductTotalKey, Num(DeductOf(inp)))
  }

  /**
   * The properties an upsert writes for the stripped name `e`: the title,
   * then year, month, the additions, the gross total, the deductions, the
   * deduction total, the net pay and the stripped note, each only when the
   * schema has it.
   */
  function SalaryProps(schema: seq<string>, inp: SalaryInput, e: string): map<string, SalaryValue>
    requires WellShaped(inp)
  {
    PutIf(PutIf(DeductProps(schema, inp, e), schema, NetKey, Num(NetOf(inp))), schema, NoteKey, Text(Strip(inp.note)))
  }

  /** With the title in the schema, only properties the schema has are written. */
  lemma SalaryPropsInSchema(schema: seq<string>, inp: SalaryInput, e: string)
    requires WellShaped(inp) && TitleKey in schema
    ensures forall k :: k in SalaryProps(schema, inp, e) ==> k in schema
  {
    PutNumbersKeys(KeyProps(schema, inp, e), schema, AddKeys, inp.adds);
    PutNumbersKeys(AddProps(schema, inp, e), schema, DeductKeys, inp.deducts);
  }

  /** The title, year and month survive the amounts written after them. */
  lemma KeyPropsKept(schema: seq<string>, inp: SalaryInput, e: string, k: string)
    requires WellShaped(inp) && k in KeyProps(schema, inp, e)
    ensures k in SalaryProps(schema, inp, e) && SalaryProps(schema, inp, e)[k] == KeyProps(schema, inp, e)[k]
  {
    assert k == TitleKey || k == YearKey || k == MonthKey;
    KeyApart(k);
    var kp := KeyProps(schema, inp, e);
    PutNumbersOther(kp, schema, AddKeys, inp.adds, k);
    var ap := AddProps(schema, inp, e);
    assert k in ap && ap[k] == kp[k];
    PutNumbersOther(ap, schema, DeductKeys, inp.deducts, k);
    var dp := DeductProps(schema, inp, e);
    assert k in dp && dp[k] == kp[k];
  }

  /** Each addition the schema has is written with its amount. */
  lemma AddPropsAt(schema: seq<string>, inp: SalaryInput, e: string, i: nat)
    requires WellShaped(inp) && i < |AddKeys| && AddKeys[i] in schema
    ensures AddKeys[i] in SalaryProps(schema, inp, e) && SalaryProps(schema, inp, e)[AddKeys[i]] == Num(inp.adds[i])
  {
    var k := AddKeys[i];
    AddKeysDistinct();
    PutNumbersAt(KeyProps(schema, inp, e), schema, AddKeys, inp.adds, i);
    AddKeyApart(i);
    PutNumbersOther(AddProps(schema, inp, e), schema, DeductKeys, inp.deducts, k);
  }

  /** Each deduction the schema has is written with its amount. */
  lemma DeductPropsAt(schema: seq<string>, inp: SalaryInput, e: string, i: nat)
    requires WellShaped(inp) && i < |DeductKeys| && DeductKeys[i] in schema
    ensures DeductKeys[i] in SalaryProps(schema, inp, e) && SalaryProps(schema, inp, e)[DeductKeys[i]] == Num(inp.deducts[i])
  {
    var k := DeductKeys[i];
    DeductKeysDistinct();
    PutNumbersAt(AddProps(schema, inp, e), schema, DeductKeys, inp.deducts, i);
    DeductKeyApart(i);
  }

  lemma AddKeysDistinct()
    ensures NoDup(AddKeys)
  {
  }

  /** No addition is also a deduction, a total, the note or a key property. */
  lemma AddKeyApart(i: nat)
    requires i < |AddKeys|
    ensures AddKeys[i] !in DeductKeys
    ensures AddKeys[i] != GrossKey && AddKeys[i] != DeductTotalKey && AddKeys[i] != NetKey && AddKeys[i] != NoteKey
  {
  }

  /** No deduction is also a total or the note. */
  lemma DeductKeyApart(i: nat)
    requires i < |DeductKeys|
    ensures DeductKeys[i] != DeductTotalKey && DeductKeys[i] != NetKey && DeductKeys[i] != NoteKey
  {
  }

  /** The title, year and month are neither amounts nor totals nor the note. */
  lemma KeyApart(k: string)
    requires k == TitleKey || k == YearKey || k == MonthKey
    ensures k !in AddKeys && k !in DeductKeys
    ensures k != GrossKey && k != DeductTotalKey && k != NetKey && k != NoteKey
  {
  }

  lemma DeductKeysDistinct()
    ensures NoDup(DeductKeys)
  {
  }

  // ---------------------------------------------------------------------
  // The store
  // ---------------------------------------------------------------------

  /** A salary page: its id and its properties. */
  datatype SalaryPage = SalaryPage(id: nat, props: map<string, SalaryValue>)

  /** The salary table: its property names (in order), its pages and the id the next created page gets. */
  datatype SalaryStore = SalaryStore(schema: seq<string>, pages: seq<SalaryPage>, nextId: nat)

  /** The lookup filter: the title equals the name and the year and month numbers are equal. */
  predicate PageMatches(p: SalaryPage, e: string, y: int, m: int) {
    TitleKey in p.props && p.props[TitleKey] == Title(e) &&
    YearKey in p.props && p.props[YearKey] == Num(y as real) &&
    MonthKey in p.props && p.props[MonthKey] == Num(m as real)
  }

  /** The index of the first matching page. */
  function FindPage(pages: seq<SalaryPage>, e: string, y: int, m: int): (r: Option<nat>)
    ensures r.Some? ==> r.value < |pages| && PageMatches(pages[r.value], e, y, m)
    ensures r.Some? ==> forall j :: 0 <= j < r.value ==> !PageMatches(pages[j], e, y, m)
    ensures r.None? <==> forall j :: 0 <= j < |pages| ==> !PageMatches(pages[j], e, y, m)
    decreases |pages|
  {
    if pages == [] then None
    else if PageMatches(pages[0], e, y, m) then Some(0)
    else
      match FindPage(pages[1..], e, y, m)
      case None => None
      case Some(i) => Some(i + 1)
  }

  /**
   * The record lookup of an upsert: the first page for (name, year, month).
   * A filter on a property the table does not have makes the query fail,
   * which reads as no record.
   */
  function LookupPage(st: SalaryStore, e: string, y: int, m: int): Option<nat> {
    if TitleKey in st.schema && YearKey in st.schema && MonthKey in st.schema then FindPage(st.pages, e, y, m) else None
  }

  /**
   * The page an upsert updates: the one `get_salary_record` finds, or none
   * when that read fails (`lookupFails`).
   */
  function Existing(st: SalaryStore, e: string, y: int, m: int, lookupFails: bool): (r: Option<nat>)
    ensures r.Some? ==> r.value < |st.pages| && PageMatches(st.pages[r.value], e, y, m)
    ensures lookupFails ==> r.None?
  {
    if lookupFails then None else LookupPage(st, e, y, m)
  }

  /**
   * The update-or-create write for (name, year, month): the existing page
   * gets `props` merged over its properties and keeps its id; without one a
   * page with `props` and the next id is appended.
   */
  function WriteRecord(st: SalaryStore, e: string, y: int, m: int, props: map<string, SalaryValue>, lookupFails: bool): (r: SalaryStore)
    ensures r.schema == st.schema
    ensures |st.pages| <= |r.pages| <= |st.pages| + 1
    ensures var ex := Existing(st, e, y, m, lookupFails);
      forall j :: 0 <= j < |st.pages| && (ex.None? || j != ex.value) ==> r.pages[j] == st.pages[j]
    ensures var ex := Existing(st, e, y, m, lookupFails);
      ex.Some? ==> (|r.pages| == |st.pages| && r.nextId == st.nextId &&
                    r.pages[ex.value] == SalaryPage(st.pages[ex.value].id, st.pages[ex.value].props + props))
    ensures var ex := Existing(st, e, y, m, lookupFails);
      ex.None? ==> |r.pages| == |st.pages| + 1 && r.nextId == st.nextId + 1 && r.pages[|st.pages|] == SalaryPage(st.nextId, props)
  {
    match Existing(st, e, y, m, lookupFails)
    case Some(i) => SalaryStore(st.schema, st.pages[i := SalaryPage(st.pages[i].id, st.pages[i].props + props)], st.nextId)
    case None => SalaryStore(st.schema, st.pages + [SalaryPage(st.nextId, props)], st.nextId + 1)
  }

  /**
   * `upsert_salary_record`: false with no write for an empty name, a table
   * without the title property or a failed write (`writeFails`); otherwise
   * update the first page for (name, year, month) with the written
   * properties, or create a page with them. A failed lookup
   * (`lookupFails`) reads as no page, so a page is created.
   */
  function UpsertSalaryIn(st: SalaryStore, inp: SalaryInput, lookupFails: bool, writeFails: bool): (res: (SalaryStore, bool))
    requires WellShaped(inp)
    ensures !res.1 ==> res.0 == st
    ensures res.1 <==> Strip(inp.employee) != [] && TitleKey in st.schema && !writeFails
    ensures res.0.schema == st.schema
    ensures |st.pages| <= |res.0.pages| <= |st.pages| + 1
    ensures var ex := Existing(st, Strip(inp.employee), inp.year, inp.month, lookupFails);
      forall j :: 0 <= j < |st.pages| && (!res.1 || ex.None? || j != ex.value) ==> res.0.pages[j] == st.pages[j]
    ensures var e := Strip(inp.employee);
      var ex := Existing(st, e, inp.year, inp.month, lookupFails);
      res.1 && ex.Some? ==>
        (|res.0.pages| == |st.pages| && res.0.nextId == st.nextId &&
         res.0.pages[ex.value] == SalaryPage(st.pages[ex.value].id, st.pages[ex.value].props + SalaryProps(st.schema, inp, e)))
    ensures var e := Strip(inp.employee);
      var ex := Existing(st, e, inp.year, inp.month, lookupFails);
      res.1 && ex.None? ==>
        (|res.0.pages| == |st.pages| + 1 && res.0.nextId == st.nextId + 1 &&
         res.0.pages[|st.pages|] == SalaryPage(st.nextId, SalaryProps(st.schema, inp, e)))
  {
    var e := Strip(inp.employee);
    if e == [] || TitleKey !in st.schema || writeFails then (st, false)
    else (WriteRecord(st, e, inp.year, inp.month, SalaryProps(st.schema, inp, e), lookupFails), true)
  }

  /** The properties carry the title `e`, the year `y` and the month `m`, so a page holding them matches that key. */
  predicate KeyedBy(props: map<string, SalaryValue>, e: string, y: int, m: int) {
    PageMatches(SalaryPage(0, props), e, y, m)
  }

  /**
   * A write of properties keyed by (name, year, month) is found again by the
   * lookup for that key: the updated page, or the page appended.
   */
  lemma WriteRecordFinds(st: SalaryStore, e: string, y: int, m: int, props: map<string, SalaryValue>)
    requires TitleKey in st.schema && YearKey in st.schema && MonthKey in st.schema
    requires KeyedBy(props, e, y, m)
    ensures var res := WriteRecord(st, e, y, m, props, false);
      var j := LookupPage(res, e, y, m);
      j.Some? && j.value < |res.pages| &&
      res.pages[j.value].props == (match LookupPage(st, e, y, m)
                                   case Some(i) => st.pages[i].props + props
                                   case None => props)
  {
    var res := WriteRecord(st, e, y, m, props, false);
    match LookupPage(st, e, y, m)
    case Some(i) =>
      var p := res.pages[i];
      assert p.props == st.pages[i].props + props;
      assert PageMatches(p, e, y, m);
      var j := FindPage(res.pages, e, y, m);
      assert j.Some?;
      assert !(j.value < i) && !(i < j.value);
    case None =>
      var n := |st.pages|;
      assert res.pages[n] == SalaryPage(st.nextId, props);
      assert PageMatches(res.pages[n], e, y, m);
      var j := FindPage(res.pages, e, y, m);
      assert j.Some?;
      assert !(j.value < n);
  }

  /** Once a key has been written, a second write of that key updates the page instead of adding one. */
  lemma WriteRecordTwice(st: SalaryStore, e: string, y: int, m: int, props: map<string, SalaryValue>, props2: map<string, SalaryValue>)
    requires TitleKey in st.schema && YearKey in st.schema && MonthKey in st.schema
    requires KeyedBy(props, e, y, m)
    ensures var once := WriteRecord(st, e, y, m, props, false);
      LookupPage(once, e, y, m).Some? && |WriteRecord(once, e, y, m, props2, false).pages| == |once.pages|
  {
    WriteRecordFinds(st, e, y, m, props);
  }

  /** The written properties are keyed by the stripped name, the year and the month whenever the schema has those properties. */
  lemma SalaryPropsKeyed(schema: seq<string>, inp: SalaryInput, e: string)
    requires WellShaped(inp) && TitleKey in schema && YearKey in schema && MonthKey in schema
    ensures KeyedBy(SalaryProps(schema, inp, e), e, inp.year, inp.month)
  {
    var kp := KeyProps(schema, inp, e);
    assert kp[TitleKey] == Title(e) && kp[YearKey] == Num(inp.year as real) && kp[MonthKey] == Num(inp.month as real);
    KeyPropsKept(schema, inp, e, TitleKey);
    KeyPropsKept(schema, inp, e, YearKey);
    KeyPropsKept(schema, inp, e, MonthKey);
  }

  /**
   * One record per key: after a successful upsert the key has a record, so
   * a second upsert for the same key updates it and adds no page.
   */
  lemma UpsertTwiceOneRecord(st: SalaryStore, inp: SalaryInput, inp2: SalaryInput)
    requires WellShaped(inp) && WellShaped(inp2)
    requires YearKey in st.schema && MonthKey in st.schema
    requires UpsertSalaryIn(st, inp, false, false).1
    requires Strip(inp2.employee) == Strip(inp.employee) && inp2.year == inp.year && inp2.month == inp.month
    ensures var once := UpsertSalaryIn(st, inp, false, false).0;
      LookupPage(once, Strip(inp.employee), inp.year, inp.month).Some? &&
      |UpsertSalaryIn(once, inp2, false, false).0.pages| == |once.pages|
  {
    var e := Strip(inp.employee);
    SalaryPropsKeyed(st.schema, inp, e);
    WriteRecordTwice(st, e, inp.year, inp.month, SalaryProps(st.schema, inp, e), SalaryProps(st.schema, inp2, e));
  }

  /** Appending a page leaves the first match where it was. */
  lemma FindPageAppend(pages: seq<SalaryPage>, p: SalaryPage, e: string, y: int, m: int)
    requires FindPage(pages, e, y, m).Some?
    ensures FindPage(pages + [p], e, y, m) == FindPage(pages, e, y, m)
  {
    var i := FindPage(pages, e, y, m).value;
    assert (pages + [p])[i] == pages[i];
    var j := FindPage(pages + [p], e, y, m);
    assert j.Some?;
    assert !(j.value < i) && !(i < j.value);
  }

  /**
   * A failed lookup makes an upsert create a page even when the key has
   * one: after a successful upsert, a second one for the same key whose
   * lookup fails adds a page, and the lookup keeps finding the first page,
   * so the second write is not the record read back.
   */
  lemma UpsertLookupFailsDuplicates(st: SalaryStore, inp: SalaryInput, inp2: SalaryInput)
    requires WellShaped(inp) && WellShaped(inp2)
    requires YearKey in st.schema && MonthKey in st.schema
    requires UpsertSalaryIn(st, inp, false, false).1
    requires Strip(inp2.employee) == Strip(inp.employee) && inp2.year == inp.year && inp2.month == inp.month
    ensures var once := UpsertSalaryIn(st, inp, false, false).0;
      var twice := UpsertSalaryIn(once, inp2, true, false);
      var e := Strip(inp.employee);
      twice.1 && |twice.0.pages| == |once.pages| + 1 &&
      LookupPage(twice.0, e, inp.year, inp.month) == LookupPage(once, e, inp.year, inp.month) &&
      LookupPage(once, e, inp.year, inp.month).Some?
  {
    var e := Strip(inp.employee);
    var once := UpsertSalaryIn(st, inp, false, false).0;
    SalaryPropsKeyed(st.schema, inp, e);
    WriteRecordFinds(st, e, inp.year, inp.month, SalaryProps(st.schema, inp, e));
    FindPageAppend(once.pages, SalaryPage(once.nextId, SalaryProps(once.schema, inp2, e)), e, inp.year, inp.month);
  }

  /** The salary table as a mutable store. */
  class SalaryTable {
    var schema: seq<string>
    var pages: seq<SalaryPage>
    var nextId: nat

    function State(): SalaryStore
      reads this
    {
      SalaryStore(schema, pages, nextId)
    }

    constructor (props: seq<string>)
      ensures schema == props && pages == [] && nextId == 0
    {
      schema := props;
      pages := [];
      nextId := 0;
    }

    /** Build the written properties, then update the matching page or create one. */
    method Upsert(inp: SalaryInput, lookupFails: bool, writeFails: bool) returns (ok: bool)
      requires WellShaped(inp)
      modifies this
      ensures (State(), ok) == UpsertSalaryIn(old(State()), inp, lookupFails, writeFails)
    {
      var e := Strip(inp.employee);
      if e == [] || TitleKey !in schema {
        return false;
      }
      var props := BuildProps(schema, inp, e);
      if writeFails {
        return false;
      }
      Write(e, inp.year, inp.month, props, lookupFails);
      ok := true;
    }

    /** Update the existing page for (name, year, month) with `props`, or create a page with them. */
    method Write(e: string, y: int, m: int, props: map<string, SalaryValue>, lookupFails: bool)
      modifies this
      ensures State() == WriteRecord(old(State()), e, y, m, props, lookupFails)
    {
      var existing := Existing(State(), e, y, m, lookupFails);
      match existing {
        case Some(i) =>
          pages := pages[i := SalaryPage(pages[i].id, pages[i].props + props)];
        case None =>
          pages := pages + [SalaryPage(nextId, props)];
          nextId := nextId + 1;
      }
    }
  }

  /** The properties of an upsert, built one `if has_prop(k): props[k] = ...` after another. */
  method BuildProps(schema: seq<string>, inp: SalaryInput, e: string) returns (props: map<string, SalaryValue>)
    requires WellShaped(inp)
    ensures props == SalaryProps(schema, inp, e)
  {
    props := map[TitleKey := Title(e)];
    props := PutIf(PutIf(props, schema, YearKey, Num(inp.year as real)), schema, MonthKey, Num(inp.month as real));
    props := WriteNumbers(props, schema, AddKeys, inp.adds);
    props := PutIf(props, schema, GrossKey, Num(GrossOf(inp)));
    props := WriteNumbers(props, schema, DeductKeys, inp.deducts);
    props := PutIf(props, schema, DeductTotalKey, Num(DeductOf(inp)));
    props := PutIf(PutIf(props, schema, NetKey, Num(NetOf(inp))), schema, NoteKey, Text(Strip(inp.note)));
  }

  // ---------------------------------------------------------------------
  // Reading a record back
  // ---------------------------------------------------------------------

  /**
   * `get_number(k, prefix=k)`: the number under `k`, or under the first
   * property starting with `k` when the table has no `k`; 0 when empty or not a number.
   */
  function ReadNumber(schema: seq<string>, props: map<string, SalaryValue>, k: string): real {
    match PickKey(schema, [k], k)
    case None => 0.0
    case Some(k2) => if k2 in props && props[k2].Num? then props[k2].n else 0.0
  }

  /** The amounts of a record: every addition, deduction and total, read with `ReadNumber`. */
  function ReadNumbers(schema: seq<string>, props: map<string, SalaryValue>, keys: seq<string>): (r: map<string, real>)
    decreases |keys|
  {
    if keys == [] then map[]
    else
      var n := |keys| - 1;
      ReadNumbers(schema, props, keys[..n])[keys[n] := ReadNumber(schema, props, keys[n])]
  }

  /** Every key read has a value: a record never leaves an amount empty. */
  lemma {:induction false} ReadNumbersKeys(schema: seq<string>, props: map<string, SalaryValue>, keys: seq<string>)
    ensures forall k :: k in ReadNumbers(schema, props, keys) <==> k in keys
    decreases |keys|
  {
    if keys != [] {
      var n := |keys| - 1;
      ReadNumbersKeys(schema, props, keys[..n]);
      assert keys == keys[..n] + [keys[n]];
    }
  }

  /** The value read for a key is `ReadNumber` of it. */
  lemma {:induction false} ReadNumbersAt(schema: seq<string>, props: map<string, SalaryValue>, keys: seq<string>, k: string)
    requires k in keys
    ensures k in ReadNumbers(schema, props, keys) && ReadNumbers(schema, props, keys)[k] == ReadNumber(schema, props, k)
    decreases |keys|
  {
    var n := |keys| - 1;
    if keys[n] != k {
      assert keys == keys[..n] + [keys[n]];
      ReadNumbersAt(schema, props, keys[..n], k);
    }
  }

  /** The `for k in keys: data[k] = get_number(k, prefix=k)` loop. */
  method ReadAmounts(schema: seq<string>, props: map<string, SalaryValue>, keys: seq<string>) returns (data: map<string, real>)
    ensures data == ReadNumbers(schema, props, keys)
  {
    data := map[];
    var i := 0;
    assert keys[..0] == [];
    while i < |keys|
      invariant 0 <= i <= |keys|
      invariant data == ReadNumbers(schema, props, keys[..i])
    {
      assert keys[..i + 1][..i] == keys[..i];
      data := data[keys[i] := ReadNumber(schema, props, keys[i])];
      i := i + 1;
    }
    assert keys[..i] == keys;
  }

  /** The salary record read back: the page id, the title, year, month and note, and every addition, deduction and total. */
  datatype SalaryRecord = SalaryRecord(pageId: nat, employee: string, year: int, month: int, note: string, amounts: map<string, real>)

  const AmountKeys: seq<string> := AddKeys + DeductKeys + TotalKeys

  /** `get_title`: the text of the title property, or empty. */
  function ReadTitle(schema: seq<string>, props: map<string, SalaryValue>, k: string): string {
    match PickKey(schema, [k], k)
    case None => ""
    case Some(k2) => if k2 in props && props[k2].Title? then props[k2].text else ""
  }

  /** `get_rich_text`: the text of a rich-text property, or empty. */
  function ReadText(schema: seq<string>, props: map<string, SalaryValue>, k: string): string {
    match PickKey(schema, [k], k)
    case None => ""
    case Some(k2) => if k2 in props && props[k2].Text? then props[k2].t else ""
  }

  /** The record of one page; year and month are the numbers truncated toward zero. */
  function RecordOf(schema: seq<string>, p: SalaryPage): (r: SalaryRecord)
    ensures forall k :: k in AmountKeys ==> k in r.amounts
  {
    ReadNumbersKeys(schema, p.props, AmountKeys);
    SalaryRecord(p.id, ReadTitle(schema, p.props, TitleKey),
                 Trunc(ReadNumber(schema, p.props, YearKey)), Trunc(ReadNumber(schema, p.props, MonthKey)),
                 ReadText(schema, p.props, NoteKey), ReadNumbers(schema, p.props, AmountKeys))
  }

  /**
   * `get_salary_record`: none for an empty name, a failed query (`fails`) or
   * when no page matches; the first matching page otherwise.
   */
  function GetSalaryRecord(st: SalaryStore, employee: string, y: int, m: int, fails: bool): (r: Option<SalaryRecord>)
    ensures r.Some? ==> forall k :: k in AmountKeys ==> k in r.value.amounts
    ensures r.Some? <==> Strip(employee) != [] && !fails && LookupPage(st, Strip(employee), y, m).Some?
  {
    var e := Strip(employee);
    if e == [] || fails then None
    else
      match LookupPage(st, e, y, m)
      case None => None
      case Some(i) => Some(RecordOf(st.schema, st.pages[i]))
  }

  /** A number written under a property the table has is read back unchanged. */
  lemma ReadBackWritten(schema: seq<string>, props: map<string, SalaryValue>, k: string, v: real)
    requires k in schema && k in props && props[k] == Num(v)
    ensures ReadNumber(schema, props, k) == v
  {
    PickExact(schema, k);
  }

  lemma PickExact(schema: seq<string>, k: string)
    requires k in schema
    ensures PickKey(schema, [k], k) == Some(k)
  {
    assert [k][0] == k;
  }

  /** An integer written as a number is read back as the same integer. */
  lemma TruncWhole(n: int)
    ensures Trunc(n as real) == n
  {
  }

  /** The page an upsert wrote is the page the lookup then finds. */
  lemma UpsertFindsWritten(st: SalaryStore, inp: SalaryInput)
    requires WellShaped(inp) && YearKey in st.schema && MonthKey in st.schema
    requires UpsertSalaryIn(st, inp, false, false).1
    ensures var once := UpsertSalaryIn(st, inp, false, false).0;
      var e := Strip(inp.employee);
      var j := LookupPage(once, e, inp.year, inp.month);
      j.Some? && j.value < |once.pages| &&
      once.pages[j.value].props == (match LookupPage(st, e, inp.year, inp.month)
                                    case Some(i) => st.pages[i].props + SalaryProps(st.schema, inp, e)
                                    case None => SalaryProps(st.schema, inp, e))
  {
    var e := Strip(inp.employee);
    SalaryPropsKeyed(st.schema, inp, e);
    WriteRecordFinds(st, e, inp.year, inp.month, SalaryProps(st.schema, inp, e));
  }

  /** `big` holds every property of `small`, with the same value. */
  predicate Covers(big: map<string, SalaryValue>, small: map<string, SalaryValue>) {
    forall k :: k in small ==> k in big && big[k] == small[k]
  }

  lemma MergeCovers(p: map<string, SalaryValue>, props: map<string, SalaryValue>)
    ensures Covers(p + props, props) && Covers(props, props)
  {
  }

  /** The page read back carries the name, year and month it was written with. */
  lemma ReadWrittenKey(schema: seq<string>, inp: SalaryInput, e: string, id: nat, p: map<string, SalaryValue>)
    requires WellShaped(inp) && TitleKey in schema && YearKey in schema && MonthKey in schema
    requires Covers(p, SalaryProps(schema, inp, e))
    ensures var r := RecordOf(schema, SalaryPage(id, p));
      r.employee == e && r.year == inp.year && r.month == inp.month
  {
    SalaryPropsKeyed(schema, inp, e);
    PickExact(schema, TitleKey);
    PickExact(schema, YearKey);
    PickExact(schema, MonthKey);
    TruncWhole(inp.year);
    TruncWhole(inp.month);
  }

  /** The page read back carries the stripped note and the net pay, when the table has them. */
  lemma ReadWrittenNoteNet(schema: seq<string>, inp: SalaryInput, e: string, id: nat, p: map<string, SalaryValue>)
    requires WellShaped(inp) && Covers(p, SalaryProps(schema, inp, e))
    ensures var r := RecordOf(schema, SalaryPage(id, p));
      (NoteKey in schema ==> r.note == Strip(inp.note)) &&
      (NetKey in schema ==> r.amounts[NetKey] == NetOf(inp))
  {
    if NoteKey in schema {
      PickExact(schema, NoteKey);
    }
    if NetKey in schema {
      assert SalaryProps(schema, inp, e)[NetKey] == Num(NetOf(inp));
      ReadNumbersAt(schema, p, AmountKeys, NetKey);
      ReadBackWritten(schema, p, NetKey, NetOf(inp));
    }
  }

  /** Each addition the table has is read back as written. */
  lemma ReadWrittenAdd(schema: seq<string>, inp: SalaryInput, e: string, id: nat, p: map<string, SalaryValue>, i: nat)
    requires WellShaped(inp) && Covers(p, SalaryProps(schema, inp, e))
    requires i < |AddKeys| && AddKeys[i] in schema
    ensures RecordOf(schema, SalaryPage(id, p)).amounts[AddKeys[i]] == inp.adds[i]
  {
    AddPropsAt(schema, inp, e, i);
    assert AddKeys[i] in AmountKeys;
    ReadNumbersAt(schema, p, AmountKeys, AddKeys[i]);
    ReadBackWritten(schema, p, AddKeys[i], inp.adds[i]);
  }

  /** Each deduction the table has is read back as written. */
  lemma ReadWrittenDeduct(schema: seq<string>, inp: SalaryInput, e: string, id: nat, p: map<string, SalaryValue>, i: nat)
    requires WellShaped(inp) && Covers(p, SalaryProps(schema, inp, e))
    requires i < |DeductKeys| && DeductKeys[i] in schema
    ensures RecordOf(schema, SalaryPage(id, p)).amounts[DeductKeys[i]] == inp.deducts[i]
  {
    DeductPropsAt(schema, inp, e, i);
    assert DeductKeys[i] in AmountKeys;
    ReadNumbersAt(schema, p, AmountKeys, DeductKeys[i]);
    ReadBackWritten(schema, p, DeductKeys[i], inp.deducts[i]);
  }

  /**
   * Write then read: after a successful upsert the record for the same name,
   * year and month has that name, year and month, the written note and net
   * pay, and every addition and deduction the table has.
   */
  lemma UpsertThenRead(st: SalaryStore, inp: SalaryInput)
    requires WellShaped(inp) && YearKey in st.schema && MonthKey in st.schema
    requires UpsertSalaryIn(st, inp, false, false).1
    ensures var r := GetSalaryRecord(UpsertSalaryIn(st, inp, false, false).0, inp.employee, inp.year, inp.month, false);
      r.Some? && r.value.employee == Strip(inp.employee) && r.value.year == inp.year && r.value.month == inp.month &&
      (NoteKey in st.schema ==> r.value.note == Strip(inp.note)) &&
      (NetKey in st.schema ==> r.value.amounts[NetKey] == NetOf(inp)) &&
      (forall i :: 0 <= i < |AddKeys| && AddKeys[i] in st.schema ==> r.value.amounts[AddKeys[i]] == inp.adds[i]) &&
      (forall i :: 0 <= i < |DeductKeys| && DeductKeys[i] in st.schema ==> r.value.amounts[DeductKeys[i]] == inp.deducts[i])
  {
    var e := Strip(inp.employee);
    var once := UpsertSalaryIn(st, inp, false, false).0;
    var sp := SalaryProps(st.schema, inp, e);
    UpsertFindsWritten(st, inp);
    var j := LookupPage(once, e, inp.year, inp.month).value;
    var pg := once.pages[j];
    assert Covers(pg.props, sp) by {
      match LookupPage(st, e, inp.year, inp.month)
      case Some(i) => MergeCovers(st.pages[i].props, sp);
      case None => MergeCovers(map[], sp);
    }
    assert GetSalaryRecord(once, inp.employee, inp.year, inp.month, false) == Some(RecordOf(st.schema, pg));
    ReadWrittenKey(st.schema, inp, e, pg.id, pg.props);
    ReadWrittenNoteNet(st.schema, inp, e, pg.id, pg.props);
    forall i | 0 <= i < |AddKeys| && AddKeys[i] in st.schema
      ensures RecordOf(st.schema, pg).amounts[AddKeys[i]] == inp.adds[i]
    {
      ReadWrittenAdd(st.schema, inp, e, pg.id, pg.props, i);
    }
    forall i | 0 <= i < |DeductKeys| && DeductKeys[i] in st.schema
      ensures RecordOf(st.schema, pg).amounts[DeductKeys[i]] == inp.deducts[i]
    {
      ReadWrittenDeduct(st.schema, inp, e, pg.id, pg.props, i);
    }
  }

  // ---------------------------------------------------------------------
  // Suggestions and the payable amount
  // ---------------------------------------------------------------------

  /** The stored value of `field` when the record has one, else the suggestion. */
  function Suggest(existing: Option<SalaryRecord>, field: string, suggested: real): real {
    if existing.Some? && field in existing.value.amounts then existing.value.amounts[field] else suggested
  }

  /**
   * Because a record read back has every amount, the suggestion is used
   * exactly when there is no record for the employee and month.
   */
  lemma SuggestOnlyWithoutRecord(st: SalaryStore, employee: string, y: int, m: int, fails: bool, field: string, suggested: real)
    requires field in AmountKeys
    ensures var existing := GetSalaryRecord(st, employee, y, m, fails);
      Suggest(existing, field, suggested) == (if existing.Some? then existing.value.amounts[field] else suggested)
  {
  }

  /**
   * The meal allowance suggested: the month's lunch settlement difference,
   * unless a record holds one. The flags say which query failed: the
   * record's, the attendance's or the orders'.
   */
  function MealAllowance(st: SalaryStore, employee: string, y: int, m: int,
                         attendance: seq<Lunch.AttendanceRecord>, orders: seq<Lunch.LunchRecord>,
                         recordFails: bool, attendanceFails: bool, ordersFails: bool): (r: real)
    requires Lunch.MonthRange(y, m).Some?
    ensures var existing := GetSalaryRecord(st, employee, y, m, recordFails);
      (existing.Some? ==> r == existing.value.amounts[MealKey]) &&
      (existing.None? ==> r == Lunch.SettlementDiff(attendance, orders, employee, y, m, attendanceFails, ordersFails))
  {
    Suggest(GetSalaryRecord(st, employee, y, m, recordFails), MealKey,
            Lunch.SettlementDiff(attendance, orders, employee, y, m, attendanceFails, ordersFails))
  }

  /**
   * The weekday overtime suggested: the roster-based overtime pay, unless a
   * record holds one. The flags say which query failed: the salary record's
   * or the overtime count's.
   */
  function WeekdayOvertime(st: SalaryStore, employee: string, y: int, m: int, ot: Overtime.OtStore, rate: real,
                           recordFails: bool, countFails: bool): real {
    Suggest(GetSalaryRecord(st, employee, y, m, recordFails), OtWeekdayKey, Overtime.WeekdayOt(ot, employee, y, m, rate, countFails).amount)
  }

  /**
   * Without a record the overtime pay is hours × rate, where a failed count
   * query reads as 0 hours; with a record the stored amount stays.
   */
  lemma WeekdayOvertimeChoice(st: SalaryStore, employee: string, y: int, m: int, ot: Overtime.OtStore, rate: real,
                               recordFails: bool, countFails: bool)
    ensures var existing := GetSalaryRecord(st, employee, y, m, recordFails);
      var e := Strip(employee);
      var amount := WeekdayOvertime(st, employee, y, m, ot, rate, recordFails, countFails);
      (existing.Some? ==> amount == existing.value.amounts[OtWeekdayKey]) &&
      (existing.None? && e != [] && rate > 0.0 ==> amount == Times(Overtime.RecordedHours(ot, e, y, m, countFails), rate)) &&
      (existing.None? && countFails ==> amount == 0.0)
  {
    assert OtWeekdayKey in AmountKeys;
  }

  /**
   * `salary_calc_payable`: base + overtime + bonus − leave deduction −
   * advances and other + lunch, plus the vacation cash-out when it is included.
   */
  function Payable(base: real, overtime: real, bonus: real, leaveDeduction: real, advanceOther: real,
                   lunch: real, cashout: real, includeCashout: bool): real
  {
    var total := base + overtime + bonus - leaveDeduction - advanceOther + lunch;
    if includeCashout then total + cashout else total
  }

  /**
   * The cash-out counts exactly when included. Each addition (base,
   * overtime, bonus, lunch) raises the payable amount one for one; each
   * deduction (leave, advances and other) lowers it one for one.
   */
  lemma PayableParts(base: real, overtime: real, bonus: real, leaveDeduction: real, advanceOther: real,
                     lunch: real, cashout: real, withCashout: bool, delta: real)
    ensures Payable(base, overtime, bonus, leaveDeduction, advanceOther, lunch, cashout, true)
         == Payable(base, overtime, bonus, leaveDeduction, advanceOther, lunch, cashout, false) + cashout
    ensures Payable(base, overtime, bonus, leaveDeduction, advanceOther, lunch, cashout, false)
         == Payable(base, overtime, bonus, leaveDeduction, advanceOther, lunch, 0.0, true)
    ensures var p := Payable(base, overtime, bonus, leaveDeduction, advanceOther, lunch, cashout, withCashout);
      Payable(base + delta, overtime, bonus, leaveDeduction, advanceOther, lunch, cashout, withCashout) == p + delta &&
      Payable(base, overtime + delta, bonus, leaveDeduction, advanceOther, lunch, cashout, withCashout) == p + delta &&
      Payable(base, overtime, bonus + delta, leaveDeduction, advanceOther, lunch, cashout, withCashout) == p + delta &&
      Payable(base, overtime, bonus, leaveDeduction, advanceOther, lunch + delta, cashout, withCashout) == p + delta &&
      Payable(base, overtime, bonus, leaveDeduction + delta, advanceOther, lunch, cashout, withCashout) == p - delta &&
      Payable(base, overtime, bonus, leaveDeduction, advanceOther + delta, lunch, cashout, withCashout) == p - delta
  {
  }
}
