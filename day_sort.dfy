/**
 * The rows fetched from the duty roster, sorted by day with Python's stable
 * `list.sort`: a row without a day sorts as day 999.
 */
module DaySort {
  import opened Wrappers
  import opened Text
  import opened DutyRoster

  /** One fetched roster row: its day (absent when the day text has no digit), its text columns and its page id. */
  datatype FetchedRow = FetchedRow(day: Option<nat>, texts: map<string, string>, pageId: string)

  /** The sort key: the day, or 999 for a row without one. */
  function SortKey(r: FetchedRow): int {
    match r.day
    case None => 999
    case Some(n) => n
  }

  predicate Sorted(s: seq<FetchedRow>) {
    forall i, j :: 0 <= i < j < |s| ==> SortKey(s[i]) <= SortKey(s[j])
  }

  /** A row as fetched: its day is read from the digits of the day column's text. */
  function Fetch(dayText: string, texts: map<string, string>, pageId: string): FetchedRow {
    FetchedRow(DayFromText(dayText), texts, pageId)
  }

  /** A day text without digits sorts as 999; a text "n" or "n日" sorts as day n. */
  lemma FetchKey(dayText: string, texts: map<string, string>, pageId: string, n: nat, suffix: string)
    requires forall k :: 0 <= k < |suffix| ==> !IsDigit(suffix[k])
    ensures (forall k :: 0 <= k < |dayText| ==> !IsDigit(dayText[k])) ==> SortKey(Fetch(dayText, texts, pageId)) == 999
    ensures SortKey(Fetch(Show(n) + suffix, texts, pageId)) == n
  {
    DayFromTextShow(n, suffix);
  }

  /** Put `x` before the first row whose key is not smaller, so `x` precedes rows with an equal key. */
  function Insert(x: FetchedRow, s: seq<FetchedRow>): (r: seq<FetchedRow>)
    ensures |r| == |s| + 1
    decreases |s|
  {
    if s == [] then [x]
    else if SortKey(x) <= SortKey(s[0]) then [x] + s
    else [s[0]] + Insert(x, s[1..])
  }

  lemma {:induction false} InsertMultiset(x: FetchedRow, s: seq<FetchedRow>)
    ensures multiset(Insert(x, s)) == multiset(s) + multiset{x}
    decreases |s|
  {
    if s != [] && SortKey(x) > SortKey(s[0]) {
      InsertMultiset(x, s[1..]);
      assert s == [s[0]] + s[1..];
    }
  }

  /** Every row of `s` has a key of at least `b`. */
  predicate AllAtLeast(s: seq<FetchedRow>, b: int) {
    forall i :: 0 <= i < |s| ==> b <= SortKey(s[i])
  }

  lemma {:induction false} InsertAtLeast(x: FetchedRow, s: seq<FetchedRow>, b: int)
    requires b <= SortKey(x) && AllAtLeast(s, b)
    ensures AllAtLeast(Insert(x, s), b)
    decreases |s|
  {
    if s != [] && SortKey(x) > SortKey(s[0]) {
      var t := Insert(x, s[1..]);
      InsertAtLeast(x, s[1..], b);
      var r := [s[0]] + t;
      assert forall i :: 1 <= i < |r| ==> r[i] == t[i - 1];
    }
  }

  lemma {:induction false} InsertSorted(x: FetchedRow, s: seq<FetchedRow>)
    requires Sorted(s)
    ensures Sorted(Insert(x, s))
    decreases |s|
  {
    if s != [] && SortKey(x) > SortKey(s[0]) {
      var t := Insert(x, s[1..]);
      InsertSorted(x, s[1..]);
      InsertAtLeast(x, s[1..], SortKey(s[0]));
      var r := [s[0]] + t;
      assert forall i :: 1 <= i < |r| ==> r[i] == t[i - 1];
    }
  }

  /** `rows.sort(key=...)`, as an insertion sort. */
  function SortRows(s: seq<FetchedRow>): (r: seq<FetchedRow>)
    ensures Sorted(r)
    decreases |s|
  {
    if s == [] then []
    else
      InsertSorted(s[0], SortRows(s[1..]));
      Insert(s[0], SortRows(s[1..]))
  }

  /** Sorting permutes the rows. */
  lemma {:induction false} SortPermutes(s: seq<FetchedRow>)
    ensures multiset(SortRows(s)) == multiset(s)
    decreases |s|
  {
    if s != [] {
      var tl := s[1..];
      assert s == [s[0]] + tl;
      assert multiset(s) == multiset(tl) + multiset{s[0]};
      SortPermutes(tl);
      InsertMultiset(s[0], SortRows(tl));
    }
  }

  /** The rows whose key is `k`, in order. */
  function WithKey(s: seq<FetchedRow>, k: int): (r: seq<FetchedRow>)
    decreases |s|
  {
    if s == [] then [] else (if SortKey(s[0]) == k then [s[0]] else []) + WithKey(s[1..], k)
  }

  lemma WithKeyCons(x: FetchedRow, s: seq<FetchedRow>, k: int)
    ensures WithKey([x] + s, k) == (if SortKey(x) == k then [x] else []) + WithKey(s, k)
  {
    assert ([x] + s)[0] == x && ([x] + s)[1..] == s;
  }

  lemma {:induction false} InsertWithKey(x: FetchedRow, s: seq<FetchedRow>, k: int)
    ensures WithKey(Insert(x, s), k) == (if SortKey(x) == k then [x] else []) + WithKey(s, k)
    decreases |s|
  {
    if s == [] {
      assert Insert(x, s) == [x] + [];
      WithKeyCons(x, [], k);
    } else if SortKey(x) <= SortKey(s[0]) {
      assert Insert(x, s) == [x] + s;
      WithKeyCons(x, s, k);
    } else {
      var t := s[1..];
      var it := Insert(x, t);
      assert Insert(x, s) == [s[0]] + it;
      assert s == [s[0]] + t;
      WithKeyCons(s[0], it, k);
      WithKeyCons(s[0], t, k);
      InsertWithKey(x, t, k);
      var w := WithKey(t, k);
      if SortKey(x) == k {
        // then `s[0]`, whose key is smaller, does not have key `k`
        assert WithKey(Insert(x, s), k) == [] + ([x] + w);
        assert WithKey(s, k) == [] + w;
        assert [] + ([x] + w) == [x] + ([] + w);
      } else {
        var h0 := if SortKey(s[0]) == k then [s[0]] else [];
        assert WithKey(Insert(x, s), k) == h0 + ([] + w);
        assert WithKey(s, k) == h0 + w;
        assert h0 + ([] + w) == [] + (h0 + w);
      }
    }
  }

  /** Stability: the rows with any one key keep their original relative order. */
  lemma {:induction false} SortStable(s: seq<FetchedRow>, k: int)
    ensures WithKey(SortRows(s), k) == WithKey(s, k)
    decreases |s|
  {
    if s != [] {
      SortStable(s[1..], k);
      InsertWithKey(s[0], SortRows(s[1..]), k);
      WithKeyCons(s[0], s[1..], k);
      assert [s[0]] + s[1..] == s;
    }
  }

  /** After sorting, a row without a day comes after every row whose day is below 999. */
  lemma EmptyDaysLast(s: seq<FetchedRow>, i: nat, j: nat)
    requires i < |SortRows(s)| && j < |SortRows(s)|
    requires SortRows(s)[i].day.None?
    requires SortRows(s)[j].day.Some? && SortRows(s)[j].day.value < 999
    ensures j < i
  {
  }
}
