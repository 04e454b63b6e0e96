/**
 * Cells of the duty roster: a cell holds the names of the employees on one
 * shift of one day, either as a list or as one string with separators. The
 * module models how such a cell is split into names, how a list is written
 * back as a ", "-joined string, how the day number is read from the day
 * column's text and how fetched rows are sorted by day.
 */
module DutyRoster {
  import opened Wrappers
  import opened Seqs
  import opened Text

  /** A cell value as the roster editor or the store hands it over. */
  datatype Cell =
    | Missing                    // None, or a column the row does not have
    | ListCell(items: seq<string>)
    | TextCell(text: string)
    | IntCell(n: int)

  /** The name separators, replaced in this order by a space. */
  const Seps: string := "、,，;；\n\t"

  predicate IsSep(c: char) {
    c == '、' || c == ',' || c == '，' || c == ';' || c == '；' || c == '\n' || c == '\t'
  }

  lemma SepsAreSeps()
    ensures forall c :: c in Seps <==> IsSep(c)
  {
    assert Seps == ['、', ',', '，', ';', '；', '\n', '\t'];
  }

  /** `s` with every character of `cs` replaced by a space. */
  function BlankWith(s: string, cs: string): (r: string)
    ensures |r| == |s|
    ensures forall k :: 0 <= k < |s| ==> r[k] == if s[k] in cs then ' ' else s[k]
  {
    seq(|s|, k requires 0 <= k < |s| => if s[k] in cs then ' ' else s[k])
  }

  /** The stripped, non-empty pieces, in order (`[x.strip() for x in ps if x.strip()]`). */
  function KeepNames(ps: seq<string>): (r: seq<string>)
    ensures |r| <= |ps|
    decreases |ps|
  {
    if ps == [] then [] else KeepOne(ps[0]) + KeepNames(ps[1..])
  }

  /** What `KeepNames` keeps of one piece. */
  function KeepOne(p: string): (r: seq<string>)
    ensures r == [] || (|r| == 1 && r[0] != [] && Stripped(r[0]))
  {
    var t := Strip(p);
    if t != [] then [t] else []
  }

  /** Every element is a non-empty string with no whitespace at its ends. */
  predicate AllNames(s: seq<string>) {
    forall i :: 0 <= i < |s| ==> s[i] != [] && Stripped(s[i])
  }

  lemma AllNamesAppend(a: seq<string>, b: seq<string>)
    requires AllNames(a) && AllNames(b)
    ensures AllNames(a + b)
  {
  }

  /** De-duplicating a list of names keeps it a list of names. */
  lemma {:induction false} AllNamesDedup(s: seq<string>)
    requires AllNames(s)
    ensures AllNames(Dedup(s))
    decreases |s|
  {
    if s != [] {
      var init := s[..|s| - 1];
      assert forall i :: 0 <= i < |init| ==> init[i] == s[i];
      AllNamesDedup(init);
      AllNamesAppend(Dedup(init), [s[|s| - 1]]);
    }
  }

  lemma {:induction false} KeepNamesAllNames(ps: seq<string>)
    ensures AllNames(KeepNames(ps))
    decreases |ps|
  {
    if ps != [] {
      KeepNamesAllNames(ps[1..]);
      AllNamesAppend(KeepOne(ps[0]), KeepNames(ps[1..]));
    }
  }

  lemma {:induction false} KeepNamesAppend(a: seq<string>, b: seq<string>)
    ensures KeepNames(a + b) == KeepNames(a) + KeepNames(b)
    decreases |a|
  {
    if a == [] {
      assert a + b == b;
    } else {
      var ab := a + b;
      assert ab[0] == a[0];
      assert ab[1..] == a[1..] + b;
      var h := KeepOne(a[0]);
      var u, v := KeepNames(a[1..]), KeepNames(b);
      calc {
        KeepNames(ab);
        h + KeepNames(a[1..] + b);
        { KeepNamesAppend(a[1..], b); }
        h + (u + v);
        { AppendAssoc(h, u, v); }
        (h + u) + v;
        KeepNames(a) + v;
      }
    }
  }

  /**
   * The names in a text cell: strip; nothing for an empty string; otherwise
   * blank the separators, split on single spaces and keep the stripped
   * non-empty pieces.
   */
  function ParseText(s: string): (r: seq<string>)
  {
    var t := Strip(s);
    if t == [] then [] else KeepNames(SplitSpace(BlankWith(t, Seps)))
  }

  lemma BlankWithAppend(a: string, b: string, cs: string)
    ensures BlankWith(a + b, cs) == BlankWith(a, cs) + BlankWith(b, cs)
  {
  }

  /** Blanking leaves no separator behind. */
  lemma BlankNoSep(t: string)
    ensures forall k :: 0 <= k < |BlankWith(t, Seps)| ==> !IsSep(BlankWith(t, Seps)[k])
  {
    SepsAreSeps();
  }

  /** A string without separators is not changed by blanking. */
  lemma BlankClean(t: string)
    requires forall k :: 0 <= k < |t| ==> !IsSep(t[k])
    ensures BlankWith(t, Seps) == t
  {
    SepsAreSeps();
  }

  /** The names in a cell. */
  function ParseCell(v: Cell): (r: seq<string>)
  {
    match v
    case Missing => []
    case ListCell(items) => KeepNames(items)
    case TextCell(s) => ParseText(s)
    case IntCell(n) => ParseText(ShowInt(n))
  }

  /** No space and no separator anywhere in `p`. */
  predicate Clean(p: string) {
    forall k :: 0 <= k < |p| ==> p[k] != ' ' && !IsSep(p[k])
  }

  lemma CleanStrip(x: string)
    requires Clean(x)
    ensures Clean(Strip(x))
  {
    var t := Strip(x);
    forall k | 0 <= k < |t| ensures t[k] != ' ' && !IsSep(t[k]) {
      assert t[k] in x;
      var j :| 0 <= j < |x| && x[j] == t[k];
    }
  }

  lemma KeepNamesSnoc(ps: seq<string>, p: string)
    ensures KeepNames(ps + [p]) == KeepNames(ps) + KeepOne(p)
  {
    KeepNamesAppend(ps, [p]);
    assert [p][0] == p && [p][1..] == [];
    assert KeepNames([p]) == KeepOne(p) + KeepNames([]);
    assert KeepOne(p) + [] == KeepOne(p);
  }

  lemma KeepNamesCons(x: string, rest: seq<string>)
    ensures KeepNames([x] + rest) == KeepOne(x) + KeepNames(rest)
  {
    assert ([x] + rest)[0] == x && ([x] + rest)[1..] == rest;
  }

  lemma {:induction false} KeepNamesClean(ps: seq<string>)
    requires forall i :: 0 <= i < |ps| ==> Clean(ps[i])
    ensures forall i :: 0 <= i < |KeepNames(ps)| ==> Clean(KeepNames(ps)[i])
    decreases |ps|
  {
    if ps != [] {
      KeepNamesClean(ps[1..]);
      CleanStrip(ps[0]);
      var head := if Strip(ps[0]) != [] then [Strip(ps[0])] else [];
      var tail := KeepNames(ps[1..]);
      assert KeepNames(ps) == head + tail;
      assert forall i :: 0 <= i < |head| ==> Clean(head[i]);
    }
  }

  /** The pieces of a string without separators are clean. */
  lemma {:induction false} SplitSpaceClean(s: string)
    requires forall k :: 0 <= k < |s| ==> !IsSep(s[k])
    ensures forall i :: 0 <= i < |SplitSpace(s)| ==> Clean(SplitSpace(s)[i])
    decreases |s|
  {
    if |s| > 0 {
      SplitSpaceClean(s[1..]);
    }
  }

  /** Every parsed name is non-empty, has no whitespace at its ends and contains no space or separator. */
  lemma ParseTextNames(s: string)
    ensures AllNames(ParseText(s))
    ensures forall i :: 0 <= i < |ParseText(s)| ==> Clean(ParseText(s)[i])
  {
    var t := Strip(s);
    if t != [] {
      var b := BlankWith(t, Seps);
      var ps := SplitSpace(b);
      assert ParseText(s) == KeepNames(ps);
      BlankNoSep(t);
      SplitSpaceClean(b);
      KeepNamesClean(ps);
      KeepNamesAllNames(ps);
    }
  }

  /**
   * A stripped clean string is exactly one name; whitespace other than
   * space, tab and newline inside it (an ideographic space in "A　B") stays.
   */
  lemma ParseSingleName(s: string)
    requires s != [] && Stripped(s) && Clean(s)
    ensures ParseText(s) == [s]
  {
    BlankClean(s);
    assert ' ' !in s by {
      assert Clean(s);
    }
    SplitSpaceNone(s);
    KeepNamesCons(s, []);
  }

  // ---------------------------------------------------------------------
  // Splitting, step by step
  // ---------------------------------------------------------------------

  /** Replacing the separators one after another, as the loop over them does. */
  method BlankSeparators(s0: string) returns (s: string)
    ensures s == BlankWith(s0, Seps)
  {
    s := s0;
    var i := 0;
    while i < |Seps|
      invariant 0 <= i <= |Seps|
      invariant s == BlankWith(s0, Seps[..i])
    {
      ReplaceOneChar(s, Seps[i], ' ');
      s := Replace(s, [Seps[i]], " ");
      assert Seps[..i + 1] == Seps[..i] + [Seps[i]];
      i := i + 1;
    }
    assert Seps[..i] == Seps;
  }

  /** Splitting a cell into names. */
  method ParseNamesCell(v: Cell) returns (names: seq<string>)
    ensures names == ParseCell(v)
  {
    match v {
      case Missing =>
        names := [];
      case ListCell(items) =>
        names := KeepNames(items);
      case TextCell(_) =>
        names := ParseTextCell(v.text);
      case IntCell(n) =>
        names := ParseTextCell(ShowInt(n));
    }
  }

  method ParseTextCell(text: string) returns (names: seq<string>)
    ensures names == ParseText(text)
  {
    var s := Strip(text);
    if s == [] {
      return [];
    }
    s := BlankSeparators(s);
    names := KeepNames(SplitSpace(s));
  }

  /** The names of a text cell, each kept once, at its first occurrence. */
  method SplitNames(text: string) returns (out: seq<string>)
    ensures out == Dedup(ParseText(text))
    ensures NoDup(out)
    ensures forall i :: 0 <= i < |out| ==> out[i] in ParseText(text)
    ensures forall i :: 0 <= i < |ParseText(text)| ==> ParseText(text)[i] in out
  {
    var parts := ParseTextCell(text);
    out := KeepFirst(parts);
    DedupMembers(parts);
  }

  /** The seen-set loop: keep each element the first time it appears. */
  method KeepFirst(parts: seq<string>) returns (out: seq<string>)
    ensures out == Dedup(parts)
  {
    var seen: set<string> := {};
    out := [];
    var i := 0;
    while i < |parts|
      invariant 0 <= i <= |parts|
      invariant out == Dedup(parts[..i])
      invariant forall p :: p in seen <==> p in parts[..i]
    {
      var p := parts[i];
      assert parts[..i + 1] == parts[..i] + [p];
      DedupSnoc(parts[..i], p);
      if p !in seen {
        seen := seen + {p};
        out := out + [p];
      }
      i := i + 1;
    }
    assert parts[..i] == parts;
  }

  // ---------------------------------------------------------------------
  // Writing a list back as text, and reading it again
  // ---------------------------------------------------------------------

  /** A list cell as it is written to a text property: stripped non-empty names joined by ", ". */
  function Serialize(items: seq<string>): string {
    JoinSep(KeepNames(items), ", ")
  }

  /** A name that survives a write and a read unchanged. */
  predicate WellFormedName(n: string) {
    n != [] && NoSpace(n) && forall k :: 0 <= k < |n| ==> !IsSep(n[k])
  }

  /** `[n0, "", n1, "", ..., nk]`: what splitting on single spaces gives for names joined by two spaces. */
  function Spread(ns: seq<string>): seq<string>
    decreases |ns|
  {
    if |ns| <= 1 then ns else [ns[0], ""] + Spread(ns[1..])
  }

  lemma {:induction false} BlankJoin(ns: seq<string>)
    requires forall i :: 0 <= i < |ns| ==> WellFormedName(ns[i])
    ensures BlankWith(JoinSep(ns, ", "), Seps) == JoinSep(ns, "  ")
    decreases |ns|
  {
    if |ns| == 1 {
      BlankClean(ns[0]);
    } else if |ns| > 1 {
      BlankJoin(ns[1..]);
      var a, b := ns[0], JoinSep(ns[1..], ", ");
      assert JoinSep(ns, ", ") == a + ", " + b;
      BlankWithAppend(a + ", ", b, Seps);
      BlankWithAppend(a, ", ", Seps);
      SepsAreSeps();
      assert BlankWith(", ", Seps) == "  ";
      BlankClean(a);
    }
  }

  lemma {:induction false} SplitSpread(ns: seq<string>)
    requires |ns| >= 1
    requires forall i :: 0 <= i < |ns| ==> WellFormedName(ns[i])
    ensures SplitSpace(JoinSep(ns, "  ")) == Spread(ns)
    decreases |ns|
  {
    if |ns| == 1 {
      assert ' ' !in ns[0] by {
        assert NoSpace(ns[0]);
      }
      SplitSpaceNone(ns[0]);
    } else {
      SplitSpread(ns[1..]);
      var a, b := ns[0], JoinSep(ns[1..], "  ");
      assert ' ' !in a by {
        assert NoSpace(a);
      }
      assert JoinSep(ns, "  ") == a + " " + (" " + b);
      SplitSpaceAt(a, " " + b);
      assert SplitSpace(" " + b) == [""] + SplitSpace(b) by {
        assert (" " + b)[1..] == b;
      }
    }
  }

  lemma StripWellFormed(n: string)
    requires WellFormedName(n)
    ensures Strip(n) == n && KeepOne(n) == [n]
  {
    NoSpaceStripped(n);
  }

  lemma KeepNamesEmptyCons(rest: seq<string>)
    ensures KeepNames([""] + rest) == KeepNames(rest)
  {
    KeepNamesCons("", rest);
    StripEmpty("");
    assert KeepOne("") == [];
    assert [] + KeepNames(rest) == KeepNames(rest);
  }

  lemma {:induction false} KeepSpread(ns: seq<string>)
    requires forall i :: 0 <= i < |ns| ==> WellFormedName(ns[i])
    ensures KeepNames(Spread(ns)) == ns
    decreases |ns|
  {
    if |ns| == 1 {
      var x := ns[0];
      assert ns == [x] + [];
      KeepNamesCons(x, []);
      StripWellFormed(x);
      assert KeepNames(Spread(ns)) == [x] + [];
    } else if |ns| > 1 {
      var x, tl := ns[0], ns[1..];
      assert [x] + tl == ns;
      var rest := Spread(tl);
      assert Spread(ns) == [x] + ([""] + rest);
      StripWellFormed(x);
      calc {
        KeepNames(Spread(ns));
        KeepNames([x] + ([""] + rest));
        { KeepNamesCons(x, [""] + rest); }
        KeepOne(x) + KeepNames([""] + rest);
        { KeepNamesEmptyCons(rest); }
        [x] + KeepNames(rest);
        { KeepSpread(tl); }
        [x] + tl;
      }
    }
  }

  lemma {:induction false} KeepWellFormed(ns: seq<string>)
    requires forall i :: 0 <= i < |ns| ==> WellFormedName(ns[i])
    ensures KeepNames(ns) == ns
    decreases |ns|
  {
    if ns != [] {
      var x, tl := ns[0], ns[1..];
      assert [x] + tl == ns;
      KeepWellFormed(tl);
      KeepNamesCons(x, tl);
      StripWellFormed(x);
    }
  }

  /** The ", "-joined text of well-formed names starts and ends with a name character. */
  lemma {:induction false} JoinEnds(ns: seq<string>, sep: string)
    requires |ns| >= 1
    requires forall i :: 0 <= i < |ns| ==> ns[i] != []
    ensures |JoinSep(ns, sep)| >= 1 && |ns[0]| >= 1 && |ns[|ns| - 1]| >= 1
    ensures JoinSep(ns, sep)[0] == ns[0][0]
    ensures JoinSep(ns, sep)[|JoinSep(ns, sep)| - 1] == ns[|ns| - 1][|ns[|ns| - 1]| - 1]
    decreases |ns|
  {
    if |ns| > 1 {
      var a, tl := ns[0], ns[1..];
      JoinEnds(tl, sep);
      var t := JoinSep(tl, sep);
      assert JoinSep(ns, sep) == a + sep + t;
      assert (a + sep + t)[0] == a[0];
      assert (a + sep + t)[|a + sep + t| - 1] == t[|t| - 1];
      assert tl[|tl| - 1] == ns[|ns| - 1];
    }
  }

  /** Round trip: reading back the text written for well-formed names gives the names. */
  lemma SerializeRoundTrip(ns: seq<string>)
    requires forall i :: 0 <= i < |ns| ==> WellFormedName(ns[i])
    ensures ParseCell(TextCell(Serialize(ns))) == ns
  {
    KeepWellFormed(ns);
    var j := JoinSep(ns, ", ");
    if ns == [] {
      assert Strip(j) == [];
    } else {
      JoinEnds(ns, ", ");
      assert NoSpace(ns[0]) && NoSpace(ns[|ns| - 1]);
      assert Stripped(j);
      StripUnchanged(j);
      BlankJoin(ns);
      SplitSpread(ns);
      KeepSpread(ns);
    }
  }

  /** A list cell and its written text hold the same names. */
  lemma ListAndTextAgree(items: seq<string>)
    requires forall i :: 0 <= i < |KeepNames(items)| ==> WellFormedName(KeepNames(items)[i])
    ensures ParseCell(TextCell(Serialize(items))) == ParseCell(ListCell(items))
  {
    SerializeRoundTrip(KeepNames(items));
    KeepWellFormed(KeepNames(items));
  }

  // ---------------------------------------------------------------------
  // The day column
  // ---------------------------------------------------------------------

  /** The digits of `s`, in order. */
  function Digits(s: string): (r: string)
    ensures AllDigits(r)
    ensures |r| <= |s|
    decreases |s|
  {
    if s == [] then []
    else Digits(s[..|s| - 1]) + (if IsDigit(s[|s| - 1]) then [s[|s| - 1]] else [])
  }

  lemma {:induction false} DigitsAppend(a: string, b: string)
    ensures Digits(a + b) == Digits(a) + Digits(b)
    decreases |b|
  {
    if b == [] {
      assert a + b == a;
    } else {
      assert (a + b)[..|a + b| - 1] == a + b[..|b| - 1];
      DigitsAppend(a, b[..|b| - 1]);
    }
  }

  lemma {:induction false} DigitsNone(s: string)
    ensures Digits(s) == [] <==> forall k :: 0 <= k < |s| ==> !IsDigit(s[k])
    decreases |s|
  {
    if s != [] {
      DigitsNone(s[..|s| - 1]);
      assert forall k :: 0 <= k < |s| - 1 ==> s[..|s| - 1][k] == s[k];
    }
  }

  lemma {:induction false} DigitsOfDigits(s: string)
    requires AllDigits(s)
    ensures Digits(s) == s
    decreases |s|
  {
    if s != [] {
      DigitsOfDigits(s[..|s| - 1]);
    }
  }

  /**
   * The day number in the day column's text ("1", "01", "1日"): the value of
   * all its digits taken together; none for an empty text or a text without digits.
   */
  function DayFromText(txt: string): (d: Option<nat>)
    ensures d.None? <==> forall k :: 0 <= k < |txt| ==> !IsDigit(txt[k])
  {
    DigitsNone(txt);
    if txt == [] then None
    else
      var ds := Digits(txt);
      if ds == [] then None else Some(DigitsValue(ds))
  }

  /** The text written for day `n`, with or without the "日" suffix, reads back as `n`. */
  lemma DayFromTextShow(n: nat, suffix: string)
    requires forall k :: 0 <= k < |suffix| ==> !IsDigit(suffix[k])
    ensures DayFromText(Show(n) + suffix) == Some(n)
  {
    DigitsAppend(Show(n), suffix);
    DigitsOfDigits(Show(n));
    DigitsNone(suffix);
    assert Show(n) + suffix != [];
    assert Show(n) + [] == Show(n);
    ShowRoundTrip(n);
  }
}
