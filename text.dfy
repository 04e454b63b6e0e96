/**
 * Python string primitives used by the engine, over `string` = `seq<char>`:
 * whitespace (`str.isspace`), `strip`, `replace`, `split(" ")`, ASCII and
 * full-width case folding, `startswith`, and decimal digits.
 */
module Text {
  import opened Wrappers

  /** Python's `str.isspace()`: the characters `strip()` removes. */
  predicate IsSpace(c: char) {
    || c == '\t' || c == '\n' || c == '\U{000B}' || c == '\U{000C}' || c == '\r'
    || ('\U{001C}' <= c <= '\U{001F}') || c == ' ' || c == '\U{0085}' || c == '\U{00A0}'
    || c == '\U{1680}' || ('\U{2000}' <= c <= '\U{200A}') || c == '\U{2028}' || c == '\U{2029}'
    || c == '\U{202F}' || c == '\U{205F}' || c == '\U{3000}'
  }

  predicate NoSpace(s: string) {
    forall i :: 0 <= i < |s| ==> !IsSpace(s[i])
  }

  /** Python's `lstrip()`: drop leading whitespace. */
  function TrimLeft(s: string): (r: string)
    ensures |r| <= |s| && r == s[|s| - |r|..]
    ensures r == [] || !IsSpace(r[0])
    ensures forall i :: 0 <= i < |s| - |r| ==> IsSpace(s[i])
    decreases |s|
  {
    if |s| > 0 && IsSpace(s[0]) then TrimLeft(s[1..]) else s
  }

  /** Python's `rstrip()`: drop trailing whitespace. */
  function TrimRight(s: string): (r: string)
    ensures |r| <= |s| && r == s[..|r|]
    ensures r == [] || !IsSpace(r[|r| - 1])
    ensures forall i :: |r| <= i < |s| ==> IsSpace(s[i])
    decreases |s|
  {
    if |s| > 0 && IsSpace(s[|s| - 1]) then TrimRight(s[..|s| - 1]) else s
  }

  /** The ends of `s` are not whitespace (what `strip()` guarantees). */
  predicate Stripped(s: string) {
    s == [] || (!IsSpace(s[0]) && !IsSpace(s[|s| - 1]))
  }

  /** Python's `strip()`. */
  function Strip(s: string): (r: string)
    ensures Stripped(r)
  {
    var l := TrimLeft(s);
    var r := TrimRight(l);
    StrippedPrefix(l, r);
    r
  }

  /** A prefix of a string that does not start with whitespace, itself not ending with whitespace, is stripped. */
  lemma StrippedPrefix(l: string, r: string)
    requires l == [] || !IsSpace(l[0])
    requires |r| <= |l| && r == l[..|r|] && (r == [] || !IsSpace(r[|r| - 1]))
    ensures Stripped(r)
  {
    if r != [] {
      assert r[0] == l[0];
    }
  }

  /** `strip()` only removes characters. */
  lemma StripChars(s: string)
    ensures forall i :: 0 <= i < |Strip(s)| ==> Strip(s)[i] in s
  {
    var l := TrimLeft(s);
    var r := TrimRight(l);
    assert r == Strip(s);
    forall i | 0 <= i < |r|
      ensures r[i] in s
    {
      var j := |s| - |l| + i;
      assert r[i] == l[i] == s[j];
    }
  }

  /** `strip()` leaves a string with non-space ends unchanged. */
  lemma StripUnchanged(s: string)
    requires Stripped(s)
    ensures Strip(s) == s
  {
  }

  lemma NoSpaceStripped(s: string)
    requires NoSpace(s)
    ensures Stripped(s) && Strip(s) == s
  {
    StripUnchanged(s);
  }

  lemma StripIdempotent(s: string)
    ensures Strip(Strip(s)) == Strip(s)
  {
    StripUnchanged(Strip(s));
  }

  /** A string in which every character was whitespace strips to empty, and only such a string. */
  lemma StripEmpty(s: string)
    ensures Strip(s) == [] <==> forall i :: 0 <= i < |s| ==> IsSpace(s[i])
  {
    var l := TrimLeft(s);
    if l != [] {
      assert !IsSpace(s[|s| - |l|]);
    }
  }

  /**
   * Python's `s.replace(pat, rep)` for a non-empty `pat`: scan from the left
   * and replace non-overlapping occurrences.
   */
  function Replace(s: string, pat: string, rep: string): (r: string)
    requires |pat| > 0
    decreases |s|
  {
    if |s| < |pat| then s
    else if s[..|pat|] == pat then rep + Replace(s[|pat|..], pat, rep)
    else [s[0]] + Replace(s[1..], pat, rep)
  }

  /** Substitute `d` for every occurrence of the character `c`. */
  function Subst(s: string, c: char, d: char): (r: string)
    ensures |r| == |s|
    ensures forall i :: 0 <= i < |s| ==> r[i] == if s[i] == c then d else s[i]
  {
    seq(|s|, i requires 0 <= i < |s| => if s[i] == c then d else s[i])
  }

  /** For a one-character pattern, `str.replace` is a character substitution. */
  lemma {:induction false} ReplaceOneChar(s: string, c: char, d: char)
    ensures Replace(s, [c], [d]) == Subst(s, c, d)
    decreases |s|
  {
    if |s| >= 1 {
      ReplaceOneChar(s[1..], c, d);
      assert Subst(s, c, d) == [if s[0] == c then d else s[0]] + Subst(s[1..], c, d);
    }
  }

  /** Python's `s.split(" ")`: never empty, and consecutive spaces give empty pieces. */
  function SplitSpace(s: string): (r: seq<string>)
    ensures |r| >= 1
    ensures forall i :: 0 <= i < |r| ==> ' ' !in r[i]
    ensures JoinSpace(r) == s
    decreases |s|
  {
    if |s| == 0 then [""]
    else if s[0] == ' ' then
      var t := SplitSpace(s[1..]);
      assert [""] + t == [""] + [t[0]] + t[1..];
      [""] + t
    else
      var t := SplitSpace(s[1..]);
      var r := [[s[0]] + t[0]] + t[1..];
      assert r[1..] == t[1..];
      assert JoinSpace(r) == [s[0]] + JoinSpace(t) by {
        if |t| > 1 {
          assert JoinSpace(t) == t[0] + " " + JoinSpace(t[1..]);
        }
      }
      assert s == [s[0]] + s[1..];
      r
  }

  /** `" ".join(pieces)`: the inverse of `SplitSpace`. */
  function JoinSpace(s: seq<string>): string
    decreases |s|
  {
    if |s| == 0 then ""
    else if |s| == 1 then s[0]
    else s[0] + " " + JoinSpace(s[1..])
  }

  /** A space-free prefix followed by a space splits off as one piece. */
  lemma {:induction false} SplitSpaceAt(a: string, b: string)
    requires ' ' !in a
    ensures SplitSpace(a + " " + b) == [a] + SplitSpace(b)
    decreases |a|
  {
    if a == [] {
      assert a + " " + b == " " + b;
      assert (" " + b)[1..] == b;
    } else {
      assert (a + " " + b)[1..] == a[1..] + " " + b;
      SplitSpaceAt(a[1..], b);
      assert [a[0]] + a[1..] == a;
    }
  }

  /** A string without spaces is a single piece. */
  lemma {:induction false} SplitSpaceNone(a: string)
    requires ' ' !in a
    ensures SplitSpace(a) == [a]
    decreases |a|
  {
    if a != [] {
      SplitSpaceNone(a[1..]);
      assert [a[0]] + a[1..] == a;
    }
  }

  /** Python's `str.lower()` on ASCII and full-width Latin capitals. */
  function LowerChar(c: char): char {
    if 'A' <= c <= 'Z' then (c as int + 32) as char
    else if '\U{FF21}' <= c <= '\U{FF3A}' then (c as int + 32) as char
    else c
  }

  function Lower(s: string): (r: string)
    ensures |r| == |s|
    ensures forall i :: 0 <= i < |s| ==> r[i] == LowerChar(s[i])
  {
    seq(|s|, i requires 0 <= i < |s| => LowerChar(s[i]))
  }

  /** Case folding maps whitespace to whitespace and nothing else to whitespace. */
  lemma LowerCharSpace(c: char)
    ensures IsSpace(LowerChar(c)) <==> IsSpace(c)
    ensures LowerChar(LowerChar(c)) == LowerChar(c)
  {
  }

  /** Case folding commutes with `lstrip`. */
  lemma {:induction false} TrimLeftLower(s: string)
    ensures TrimLeft(Lower(s)) == Lower(TrimLeft(s))
    decreases |s|
  {
    if |s| > 0 {
      LowerCharSpace(s[0]);
      if IsSpace(s[0]) {
        assert Lower(s)[1..] == Lower(s[1..]);
        TrimLeftLower(s[1..]);
      }
    }
  }

  /** Case folding commutes with `rstrip`. */
  lemma {:induction false} TrimRightLower(s: string)
    ensures TrimRight(Lower(s)) == Lower(TrimRight(s))
    decreases |s|
  {
    if |s| > 0 {
      LowerCharSpace(s[|s| - 1]);
      if IsSpace(s[|s| - 1]) {
        assert Lower(s)[..|s| - 1] == Lower(s[..|s| - 1]);
        TrimRightLower(s[..|s| - 1]);
      }
    }
  }

  /** Case folding commutes with `strip`. */
  lemma StripLower(s: string)
    ensures Strip(Lower(s)) == Lower(Strip(s))
  {
    TrimLeftLower(s);
    TrimRightLower(TrimLeft(s));
  }

  /** Folding twice is folding once. */
  lemma LowerIdempotent(s: string)
    ensures Lower(Lower(s)) == Lower(s)
  {
    forall i | 0 <= i < |s| ensures Lower(Lower(s))[i] == Lower(s)[i] {
      LowerCharSpace(s[i]);
    }
  }

  /** `s.replace(c, "")` for a single character `c`. */
  function RemoveChar(s: string, c: char): (r: string)
    ensures c !in r
    ensures forall i :: 0 <= i < |r| ==> r[i] in s
    ensures c !in s ==> r == s
    decreases |s|
  {
    if s == [] then []
    else
      var t := RemoveChar(s[1..], c);
      assert c !in s ==> s == [s[0]] + s[1..];
      (if s[0] == c then [] else [s[0]]) + t
  }

  lemma {:induction false} RemoveCharAppend(a: string, b: string, c: char)
    ensures RemoveChar(a + b, c) == RemoveChar(a, c) + RemoveChar(b, c)
    decreases |a|
  {
    if a == [] {
      assert a + b == b;
    } else {
      assert (a + b)[1..] == a[1..] + b;
      RemoveCharAppend(a[1..], b, c);
    }
  }

  /** Removing a character commutes with case folding, as long as `c` is not a letter that folds. */
  lemma {:induction false} RemoveCharLower(s: string, c: char)
    requires forall d: char :: LowerChar(d) == c <==> d == c
    ensures RemoveChar(Lower(s), c) == Lower(RemoveChar(s, c))
    decreases |s|
  {
    if s != [] {
      assert Lower(s)[1..] == Lower(s[1..]);
      RemoveCharLower(s[1..], c);
      var head := if s[0] == c then [] else [s[0]];
      assert Lower(head + RemoveChar(s[1..], c)) == Lower(head) + Lower(RemoveChar(s[1..], c));
    }
  }

  /** Python's `s.startswith(prefix)`. */
  predicate StartsWith(s: string, prefix: string) {
    |prefix| <= |s| && s[..|prefix|] == prefix
  }

  /** Python's `str.isdigit()` on ASCII and full-width digits. */
  predicate IsDigit(c: char) {
    ('0' <= c <= '9') || ('\U{FF10}' <= c <= '\U{FF19}')
  }

  function DigitValue(c: char): (v: nat)
    requires IsDigit(c)
    ensures v < 10
  {
    if '0' <= c <= '9' then c as int - '0' as int else c as int - '\U{FF10}' as int
  }

  predicate AllDigits(s: string) {
    forall i :: 0 <= i < |s| ==> IsDigit(s[i])
  }

  /** Python's `int(digits)` for a non-empty string of decimal digits. */
  function DigitsValue(s: string): nat
    requires AllDigits(s)
    decreases |s|
  {
    if s == [] then 0 else DigitsValue(s[..|s| - 1]) * 10 + DigitValue(s[|s| - 1])
  }

  /** The decimal digit for `d < 10`. */
  function DigitChar(d: nat): (c: char)
    requires d < 10
    ensures IsDigit(c) && DigitValue(c) == d
  {
    ('0' as int + d) as char
  }

  /** Python's `str(n)` for a natural number. */
  function Show(n: nat): (s: string)
    ensures |s| >= 1 && AllDigits(s)
    decreases n
  {
    if n < 10 then [DigitChar(n)] else Show(n / 10) + [DigitChar(n % 10)]
  }

  /** `int(str(n)) == n`. */
  lemma {:induction false} ShowRoundTrip(n: nat)
    ensures DigitsValue(Show(n)) == n
    decreases n
  {
    if n >= 10 {
      ShowRoundTrip(n / 10);
      var s := Show(n);
      assert s[..|s| - 1] == Show(n / 10);
    } else {
      assert Show(n)[..0] == [];
    }
  }

  /** Python's `str(i)` for an integer. */
  function ShowInt(i: int): (s: string)
    ensures |s| >= 1 && ' ' !in s && NoSpace(s)
  {
    var s := if i < 0 then "-" + Show(-i) else Show(i);
    assert forall k :: 0 <= k < |s| ==> IsDigit(s[k]) || s[k] == '-';
    s
  }

  /** An optional sign followed by at least one decimal digit. */
  function ParseSigned(t: string): Option<int> {
    if |t| > 0 && (t[0] == '+' || t[0] == '-') then
      var ds := t[1..];
      if ds != [] && AllDigits(ds) then
        var v: int := DigitsValue(ds);
        Some(if t[0] == '-' then -v else v)
      else None
    else if t != [] && AllDigits(t) then Some(DigitsValue(t))
    else None
  }

  /**
   * Python's `int(s)` on a string: surrounding whitespace, an optional sign,
   * then at least one decimal digit; anything else is a `ValueError` (none).
   */
  function ParseInt(s: string): (r: Option<int>)
    ensures Strip(s) == [] ==> r.None?
  {
    ParseSigned(Strip(s))
  }

  lemma ParseSignedNegative(ds: string)
    requires ds != [] && AllDigits(ds)
    ensures ParseSigned("-" + ds) == Some(-(DigitsValue(ds) as int))
  {
    var t := "-" + ds;
    assert t[0] == '-';
    assert t[1..] == ds;
  }

  lemma DigitsNoSpace(ds: string)
    requires AllDigits(ds)
    ensures NoSpace(ds)
  {
  }

  /** `int(str(i)) == i`. */
  lemma ParseShowInt(i: int)
    ensures ParseInt(ShowInt(i)) == Some(i)
  {
    var s := ShowInt(i);
    assert Strip(s) == s;
    assert ParseInt(s) == ParseSigned(s);
    var n: nat := if i < 0 then -i else i;
    var ds := Show(n);
    ShowRoundTrip(n);
    if i < 0 {
      assert s == "-" + ds;
      ParseSignedNegative(ds);
    } else {
      assert s == ds;
      assert IsDigit(ds[0]);
    }
  }
}
