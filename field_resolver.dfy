/**
 * Notion property names and text-valued properties: the tolerant name
 * normalisation used to find a column whose name differs only in spaces,
 * full-width brackets or case; the candidate-then-prefix key picker of the
 * salary reader; and the text payloads, equality filters and plain-text
 * reader built on the property types.
 */
module FieldResolver {
  import opened Wrappers
  import opened Seqs
  import opened Text

  // ---------------------------------------------------------------------
  // Name normalisation
  // ---------------------------------------------------------------------

  /** The characters the translation table of the normaliser rewrites. */
  predicate Translatable(c: char) {
    c == '\U{FF08}' || c == '\U{FF09}' || c == '\U{3000}' || c == '\U{00A0}'
  }

  /** Full-width brackets become ASCII brackets; ideographic and no-break spaces become a space. */
  function TranslateChar(c: char): (d: char)
    ensures !Translatable(d)
    ensures !Translatable(c) ==> d == c
  {
    if c == '\U{FF08}' then '('
    else if c == '\U{FF09}' then ')'
    else if c == '\U{3000}' || c == '\U{00A0}' then ' '
    else c
  }

  /** `str.translate` with that table. */
  function Translate(s: string): (r: string)
    ensures |r| == |s|
    ensures forall i :: 0 <= i < |s| ==> r[i] == TranslateChar(s[i])
  {
    seq(|s|, i requires 0 <= i < |s| => TranslateChar(s[i]))
  }

  /** Translate, then delete every ASCII space. */
  function Squeeze(s: string): (r: string)
    ensures ' ' !in r
    ensures forall i :: 0 <= i < |r| ==> !Translatable(r[i])
  {
    var t := Translate(s);
    var r := RemoveChar(t, ' ');
    assert forall i :: 0 <= i < |r| ==> r[i] in t;
    r
  }

  lemma SqueezeAppend(a: string, b: string)
    ensures Squeeze(a + b) == Squeeze(a) + Squeeze(b)
  {
    assert Translate(a + b) == Translate(a) + Translate(b);
    RemoveCharAppend(Translate(a), Translate(b), ' ');
  }

  /**
   * The normal form of a property name: translate, delete every ASCII space,
   * strip the remaining whitespace at the ends, fold case.
   */
  function NormPropName(s: string): (r: string)
    ensures ' ' !in r
    ensures forall i :: 0 <= i < |r| ==> !Translatable(r[i]) && LowerChar(r[i]) == r[i]
    ensures Stripped(r)
  {
    var u := Squeeze(s);
    var v := Strip(u);
    StripChars(u);
    LowerKeeps(v);
    Lower(v)
  }

  /** Case folding keeps whitespace, spaces and untranslatable characters as they are, and is final. */
  lemma LowerKeeps(v: string)
    ensures forall i :: 0 <= i < |v| ==>
      (IsSpace(Lower(v)[i]) <==> IsSpace(v[i])) && (Lower(v)[i] == ' ' <==> v[i] == ' ') &&
      (!Translatable(v[i]) ==> !Translatable(Lower(v)[i])) && LowerChar(Lower(v)[i]) == Lower(v)[i]
    ensures Stripped(v) ==> Stripped(Lower(v))
  {
    forall i | 0 <= i < |v| ensures (IsSpace(Lower(v)[i]) <==> IsSpace(v[i])) && LowerChar(Lower(v)[i]) == Lower(v)[i] {
      LowerCharSpace(v[i]);
    }
  }

  /** Normalising a normal form changes nothing. */
  lemma NormIdempotent(s: string)
    ensures NormPropName(NormPropName(s)) == NormPropName(s)
  {
    var n := NormPropName(s);
    assert Translate(n) == n;
    assert Squeeze(n) == n;
    StripUnchanged(n);
    assert Lower(n) == n;
  }

  /** Names that squeeze to the same string have the same normal form. */
  lemma NormBySqueeze(x: string, y: string)
    requires Squeeze(x) == Squeeze(y)
    ensures NormPropName(x) == NormPropName(y)
  {
  }

  lemma SqueezeSpace(c: char)
    requires c == ' ' || c == '\U{3000}' || c == '\U{00A0}'
    ensures Squeeze([c]) == []
  {
    assert Translate([c]) == [' '];
    assert RemoveChar([' '], ' ') == [];
  }

  /** An ASCII, ideographic or no-break space anywhere in a name does not matter. */
  lemma NormIgnoresSpace(a: string, c: char, b: string)
    requires c == ' ' || c == '\U{3000}' || c == '\U{00A0}'
    ensures NormPropName(a + [c] + b) == NormPropName(a + b)
  {
    var x := a + [c];
    SqueezeAppend(a, [c]);
    SqueezeSpace(c);
    assert Squeeze(a) + [] == Squeeze(a);
    assert Squeeze(x) == Squeeze(a);
    SqueezeAppend(x, b);
    SqueezeAppend(a, b);
    NormBySqueeze(x + b, a + b);
  }

  /** A full-width bracket and its ASCII counterpart are the same to the normaliser. */
  lemma NormFullWidthBracket(a: string, c: char, b: string)
    requires c == '\U{FF08}' || c == '\U{FF09}'
    ensures NormPropName(a + [c] + b) == NormPropName(a + [if c == '\U{FF08}' then '(' else ')'] + b)
  {
    var d := if c == '\U{FF08}' then '(' else ')';
    SqueezeAppend(a + [c], b);
    SqueezeAppend(a, [c]);
    SqueezeAppend(a + [d], b);
    SqueezeAppend(a, [d]);
    assert Translate([c]) == Translate([d]);
    assert Squeeze([c]) == Squeeze([d]);
    NormBySqueeze(a + [c] + b, a + [d] + b);
  }

  /** A name without spaces, translatable characters or capitals is its own normal form. */
  lemma NormPlain(s: string)
    requires forall i :: 0 <= i < |s| ==> !Translatable(s[i]) && !IsSpace(s[i]) && LowerChar(s[i]) == s[i]
    ensures NormPropName(s) == s
  {
    assert Translate(s) == s;
    assert ' ' !in s;
    assert Squeeze(s) == s;
    assert NoSpace(s);
    assert Lower(s) == s;
  }

  /** Case does not matter to the normaliser. */
  lemma NormCaseInsensitive(s: string)
    ensures NormPropName(Lower(s)) == NormPropName(s)
  {
    var t := Translate(s);
    assert Translate(Lower(s)) == Lower(t);
    forall d: char ensures LowerChar(d) == ' ' <==> d == ' ' {
      LowerCharSpace(d);
    }
    RemoveCharLower(t, ' ');
    var u := RemoveChar(t, ' ');
    StripLower(u);
    LowerIdempotent(Strip(u));
  }

  // ---------------------------------------------------------------------
  // Resolving a wanted name against a database schema
  // ---------------------------------------------------------------------

  /**
   * The schema's property name for `want`: nothing for an empty schema,
   * `want` itself when it is a property, otherwise the first property (in
   * schema order) with the same normal form.
   */
  function ResolvePropKey(keys: seq<string>, want: string): (r: Option<string>)
    ensures keys == [] ==> r == None
    ensures want in keys ==> r == Some(want)
    ensures r.Some? ==> r.value in keys && NormPropName(r.value) == NormPropName(want)
    ensures r.None? <==> forall i :: 0 <= i < |keys| ==> NormPropName(keys[i]) != NormPropName(want)
  {
    if keys == [] then None
    else if want in keys then
      assert exists i :: 0 <= i < |keys| && keys[i] == want;
      Some(want)
    else
      match FindFirst(keys, SameNorm(want))
      case None => None
      case Some(i) => Some(keys[i])
  }

  /** The property names with the same normal form as `want`. */
  function SameNorm(want: string): string -> bool {
    k => NormPropName(k) == NormPropName(want)
  }

  /** Resolving the name the resolver returned gives that name back. */
  lemma ResolveStable(keys: seq<string>, want: string)
    requires ResolvePropKey(keys, want).Some?
    ensures ResolvePropKey(keys, ResolvePropKey(keys, want).value) == ResolvePropKey(keys, want)
  {
  }

  /**
   * When `want` is not itself a property, the resolver returns the first
   * property with its normal form: for example "平日（中晚） 加班費" finds a
   * column "平日(中晚)加班費" (`NormIgnoresSpace`, `NormFullWidthBracket`).
   */
  lemma ResolveFirstTolerant(keys: seq<string>, want: string, i: nat)
    requires want !in keys
    requires i < |keys| && NormPropName(keys[i]) == NormPropName(want)
    requires forall j :: 0 <= j < i ==> NormPropName(keys[j]) != NormPropName(want)
    ensures ResolvePropKey(keys, want) == Some(keys[i])
  {
    var f := FindFirst(keys, SameNorm(want));
    assert SameNorm(want)(keys[i]);
    assert f.Some?;
    assert SameNorm(want)(keys[f.value]);
    assert !(f.value < i) && !(i < f.value);
  }

  // ---------------------------------------------------------------------
  // The salary reader's key picker
  // ---------------------------------------------------------------------

  /** The first property name that starts with `prefix`. */
  function FindPrefixKey(keys: seq<string>, prefix: string): (r: Option<string>)
    ensures r.Some? ==> r.value in keys && StartsWith(r.value, prefix)
    ensures r.None? <==> forall i :: 0 <= i < |keys| ==> !StartsWith(keys[i], prefix)
  {
    match FindFirst(keys, k => StartsWith(k, prefix))
    case None => None
    case Some(i) => Some(keys[i])
  }

  /**
   * The first candidate that is a property; otherwise, for a non-empty
   * prefix, the first property starting with it; otherwise the first
   * candidate even though it is not a property (reading it then gives the
   * default value); with no candidates, nothing. An empty prefix stands for
   * no prefix.
   */
  function PickKey(keys: seq<string>, candidates: seq<string>, prefix: string): (r: Option<string>)
    ensures forall i :: (0 <= i < |candidates| && candidates[i] in keys &&
      (forall j :: 0 <= j < i ==> candidates[j] !in keys)) ==> r == Some(candidates[i])
    ensures ((forall i :: 0 <= i < |candidates| ==> candidates[i] !in keys) && prefix != [] &&
      (exists i :: 0 <= i < |keys| && StartsWith(keys[i], prefix))) ==>
        r.Some? && r.value in keys && StartsWith(r.value, prefix)
    ensures r.Some? ==> r.value in keys || (candidates != [] && r.value == candidates[0])
    ensures r.None? <==> candidates == [] && (prefix == [] || forall i :: 0 <= i < |keys| ==> !StartsWith(keys[i], prefix))
  {
    match FindFirst(candidates, k => k in keys)
    case Some(i) => Some(candidates[i])
    case None =>
      if prefix != [] && FindPrefixKey(keys, prefix).Some? then FindPrefixKey(keys, prefix)
      else if candidates != [] then Some(candidates[0])
      else None
  }

  // ---------------------------------------------------------------------
  // Property values
  // ---------------------------------------------------------------------

  /** The `type` of a database property. */
  datatype PropType = TitleType | RichTextType | SelectType | MultiSelectType | StatusType
                    | NumberType | CheckboxType | DateType | OtherType

  /**
   * A property value on a page: text properties as their fragments'
   * `plain_text`, a select or status as its option name (absent when
   * unset), a multi-select as its option names, a number and a checkbox
   * (absent when null).
   */
  datatype PropValue =
    | TitleValue(fragments: seq<string>)
    | RichTextValue(fragments: seq<string>)
    | SelectValue(option: Option<string>)
    | StatusValue(option: Option<string>)
    | MultiSelectValue(names: seq<string>)
    | NumberValue(number: Option<real>)
    | CheckboxValue(checked: Option<bool>)
    | OtherValue

  /** The fragments concatenated (`"".join(...)`). */
  function Concat(fragments: seq<string>): string {
    JoinSep(fragments, "")
  }

  /** The stripped multi-select names, skipping options whose raw name is empty. */
  function OptionNames(names: seq<string>): (r: seq<string>)
    ensures |r| <= |names|
    ensures forall i :: 0 <= i < |r| ==> Stripped(r[i])
    decreases |names|
  {
    if names == [] then []
    else
      var last := names[|names| - 1];
      OptionNames(names[..|names| - 1]) + (if last != [] then [Strip(last)] else [])
  }

  /**
   * The plain text of a property: text fragments joined and stripped, an
   * option name stripped, multi-select names joined with ", ", the number as
   * `render` prints it, "True"/"False" for a checkbox, and "" for a missing
   * or unset property.
   */
  function GetPropPlainText(prop: Option<PropValue>, render: real -> string): (r: string)
    ensures prop.None? ==> r == []
    ensures prop.Some? && (prop.value.TitleValue? || prop.value.RichTextValue?) ==>
      r == Strip(Concat(prop.value.fragments))
    ensures (prop.Some? && (prop.value.SelectValue? || prop.value.StatusValue? || prop.value.TitleValue?
      || prop.value.RichTextValue?)) ==> Stripped(r)
    ensures prop.Some? && prop.value.CheckboxValue? && prop.value.checked.Some? ==>
      r == (if prop.value.checked.value then "True" else "False")
  {
    match prop
    case None => ""
    case Some(p) =>
      match p
      case TitleValue(fs) => if fs == [] then "" else Strip(Concat(fs))
      case RichTextValue(fs) => if fs == [] then "" else Strip(Concat(fs))
      case SelectValue(o) => if o.Some? then Strip(o.value) else ""
      case StatusValue(o) => if o.Some? then Strip(o.value) else ""
      case MultiSelectValue(ns) => if ns == [] then "" else JoinSep(OptionNames(ns), ", ")
      case NumberValue(n) => if n.Some? then render(n.value) else ""
      case CheckboxValue(b) => if b.Some? then (if b.value then "True" else "False") else ""
      case OtherValue => ""
  }

  /**
   * The payload written to a title or rich-text property for `value`: the
   * stripped value as one fragment, no fragment for an empty value, nothing
   * for any other property type.
   */
  function BuildTextProperty(t: PropType, value: string): (r: Option<PropValue>)
    ensures r.Some? <==> t == TitleType || t == RichTextType
    ensures r.Some? ==> (r.value.TitleValue? <==> t == TitleType)
    ensures r.Some? && t == TitleType ==> r.value.TitleValue?
    ensures r.Some? && t == RichTextType ==> r.value.RichTextValue?
    ensures r.Some? ==> forall i :: 0 <= i < |r.value.fragments| ==>
      r.value.fragments[i] != [] && Stripped(r.value.fragments[i])
  {
    var v := Strip(value);
    if t == TitleType then Some(TitleValue(if v == [] then [] else [v]))
    else if t == RichTextType then Some(RichTextValue(if v == [] then [] else [v]))
    else None
  }

  /** Reading back what was written gives the stripped value. */
  lemma BuildThenRead(t: PropType, value: string, render: real -> string)
    requires t == TitleType || t == RichTextType
    ensures GetPropPlainText(BuildTextProperty(t, value), render) == Strip(value)
  {
    StripIdempotent(value);
  }

  /** A Notion `equals` filter on a title or rich-text property. */
  datatype TextFilter = TextFilter(property: string, onTitle: bool, equals: string)

  /** The type of `name` in a schema (`OtherType` for a missing property). */
  function TypeOf(meta: map<string, PropType>, name: string): PropType {
    if name in meta then meta[name] else OtherType
  }

  /**
   * The equality filter for `value` on property `name`: none for a value
   * that strips to empty or a property that is not title or rich text.
   */
  function EqualsFilter(meta: map<string, PropType>, name: string, value: string): (r: Option<TextFilter>)
    ensures r.None? <==> Strip(value) == [] || (TypeOf(meta, name) != TitleType && TypeOf(meta, name) != RichTextType)
    ensures r.Some? ==> r.value.property == name && r.value.equals == Strip(value)
    ensures r.Some? ==> (r.value.onTitle <==> TypeOf(meta, name) == TitleType)
  {
    var t := TypeOf(meta, name);
    var v := Strip(value);
    if v == [] then None
    else if t == TitleType then Some(TextFilter(name, true, v))
    else if t == RichTextType then Some(TextFilter(name, false, v))
    else None
  }

  /** What the filter matches: a value of the filtered kind whose whole text equals the filter's. */
  predicate Matches(f: TextFilter, p: PropValue) {
    (if f.onTitle then p.TitleValue? else p.RichTextValue?) && Concat(p.fragments) == f.equals
  }

  /** A page written with `value` is found by the equality filter for `value`. */
  lemma FilterFindsWritten(meta: map<string, PropType>, name: string, value: string)
    requires EqualsFilter(meta, name, value).Some?
    ensures BuildTextProperty(TypeOf(meta, name), value).Some?
    ensures Matches(EqualsFilter(meta, name, value).value, BuildTextProperty(TypeOf(meta, name), value).value)
  {
  }
}
