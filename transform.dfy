/** The record builder of internal/transform/transform.go: literal coercion
    by field kind, the path walk that sets a field deep inside a resource,
    and the row transformation that applies defaults, mappings and the id. */
module Transform {
  import opened Wrappers
  import opened Text
  import opened Mapping
  import opened Graph
  import opened Registry

  /** Why setting a field failed; each names the Go error it stands for. */
  datatype SetError =
    | NoSegments                              // "empty path"
    | NilPointer                              // "nil pointer encountered"
    | NoFieldName                             // "empty field name in path"
    | FieldNotFound(field: string, typeName: string)
    | NotASlice(field: string)
    | CannotNavigate(field: string, kind: string)
    | NotAStruct(kind: string)                // where Go's FieldByName panics
    | BadInt(value: string)                   // "cannot convert %s to int"
    | BadBool(value: string)                  // "cannot convert %s to bool"
    | BadStruct(value: string)                // "cannot set struct field with value %s"
    | Unsupported(kind: string)               // "unsupported field type: %s"
    | PathRejected(cause: PathError)
    | NoIdField                               // "resource has no Id field"
    | IdNotString(kind: string)               // where Go's Set/SetString panics

  // ---------------------------------------------------------------------
  // Literal parsing (strconv)
  // ---------------------------------------------------------------------

  predicate AllDigits(s: string) {
    forall i :: 0 <= i < |s| ==> IsDigit(s[i])
  }

  /** `strconv.ParseInt(s, 10, 64)`: an optional sign, then one or more
      decimal digits and nothing else, within int64. */
  function ParseInt64(s: string): (r: Option<int>)
    ensures r.Some? ==> IsInt64(r.value)
  {
    var digits := Unsigned(s);
    if |s| == 0 || !AllDigits(digits) then None
    else SignedValue(s[0] == '-', digits)
  }

  /** `strconv.ParseBool`. */
  function ParseBool(s: string): Option<bool> {
    if s == "1" || s == "t" || s == "T" || s == "TRUE" || s == "true" || s == "True" then Some(true)
    else if s == "0" || s == "f" || s == "F" || s == "FALSE" || s == "false" || s == "False" then Some(false)
    else None
  }

  /** `strconv.FormatBool`. */
  function FormatBool(b: bool): string {
    if b then "true" else "false"
  }

  /** The first position of `x` in `xs`. */
  function Position(xs: seq<string>, x: string): (k: nat)
    requires x in xs
    ensures k < |xs| && xs[k] == x && x !in xs[..k]
  {
    if xs[0] == x then 0
    else
      var k := Position(xs[1..], x);
      assert xs[1..][..k] == xs[1..k + 1];
      k + 1
  }

  // ---------------------------------------------------------------------
  // The JSON round trip of setFinalValue
  // ---------------------------------------------------------------------

  /** A character `json.Marshal` writes as itself inside a string: anything
      from space on except `"`, `\`, the HTML-sensitive `<`, `>` and `&`,
      and U+2028 and U+2029. */
  predicate JsonPlain(c: char) {
    c >= ' ' && c != '"' && c != '\\' && c != '<' && c != '>' && c != '&' &&
    c != '\U{2028}' && c != '\U{2029}'
  }

  predicate AllJsonPlain(s: string) {
    forall i :: 0 <= i < |s| ==> JsonPlain(s[i])
  }

  const HexDigits: string := "0123456789abcdef"

  /** How `json.Marshal` writes one character of a string: as itself, as a
      two-character escape, or as `\u` and four lower-case hex digits. */
  function JsonEscapeChar(c: char): (e: string)
    ensures JsonPlain(c) ==> e == [c]
    ensures !JsonPlain(c) ==> |e| >= 2 && e[0] == '\\'
  {
    if JsonPlain(c) then [c]
    else if c == '"' then "\\\""
    else if c == '\\' then "\\\\"
    else if c == '\U{8}' then "\\b"
    else if c == '\U{C}' then "\\f"
    else if c == '\n' then "\\n"
    else if c == '\r' then "\\r"
    else if c == '\t' then "\\t"
    else if c == '\U{2028}' then "\\u2028"
    else if c == '\U{2029}' then "\\u2029"
    else "\\u00" + [HexDigits[c as int / 16], HexDigits[c as int % 16]]
  }

  /** The body of the JSON string literal `json.Marshal` makes of `s`. */
  function JsonEscape(s: string): (e: string)
    ensures AllJsonPlain(s) ==> e == s
  {
    if |s| == 0 then "" else JsonEscapeChar(s[0]) + JsonEscape(s[1..])
  }

  function TrimLeadingQuotes(x: string): string {
    if |x| > 0 && x[0] == '"' then TrimLeadingQuotes(x[1..]) else x
  }

  function TrimTrailingQuotes(x: string): (r: string)
    ensures |r| <= |x| && r == x[..|r|]
  {
    if |x| > 0 && x[|x| - 1] == '"' then TrimTrailingQuotes(x[..|x| - 1]) else x
  }

  /** What the generated enumeration decoder compares with its codes: the
      raw literal `json.Marshal` made of `s`, with every leading and trailing
      `"` trimmed (`strings.Trim`) and its escapes left as they are. */
  function DecoderKey(s: string): string {
    TrimTrailingQuotes(TrimLeadingQuotes("\"" + JsonEscape(s) + "\""))
  }

  /** An escaped text never starts with `"`, so only the opening quote of
      its literal is trimmed from the front. */
  lemma OpeningQuoteTrimmed(e: string)
    requires |e| > 0 && e[0] != '"'
    ensures TrimLeadingQuotes("\"" + e + "\"") == e + "\""
  {
    var lit := "\"" + e + "\"";
    var rest := e + "\"";
    assert lit[0] == '"';
    assert lit[1..] == rest;
    assert TrimLeadingQuotes(lit) == TrimLeadingQuotes(rest);
    assert rest[0] == e[0];
  }

  lemma EscapeStart(s: string)
    requires |s| > 0
    ensures |JsonEscape(s)| > 0 && JsonEscape(s)[0] != '"'
  {
    assert JsonEscape(s) == JsonEscapeChar(s[0]) + JsonEscape(s[1..]);
  }

  /** A text not ending in `"` loses only the closing quote of its literal. */
  lemma ClosingQuoteTrimmed(x: string)
    requires |x| > 0 && x[|x| - 1] != '"'
    ensures TrimTrailingQuotes(x + "\"") == x
  {
    var lead := x + "\"";
    assert lead[..|lead| - 1] == x;
  }

  /** A text `json.Marshal` writes unescaped reaches the decoder unchanged. */
  lemma PlainKey(s: string)
    requires AllJsonPlain(s)
    ensures DecoderKey(s) == s
  {
    if |s| == 0 {
      var lit := "\"" + JsonEscape(s) + "\"";
      assert lit == "\"\"" && lit[1..] == "\"";
      assert TrimLeadingQuotes(lit) == TrimLeadingQuotes("\"") == TrimLeadingQuotes("");
    } else {
      var e := JsonEscape(s);
      assert e == s;
      assert JsonPlain(s[0]);
      OpeningQuoteTrimmed(e);
      assert JsonPlain(s[|s| - 1]);
      ClosingQuoteTrimmed(e);
    }
  }

  /** Escaping a character `json.Marshal` rewrites leaves a backslash. */
  lemma {:induction false} EscapedHasBackslash(s: string)
    requires !AllJsonPlain(s)
    ensures '\\' in JsonEscape(s)
  {
    var head := JsonEscapeChar(s[0]);
    assert JsonEscape(s) == head + JsonEscape(s[1..]);
    if JsonPlain(s[0]) {
      assert !AllJsonPlain(s[1..]) by {
        var i :| 0 <= i < |s| && !JsonPlain(s[i]);
        assert s[1..][i - 1] == s[i];
      }
      EscapedHasBackslash(s[1..]);
    } else {
      assert (head + JsonEscape(s[1..]))[0] == '\\';
    }
  }

  /** The escape of a character `json.Marshal` rewrites leaves a backslash in
      the decoder's key. */
  lemma EscapedKey(s: string)
    requires !AllJsonPlain(s)
    ensures '\\' in DecoderKey(s)
  {
    var e := JsonEscape(s);
    EscapedHasBackslash(s);
    EscapeStart(s);
    OpeningQuoteTrimmed(e);
    var lead := e + "\"";
    var p :| 0 <= p < |e| && e[p] == '\\';
    assert lead[p] == '\\';
    TrailingQuotesKeep(lead, p);
    assert TrimTrailingQuotes(lead)[p] == '\\';
  }

  /** Trailing quotes never reach past a non-quote. */
  lemma {:induction false} TrailingQuotesKeep(x: string, k: int)
    requires 0 <= k < |x| && x[k] != '"'
    ensures k < |TrimTrailingQuotes(x)|
    decreases |x|
  {
    if x[|x| - 1] == '"' {
      assert x[..|x| - 1][k] == x[k];
      TrailingQuotesKeep(x[..|x| - 1], k);
    }
  }

  /** The JSON encoding of an enumeration value: the code of its ordinal. */
  function EnumCode(cat: Catalog, n: string, ordinal: int): Option<string> {
    var codes := CodesOf(cat, n);
    if 0 <= ordinal < |codes| then Some(codes[ordinal]) else None
  }

  /** `ParseInt` reads back the `%d` spelling of every int64. */
  lemma ParseInt64RoundTrip(i: int)
    requires IsInt64(i)
    ensures ParseInt64(IntToString(i)) == Some(i)
  {
    var n: nat := if i < 0 then -i else i;
    var d := NatToString(n);
    DigitsValueOfNatToString(n);
    if i < 0 {
      var t := "-" + d;
      assert t[1..] == d;
      assert Unsigned(t) == d;
    } else {
      assert IsDigit(d[0]);
      assert Unsigned(d) == d;
    }
  }

  /** Unlike the `%d` scan of an index, `ParseInt` refuses text after the digits. */
  lemma ParseInt64RejectsTrailingText(d: string, tail: string)
    requires |d| > 0 && AllDigits(d) && |tail| > 0 && !IsDigit(tail[0])
    ensures ParseInt64(d + tail) == None
  {
    var t := d + tail;
    assert IsDigit(t[0]);
    assert Unsigned(t) == t;
    assert !IsDigit(t[|d|]);
  }

  /** `ParseBool` reads back what `FormatBool` writes, and its accepted
      spellings are the only literals a boolean field takes. */
  lemma BoolRoundTrip(b: bool, s: string)
    ensures ParseBool(FormatBool(b)) == Some(b)
    ensures ParseBool(s).Some? ==> |s| <= 5
    ensures ParseBool("not_a_boolean") == None
  {
  }

  /** What the enumeration decoder accepts: a code `json.Marshal` writes
      unescaped decodes to its ordinal, which encodes back to the same code;
      a text it has to escape never matches a code free of backslashes and,
      like any text that is no code, goes on to the integer parse. */
  lemma EnumDecoding(cat: Catalog, n: string, s: string)
    ensures AllJsonPlain(s) && s in CodesOf(cat, n) ==>
      Coerce(cat, TEnum(n), s).Success? && Coerce(cat, TEnum(n), s).value.VInt? &&
      EnumCode(cat, n, Coerce(cat, TEnum(n), s).value.i) == Some(s)
    ensures AllJsonPlain(s) && s !in CodesOf(cat, n) ==> Coerce(cat, TEnum(n), s) == IntValue(s)
    ensures !AllJsonPlain(s) && (forall c :: c in CodesOf(cat, n) ==> '\\' !in c) ==>
      Coerce(cat, TEnum(n), s) == IntValue(s)
  {
    if AllJsonPlain(s) {
      PlainKey(s);
    } else {
      EscapedKey(s);
    }
  }

  /** With distinct codes, every code `json.Marshal` writes unescaped
      decodes back to its own ordinal. */
  lemma EnumOrdinalRoundTrip(cat: Catalog, n: string, k: int)
    requires var codes := CodesOf(cat, n); forall a, b :: 0 <= a < b < |codes| ==> codes[a] != codes[b]
    requires EnumCode(cat, n, k).Some? && AllJsonPlain(EnumCode(cat, n, k).value)
    ensures Coerce(cat, TEnum(n), EnumCode(cat, n, k).value) == Success(VInt(k))
  {
    var codes := CodesOf(cat, n);
    PlainKey(codes[k]);
    var p := Position(codes, codes[k]);
    assert codes[p] == codes[k];
  }

  /** The quantity comparators of FHIR, in declaration order. */
  const Comparators: Catalog := Catalog(map[], map["QuantityComparator" := ["<", "<=", ">=", ">"]])

  /** `json.Marshal` writes `<` as `\u003c`, so the comparator `<` never
      matches its code: it falls through to the integer parse and fails. */
  lemma ComparatorCodeRejected()
    ensures Coerce(Comparators, TEnum("QuantityComparator"), "<") == Failure(BadInt("<"))
  {
    var codes := CodesOf(Comparators, "QuantityComparator");
    assert codes == ["<", "<=", ">=", ">"];
    assert forall c :: c in codes ==> '\\' !in c;
    assert !JsonPlain("<"[0]);
    EnumDecoding(Comparators, "QuantityComparator", "<");
    assert !IsDigit("<"[0]);
  }

  /** The evidently intended enumeration branch: the text itself is looked
      up among the codes, with no JSON escaping in between. */
  function CoerceEnumIntended(cat: Catalog, n: string, s: string): (r: Result<Value, SetError>)
    ensures s in CodesOf(cat, n) ==> r.Success? && r.value.VInt? && EnumCode(cat, n, r.value.i) == Some(s)
    ensures s !in CodesOf(cat, n) ==> r == IntValue(s)
  {
    var codes := CodesOf(cat, n);
    if s in codes then Success(VInt(Position(codes, s))) else IntValue(s)
  }

  /** The intended branch decodes every code, comparators included, and
      agrees with the code as written on every text `json.Marshal` leaves
      unescaped. */
  lemma IntendedDecodesEveryCode(cat: Catalog, n: string, k: int, s: string)
    requires var codes := CodesOf(cat, n); forall a, b :: 0 <= a < b < |codes| ==> codes[a] != codes[b]
    requires EnumCode(cat, n, k).Some?
    ensures CoerceEnumIntended(cat, n, EnumCode(cat, n, k).value) == Success(VInt(k))
    ensures AllJsonPlain(s) ==> CoerceEnumIntended(cat, n, s) == Coerce(cat, TEnum(n), s)
    ensures CoerceEnumIntended(Comparators, "QuantityComparator", "<") == Success(VInt(0))
  {
    var codes := CodesOf(cat, n);
    var p := Position(codes, codes[k]);
    assert codes[p] == codes[k];
    if AllJsonPlain(s) {
      PlainKey(s);
    }
  }

  // ---------------------------------------------------------------------
  // setFinalValue
  // ---------------------------------------------------------------------

  /** What the literal `s` means for a terminal field of type `t` once its
      pointers are followed: the custom decoder first (the key it sees, as
      `DecoderKey` gives it, matching a code gives that code's ordinal),
      then the kind switch. */
  function Coerce(cat: Catalog, t: Type, s: string): (r: Result<Value, SetError>)
    ensures r.Success? ==> HasType(cat, r.value, PeelType(t))
    decreases t
  {
    match t
    case TPtr(e) => Coerce(cat, e, s)
    case TString => Success(VString(s))
    case TInt => IntValue(s)
    case TEnum(n) =>
      var codes := CodesOf(cat, n);
      var key := DecoderKey(s);
      if key in codes then Success(VInt(Position(codes, key)))
      else IntValue(s)
    case TBool => if ParseBool(s).Some? then Success(VBool(ParseBool(s).value)) else Failure(BadBool(s))
    case TStruct(_) => Failure(BadStruct(s))
    case TSlice(_) => Failure(Unsupported("slice"))
    case TOther(k) => Failure(Unsupported(k))
  }

  function IntValue(s: string): (r: Result<Value, SetError>)
    ensures r.Success? ==> r.value.VInt? && IsInt64(r.value.i)
  {
    if ParseInt64(s).Some? then Success(VInt(ParseInt64(s).value)) else Failure(BadInt(s))
  }

  /** The pointers of `v` along `t` are all non-nil. */
  predicate Reaches(t: Type, v: Value)
    decreases t
  {
    t.TPtr? ==> !IsNil(v) && Reaches(t.elem, v.target.value)
  }

  /** The field value `x` of type `t` holds what the literal `s` means. */
  predicate Holds(cat: Catalog, t: Type, x: Value, s: string) {
    Coerce(cat, t, s).Success? && Reaches(t, x) && Peel(t, x) == Coerce(cat, t, s).value
  }

  /** `setFinalValue`: a nil pointer is allocated before its target is set. */
  function SetFinal(cat: Catalog, t: Type, v: Value, s: string): (r: Result<Value, SetError>)
    ensures r.Success? <==> Coerce(cat, t, s).Success?
    ensures r.Success? ==> Holds(cat, t, r.value, s)
    ensures r.Success? && HasType(cat, v, t) ==> HasType(cat, r.value, t)
    decreases t
  {
    if t.TPtr? then
      var x :- SetFinal(cat, t.elem, if IsNil(v) then Zero(t.elem) else v.target.value, s);
      Success(VPtr(Some(x)))
    else Coerce(cat, t, s)
  }

  // ---------------------------------------------------------------------
  // setNestedFieldValue
  // ---------------------------------------------------------------------

  /** Every index a segment carries is non-negative, as `ParsePath` ensures. */
  predicate NonNegativeIndices(segs: seq<Segment>) {
    forall k :: 0 <= k < |segs| && segs[k].index.Some? ==> segs[k].index.value >= 0
  }

  /** `setNestedFieldValue` on a value `v` of type `t`: pointers are
      followed (a nil one is an error), then an empty field name is refused
      whatever was reached, and otherwise the first segment names a field of
      the struct reached. */
  function SetNested(cat: Catalog, t: Type, v: Value, segs: seq<Segment>, s: string): (r: Result<Value, SetError>)
    requires NonNegativeIndices(segs)
    decreases |segs|, 2, t
  {
    if |segs| == 0 then Failure(NoSegments)
    else if t.TPtr? then
      if IsNil(v) then Failure(NilPointer)
      else
        var x :- SetNested(cat, t.elem, v.target.value, segs, s);
        Success(VPtr(Some(x)))
    else if |segs[0].field| == 0 then Failure(NoFieldName)
    else if t.TStruct? then
      var m :- SetField(cat, t.name, FieldsOfValue(v), segs, s);
      Success(VStruct(m))
    else Failure(NotAStruct(Kind(t)))
  }

  /** The empty field name is found before the kind of what was reached:
      `active.[0]` on a patient whose `Active` is a `*bool` is refused for
      its empty name, not because a boolean has no fields. */
  lemma EmptyFieldNameBeforeKind(s: string)
    ensures var cat := Catalog(map["Patient" := map["Active" := TPtr(TBool)]], map[]);
      SetNested(cat, TStruct("Patient"), VStruct(map[]), [Segment("active", None), Segment("", Some(0))], s) ==
        Failure(NoFieldName)
  {
    assert Capitalize("active") == "Active";
  }

  /** One segment inside a struct of type `n` holding the fields `m`: the
      field is found by its capitalised name; an indexed segment grows the
      slice as needed; the rest of the path descends into the field. Only
      the named field changes. */
  function SetField(cat: Catalog, n: string, m: map<string, Value>, segs: seq<Segment>, s: string)
    : (r: Result<map<string, Value>, SetError>)
    requires |segs| > 0 && NonNegativeIndices(segs)
    decreases |segs|, 1
  {
    var seg := segs[0];
    var f := Capitalize(seg.field);
    var decl := FieldsOf(cat, n);
    if |seg.field| == 0 then Failure(NoFieldName)
    else if f !in decl then Failure(FieldNotFound(f, n))
    else
      var ft := decl[f];
      var cur := FieldValue(m, f, ft);
      if seg.index.Some? then
        if !ft.TSlice? then Failure(NotASlice(f))
        else
          var xs :- SetElement(cat, ft.elem, ElemsOf(cur), seg.index.value, segs[1..], s);
          Success(m[f := VSlice(xs)])
      else if |segs| == 1 then
        var x :- SetFinal(cat, ft, cur, s);
        Success(m[f := x])
      else if ft.TPtr? || ft.TStruct? then
        var x :- SetNested(cat, ft, if ft.TPtr? && IsNil(cur) then VPtr(Some(Zero(ft.elem))) else cur, segs[1..], s);
        Success(m[f := x])
      else Failure(CannotNavigate(f, Kind(ft)))
  }

  /** Only the named field changes; an unknown field or an index on a
      non-slice field is refused; an indexed write grows the slice to hold
      the index and keeps every other element. */
  lemma SetFieldShape(cat: Catalog, n: string, m: map<string, Value>, segs: seq<Segment>, s: string)
    requires |segs| > 0 && NonNegativeIndices(segs)
    ensures var r := SetField(cat, n, m, segs, s); var f := Capitalize(segs[0].field);
      r.Success? ==>
        f in FieldsOf(cat, n) && r.value.Keys == m.Keys + {f} &&
        forall g :: g in m && g != f ==> r.value[g] == m[g]
    ensures var r := SetField(cat, n, m, segs, s); var f := Capitalize(segs[0].field);
      |segs[0].field| > 0 && f !in FieldsOf(cat, n) ==> r == Failure(FieldNotFound(f, n))
    ensures var r := SetField(cat, n, m, segs, s); var f := Capitalize(segs[0].field);
      |segs[0].field| > 0 && f in FieldsOf(cat, n) && segs[0].index.Some? && !FieldsOf(cat, n)[f].TSlice?
      ==> r == Failure(NotASlice(f))
    ensures var r := SetField(cat, n, m, segs, s); var f := Capitalize(segs[0].field); var j := segs[0].index;
      r.Success? && j.Some? ==>
        var prev := ElemsOf(FieldValue(m, f, FieldsOf(cat, n)[f]));
        var grown := ElemsOf(r.value[f]);
        FieldsOf(cat, n)[f].TSlice? && r.value[f].VSlice? &&
        |grown| == (if |prev| <= j.value then j.value + 1 else |prev|) &&
        forall k :: 0 <= k < |grown| && k != j.value ==>
          grown[k] == if k < |prev| then prev[k] else Zero(FieldsOf(cat, n)[f].elem)
  {
  }

  /** The indexed part of a segment: a slice shorter than `i + 1` is
      replaced by one of length `i + 1` that keeps the old elements as its
      prefix; a nil pointer element is allocated; then the element is set. */
  function SetElement(cat: Catalog, et: Type, xs: seq<Value>, i: int, rest: seq<Segment>, s: string)
    : (r: Result<seq<Value>, SetError>)
    requires i >= 0 && NonNegativeIndices(rest)
    ensures r.Success? ==> |r.value| == (if |xs| <= i then i + 1 else |xs|)
    ensures r.Success? ==> forall k :: 0 <= k < |r.value| && k != i ==>
              r.value[k] == if k < |xs| then xs[k] else Zero(et)
    decreases |rest| + 1, 0
  {
    var grown := if |xs| <= i then xs + seq(i + 1 - |xs|, _ => Zero(et)) else xs;
    var cur := if et.TPtr? && IsNil(grown[i]) then VPtr(Some(Zero(et.elem))) else grown[i];
    var x :- if |rest| == 0 then SetFinal(cat, et, cur, s) else SetNested(cat, et, cur, rest, s);
    Success(grown[i := x])
  }

  // ---------------------------------------------------------------------
  // Properties of the walk
  // ---------------------------------------------------------------------

  /** A read found a field whose value holds what `s` means. */
  predicate ReadHolds(cat: Catalog, rd: Option<(Type, Value)>, s: string) {
    rd.Some? && Holds(cat, rd.value.0, rd.value.1, s)
  }

  /** Get after set: once a path has been set from `s`, reading the same path
      finds a field holding what `s` means. */
  lemma {:induction false} SetNestedThenRead(cat: Catalog, t: Type, v: Value, segs: seq<Segment>, s: string)
    requires NonNegativeIndices(segs) && SetNested(cat, t, v, segs, s).Success?
    ensures ReadHolds(cat, Read(cat, t, SetNested(cat, t, v, segs, s).value, segs), s)
    decreases |segs|, 2, t
  {
    match t
    case TPtr(e) => SetNestedThenRead(cat, e, v.target.value, segs, s);
    case TStruct(n) => SetFieldThenRead(cat, n, FieldsOfValue(v), segs, s);
  }

  lemma {:induction false} SetFieldThenRead(cat: Catalog, n: string, m: map<string, Value>, segs: seq<Segment>, s: string)
    requires |segs| > 0 && NonNegativeIndices(segs) && SetField(cat, n, m, segs, s).Success?
    ensures ReadHolds(cat, ReadField(cat, n, SetField(cat, n, m, segs, s).value, segs), s)
    decreases |segs|, 1
  {
    var f := Capitalize(segs[0].field);
    var ft := FieldsOf(cat, n)[f];
    var cur := FieldValue(m, f, ft);
    if segs[0].index.Some? {
      SetElementThenRead(cat, ft.elem, ElemsOf(cur), segs[0].index.value, segs[1..], s);
    } else if |segs| > 1 {
      SetNestedThenRead(cat, ft, if ft.TPtr? && IsNil(cur) then VPtr(Some(Zero(ft.elem))) else cur, segs[1..], s);
    }
  }

  lemma {:induction false} SetElementThenRead(cat: Catalog, et: Type, xs: seq<Value>, i: int, rest: seq<Segment>, s: string)
    requires i >= 0 && NonNegativeIndices(rest) && SetElement(cat, et, xs, i, rest, s).Success?
    ensures var ys := SetElement(cat, et, xs, i, rest, s).value;
      i < |ys| &&
      if |rest| == 0 then Holds(cat, et, ys[i], s) else ReadHolds(cat, Read(cat, et, ys[i], rest), s)
    decreases |rest| + 1, 0
  {
    var grown := if |xs| <= i then xs + seq(i + 1 - |xs|, _ => Zero(et)) else xs;
    var cur := if et.TPtr? && IsNil(grown[i]) then VPtr(Some(Zero(et.elem))) else grown[i];
    if |rest| > 0 {
      SetNestedThenRead(cat, et, cur, rest, s);
    }
  }

  /** Setting a path keeps a well-typed value well-typed: the walk only
      allocates zero values of the declared types and coerces literals to
      the field's own type. */
  lemma {:induction false} SetNestedTyped(cat: Catalog, t: Type, v: Value, segs: seq<Segment>, s: string)
    requires NonNegativeIndices(segs) && SetNested(cat, t, v, segs, s).Success? && HasType(cat, v, t)
    ensures HasType(cat, SetNested(cat, t, v, segs, s).value, t)
    decreases |segs|, 2, t
  {
    match t
    case TPtr(e) => SetNestedTyped(cat, e, v.target.value, segs, s);
    case TStruct(n) => SetFieldTyped(cat, n, FieldsOfValue(v), segs, s);
  }

  lemma {:induction false} SetFieldTyped(cat: Catalog, n: string, m: map<string, Value>, segs: seq<Segment>, s: string)
    requires |segs| > 0 && NonNegativeIndices(segs) && SetField(cat, n, m, segs, s).Success?
    requires HasType(cat, VStruct(m), TStruct(n))
    ensures HasType(cat, VStruct(SetField(cat, n, m, segs, s).value), TStruct(n))
    decreases |segs|, 1
  {
    var f := Capitalize(segs[0].field);
    var ft := FieldsOf(cat, n)[f];
    var cur := FieldValue(m, f, ft);
    ZeroHasType(cat, ft);
    assert HasType(cat, cur, ft);
    var x: Value;
    if segs[0].index.Some? {
      var xs := SetElement(cat, ft.elem, ElemsOf(cur), segs[0].index.value, segs[1..], s).value;
      SetElementTyped(cat, ft.elem, ElemsOf(cur), segs[0].index.value, segs[1..], s);
      x := VSlice(xs);
    } else if |segs| == 1 {
      x := SetFinal(cat, ft, cur, s).value;
    } else {
      if ft.TPtr? {
        ZeroHasType(cat, ft.elem);
      }
      var c := if ft.TPtr? && IsNil(cur) then VPtr(Some(Zero(ft.elem))) else cur;
      SetNestedTyped(cat, ft, c, segs[1..], s);
      x := SetNested(cat, ft, c, segs[1..], s).value;
    }
    assert SetField(cat, n, m, segs, s).value == m[f := x];
    StructUpdateTyped(cat, n, m, f, x);
  }

  lemma StructUpdateTyped(cat: Catalog, n: string, m: map<string, Value>, f: string, x: Value)
    requires HasType(cat, VStruct(m), TStruct(n))
    requires f in FieldsOf(cat, n) && HasType(cat, x, FieldsOf(cat, n)[f])
    ensures HasType(cat, VStruct(m[f := x]), TStruct(n))
  {
  }

  lemma {:induction false} SetElementTyped(cat: Catalog, et: Type, xs: seq<Value>, i: int, rest: seq<Segment>, s: string)
    requires i >= 0 && NonNegativeIndices(rest) && SetElement(cat, et, xs, i, rest, s).Success?
    requires forall k :: 0 <= k < |xs| ==> HasType(cat, xs[k], et)
    ensures var ys := SetElement(cat, et, xs, i, rest, s).value;
      forall k :: 0 <= k < |ys| ==> HasType(cat, ys[k], et)
    decreases |rest| + 1, 0
  {
    var grown := if |xs| <= i then xs + seq(i + 1 - |xs|, _ => Zero(et)) else xs;
    ZeroHasType(cat, et);
    assert HasType(cat, grown[i], et);
    var cur := if et.TPtr? && IsNil(grown[i]) then VPtr(Some(Zero(et.elem))) else grown[i];
    if et.TPtr? {
      ZeroHasType(cat, et.elem);
    }
    if |rest| > 0 {
      SetNestedTyped(cat, et, cur, rest, s);
    }
  }

  /** Setting one field leaves every read that starts at another field as it was. */
  lemma OtherFieldsUnchanged(cat: Catalog, n: string, m: map<string, Value>, segs: seq<Segment>, s: string,
                             other: seq<Segment>)
    requires |segs| > 0 && NonNegativeIndices(segs) && SetField(cat, n, m, segs, s).Success?
    requires |other| > 0 && Capitalize(other[0].field) != Capitalize(segs[0].field)
    ensures ReadField(cat, n, SetField(cat, n, m, segs, s).value, other) == ReadField(cat, n, m, other)
  {
    var g := Capitalize(other[0].field);
    var m' := SetField(cat, n, m, segs, s).value;
    SetFieldShape(cat, n, m, segs, s);
    if g in FieldsOf(cat, n) {
      assert FieldValue(m', g, FieldsOf(cat, n)[g]) == FieldValue(m, g, FieldsOf(cat, n)[g]);
    }
  }

  /** A read through element `j` of a slice field depends only on that element. */
  lemma ElementRead(cat: Catalog, n: string, m1: map<string, Value>, m2: map<string, Value>, segs: seq<Segment>)
    requires |segs| > 0 && segs[0].index.Some? && segs[0].index.value >= 0
    requires var f := Capitalize(segs[0].field); var j := segs[0].index.value;
      f in FieldsOf(cat, n) && f in m1 && f in m2 &&
      j < |ElemsOf(m1[f])| && j < |ElemsOf(m2[f])| && ElemsOf(m1[f])[j] == ElemsOf(m2[f])[j]
    ensures ReadField(cat, n, m1, segs) == ReadField(cat, n, m2, segs)
  {
  }

  /** Two paths through different elements of one slice field, set one after
      the other, both hold their values: growing the slice for the second
      keeps the first element. */
  lemma {:induction false} IndexedWritesKeepEachOther(cat: Catalog, n: string, m: map<string, Value>,
                                                      first: seq<Segment>, s1: string, second: seq<Segment>, s2: string)
    requires |first| > 0 && NonNegativeIndices(first) && |second| > 0 && NonNegativeIndices(second)
    requires first[0].field == second[0].field
    requires first[0].index.Some? && second[0].index.Some? && first[0].index != second[0].index
    requires SetField(cat, n, m, first, s1).Success?
    requires SetField(cat, n, SetField(cat, n, m, first, s1).value, second, s2).Success?
    ensures var m2 := SetField(cat, n, SetField(cat, n, m, first, s1).value, second, s2).value;
      ReadHolds(cat, ReadField(cat, n, m2, first), s1) && ReadHolds(cat, ReadField(cat, n, m2, second), s2)
  {
    var m1 := SetField(cat, n, m, first, s1).value;
    var m2 := SetField(cat, n, m1, second, s2).value;
    SetFieldThenRead(cat, n, m, first, s1);
    SetFieldThenRead(cat, n, m1, second, s2);
    SetFieldShape(cat, n, m, first, s1);
    SetFieldShape(cat, n, m1, second, s2);
    var f := Capitalize(first[0].field);
    var j := first[0].index.value;
    assert j < |ElemsOf(m1[f])|;
    assert ElemsOf(m2[f])[j] == ElemsOf(m1[f])[j];
    ElementRead(cat, n, m1, m2, first);
  }

  // ---------------------------------------------------------------------
  // Transform
  // ---------------------------------------------------------------------

  /** A parsed path carries only non-negative indices. */
  lemma ParsedIndicesNonNegative(path: string)
    requires ParsedPath(path).Success?
    ensures |ParsedPath(path).value| > 0 && NonNegativeIndices(ParsedPath(path).value)
  {
    ParsedPathSegments(path);
    var segs := ParsedPath(path).value;
    forall k | 0 <= k < |segs| && segs[k].index.Some?
      ensures segs[k].index.value >= 0
    {
      assert Describes(Split(path, '.')[k], segs[k]);
    }
  }

  /** `setFieldValue` on a resource of type `tn` whose struct holds `body`. */
  function SetPath(cat: Catalog, tn: string, body: map<string, Value>, path: string, s: string)
    : (r: Result<map<string, Value>, SetError>)
    ensures ParsedPath(path).Failure? ==> r == Failure(PathRejected(ParsedPath(path).error))
  {
    match ParsedPath(path)
    case Failure(e) => Failure(PathRejected(e))
    case Success(segs) =>
      ParsedIndicesNonNegative(path);
      var v :- SetNested(cat, TStruct(tn), VStruct(body), segs, s);
      Success(FieldsOfValue(v))
  }

  /** Get after set for a whole path. */
  lemma SetPathThenRead(cat: Catalog, tn: string, body: map<string, Value>, path: string, s: string)
    requires SetPath(cat, tn, body, path, s).Success?
    ensures ParsedPath(path).Success? &&
            ReadHolds(cat, ReadField(cat, tn, SetPath(cat, tn, body, path, s).value, ParsedPath(path).value), s)
  {
    ParsedIndicesNonNegative(path);
    SetNestedThenRead(cat, TStruct(tn), VStruct(body), ParsedPath(path).value, s);
  }

  lemma SetPathTyped(cat: Catalog, tn: string, body: map<string, Value>, path: string, s: string)
    requires SetPath(cat, tn, body, path, s).Success? && HasType(cat, VStruct(body), TStruct(tn))
    ensures HasType(cat, VStruct(SetPath(cat, tn, body, path, s).value), TStruct(tn))
  {
    ParsedIndicesNonNegative(path);
    SetNestedTyped(cat, TStruct(tn), VStruct(body), ParsedPath(path).value, s);
  }

  /** A built resource: its FHIR type name and the fields of its struct. */
  datatype Resource = Resource(typeName: string, fields: map<string, Value>)

  /** Why a row could not be turned into a resource. */
  datatype RowCause =
    | CreateFailed(resource: string)                          // "failed to create resource"
    | DefaultSubstitution(path: string, missing: seq<string>) // "failed to substitute variables in default"
    | DefaultSet(path: string, err: SetError)                 // "failed to set default"
    | MappingSubstitution(path: string, missing: seq<string>) // "failed to substitute variables in mapping"
    | MappingSet(path: string, err: SetError)                 // "failed to set mapping"
    | IdFailed(err: SetError)                                 // "failed to set resource ID"

  /** Every transformation error names the row (`row %d: ...`). */
  datatype RowError = RowError(row: int, cause: RowCause)

  /** The two loops of `Transform`. */
  datatype Phase = Defaults | Mappings

  /** One iteration of either loop for the entry `path: template`. A default
      whose substitution fails is still applied unless the template contains
      `${`; an empty mapping result is skipped. */
  function Step(cat: Catalog, tn: string, phase: Phase, body: map<string, Value>, path: string, template: string,
                row: map<string, string>): Result<map<string, Value>, RowCause>
  {
    var e := Expand(template, row);
    if phase == Defaults then
      if |e.missing| > 0 && ContainsPair(template, '$', '{') then Failure(DefaultSubstitution(path, e.missing))
      else match SetPath(cat, tn, body, path, e.text)
        case Failure(err) => Failure(DefaultSet(path, err))
        case Success(b) => Success(b)
    else if |e.missing| > 0 then Failure(MappingSubstitution(path, e.missing))
    else if e.text == "" then Success(body)
    else match SetPath(cat, tn, body, path, e.text)
      case Failure(err) => Failure(MappingSet(path, err))
      case Success(b) => Success(b)
  }

  /** One loop run over the entries in the order given; the first failure ends it. */
  function Apply(cat: Catalog, tn: string, phase: Phase, body: map<string, Value>, entries: seq<(string, string)>,
                 row: map<string, string>): Result<map<string, Value>, RowCause>
    decreases |entries|
  {
    if |entries| == 0 then Success(body)
    else
      var b :- Apply(cat, tn, phase, body, entries[..|entries| - 1], row);
      Step(cat, tn, phase, b, entries[|entries| - 1].0, entries[|entries| - 1].1, row)
  }

  /** The paths of the entries, in order. */
  function Paths(entries: seq<(string, string)>): (r: seq<string>)
    ensures |r| == |entries| && forall i :: 0 <= i < |entries| ==> r[i] == entries[i].0
  {
    seq(|entries|, i requires 0 <= i < |entries| => entries[i].0)
  }

  /** `entries` lists the map `m`: every key exactly once, with its value.
      Go ranges over a map in no fixed order; the model names one such order. */
  predicate Lists(entries: seq<(string, string)>, m: map<string, string>) {
    (forall i :: 0 <= i < |entries| ==> entries[i].0 in m && m[entries[i].0] == entries[i].1) &&
    (forall i, j :: 0 <= i < j < |entries| ==> entries[i].0 != entries[j].0) &&
    (forall p :: p in m ==> p in Paths(entries))
  }

  /** `setResourceID`: the `Id` field is set to the id, through a pointer
      when it is one. */
  function SetId(cat: Catalog, tn: string, body: map<string, Value>, id: string): (r: Result<map<string, Value>, SetError>)
    ensures r.Failure? <==> "Id" !in FieldsOf(cat, tn) || FieldsOf(cat, tn)["Id"] !in {TString, TPtr(TString)}
    ensures "Id" !in FieldsOf(cat, tn) ==> r == Failure(NoIdField)
    ensures r.Success? ==> r.value.Keys == body.Keys + {"Id"} && forall g :: g in body && g != "Id" ==> r.value[g] == body[g]
  {
    var decl := FieldsOf(cat, tn);
    if "Id" !in decl then Failure(NoIdField)
    else if decl["Id"] == TPtr(TString) then Success(body["Id" := VPtr(Some(VString(id)))])
    else if decl["Id"] == TString then Success(body["Id" := VString(id)])
    else Failure(IdNotString(Kind(decl["Id"])))
  }

  /** The id step: only a configured id column with a non-empty cell sets the id. */
  function IdStep(cat: Catalog, tn: string, body: map<string, Value>, idColumn: string, row: map<string, string>)
    : Result<map<string, Value>, RowCause>
  {
    if idColumn != "" && idColumn in row && row[idColumn] != "" then
      match SetId(cat, tn, body, row[idColumn])
      case Failure(e) => Failure(IdFailed(e))
      case Success(b) => Success(b)
    else Success(body)
  }

  /** The resource of type `tn` that a row gives: the defaults, then the
      mappings, then the id. */
  function Populate(cat: Catalog, tn: string, spec: MappingSpec, row: map<string, string>,
                    defaults: seq<(string, string)>, mappings: seq<(string, string)>)
    : Result<map<string, Value>, RowCause>
  {
    var b1 :- Apply(cat, tn, Defaults, map[], defaults, row);
    var b2 :- Apply(cat, tn, Mappings, b1, mappings, row);
    IdStep(cat, tn, b2, spec.idColumn, row)
  }

  /** `Transform` for one order of the defaults and one of the mappings:
      the configured resource type is resolved and its resource populated. */
  function Build(cat: Catalog, spec: MappingSpec, row: map<string, string>, n: int,
                 defaults: seq<(string, string)>, mappings: seq<(string, string)>): (r: Result<Resource, RowError>)
    ensures r.Failure? ==> r.error.row == n
    ensures r.Success? ==> GetResourceType(spec.resource) == Some(r.value.typeName)
  {
    match GetResourceType(spec.resource)
    case None => Failure(RowError(n, CreateFailed(spec.resource)))
    case Some(tn) =>
      match Populate(cat, tn, spec, row, defaults, mappings)
      case Failure(c) => Failure(RowError(n, c))
      case Success(fields) => Success(Resource(tn, fields))
  }

  /** Once a loop has failed, later entries change nothing. */
  lemma {:induction false} ApplyFailureSticks(cat: Catalog, tn: string, phase: Phase, body: map<string, Value>,
                                              pre: seq<(string, string)>, post: seq<(string, string)>,
                                              row: map<string, string>)
    requires Apply(cat, tn, phase, body, pre, row).Failure?
    ensures Apply(cat, tn, phase, body, pre + post, row) == Apply(cat, tn, phase, body, pre, row)
    decreases |post|
  {
    if |post| > 0 {
      AppendDropLast(pre, post);
      ApplyFailureSticks(cat, tn, phase, body, pre, post[..|post| - 1], row);
    } else {
      AppendEmpty(pre, post);
    }
  }

  /** An entry that fails whatever fields it meets makes the whole loop fail,
      in whatever position the map order puts it. */
  lemma ApplyFailsAt(cat: Catalog, tn: string, phase: Phase, body: map<string, Value>,
                     entries: seq<(string, string)>, k: nat, row: map<string, string>)
    requires k < |entries|
    requires forall b :: Step(cat, tn, phase, b, entries[k].0, entries[k].1, row).Failure?
    ensures Apply(cat, tn, phase, body, entries, row).Failure?
  {
    var pre := entries[..k + 1];
    assert pre[..k] == entries[..k];
    assert Apply(cat, tn, phase, body, pre, row).Failure?;
    assert pre + entries[k + 1..] == entries;
    ApplyFailureSticks(cat, tn, phase, body, pre, entries[k + 1..], row);
  }

  /** Each loop keeps the resource well-typed. */
  lemma {:induction false} ApplyTyped(cat: Catalog, tn: string, phase: Phase, body: map<string, Value>,
                                      entries: seq<(string, string)>, row: map<string, string>)
    requires HasType(cat, VStruct(body), TStruct(tn)) && Apply(cat, tn, phase, body, entries, row).Success?
    ensures HasType(cat, VStruct(Apply(cat, tn, phase, body, entries, row).value), TStruct(tn))
    decreases |entries|
  {
    if |entries| > 0 {
      var pre := entries[..|entries| - 1];
      ApplyTyped(cat, tn, phase, body, pre, row);
      var b := Apply(cat, tn, phase, body, pre, row).value;
      var e := entries[|entries| - 1];
      var text := Expand(e.1, row).text;
      if SetPath(cat, tn, b, e.0, text).Success? {
        SetPathTyped(cat, tn, b, e.0, text);
      }
    }
  }

  /** The loop after one more entry. */
  lemma ApplyLast(cat: Catalog, tn: string, phase: Phase, body: map<string, Value>,
                  pre: seq<(string, string)>, e: (string, string), row: map<string, string>)
    ensures Apply(cat, tn, phase, body, pre + [e], row) ==
            if Apply(cat, tn, phase, body, pre, row).Failure? then Apply(cat, tn, phase, body, pre, row)
            else Step(cat, tn, phase, Apply(cat, tn, phase, body, pre, row).value, e.0, e.1, row)
  {
    AppendDropLast(pre, [e]);
    AppendEmpty(pre, [e][..0]);
  }

  /** A mapping whose template expands to the empty text is skipped wherever
      it stands. */
  lemma {:induction false} EmptyMappingSkipped(cat: Catalog, tn: string, body: map<string, Value>,
                                               pre: seq<(string, string)>, e: (string, string),
                                               post: seq<(string, string)>, row: map<string, string>)
    requires Expand(e.1, row) == Expansion("", [])
    ensures Apply(cat, tn, Mappings, body, pre + [e] + post, row) == Apply(cat, tn, Mappings, body, pre + post, row)
    decreases |post|
  {
    if |post| == 0 {
      AppendEmpty(pre + [e], post);
      AppendEmpty(pre, post);
      ApplyLast(cat, tn, Mappings, body, pre, e, row);
    } else {
      var q := post[..|post| - 1];
      var l := post[|post| - 1];
      SplitLast(pre + [e], post);
      SplitLast(pre, post);
      EmptyMappingSkipped(cat, tn, body, pre, e, q, row);
      ApplyLast(cat, tn, Mappings, body, pre + [e] + q, l, row);
      ApplyLast(cat, tn, Mappings, body, pre + q, l, row);
    }
  }

  lemma SplitLast<T>(a: seq<T>, b: seq<T>)
    requires |b| > 0
    ensures a + b == (a + b[..|b| - 1]) + [b[|b| - 1]]
  {
  }

  /** `path` parses and its first segment names the Go field `f`. */
  predicate Touches(path: string, f: string) {
    ParsedPath(path).Success? && |ParsedPath(path).value| > 0 && Capitalize(ParsedPath(path).value[0].field) == f
  }

  /** The Go field a well-formed path starts at. */
  function FirstField(path: string): string
    requires ParsedPath(path).Success?
  {
    ParsedIndicesNonNegative(path);
    Capitalize(ParsedPath(path).value[0].field)
  }

  /** Setting a path leaves reads from other top-level fields as they were. */
  lemma SetPathFrame(cat: Catalog, tn: string, body: map<string, Value>, path: string, s: string, other: seq<Segment>)
    requires SetPath(cat, tn, body, path, s).Success?
    requires |other| > 0 && !Touches(path, Capitalize(other[0].field))
    ensures ReadField(cat, tn, SetPath(cat, tn, body, path, s).value, other) == ReadField(cat, tn, body, other)
  {
    ParsedIndicesNonNegative(path);
    OtherFieldsUnchanged(cat, tn, body, ParsedPath(path).value, s, other);
  }

  /** The entry `path: template` writes in this phase, rather than being skipped. */
  predicate Writes(phase: Phase, template: string, row: map<string, string>) {
    phase == Defaults || Expand(template, row).text != ""
  }

  /** The last entry to touch a field decides it: a path written by entry
      `k`, with no later entry starting at the same field, reads back the
      text entry `k` put there. */
  lemma {:induction false} LastWriteWins(cat: Catalog, tn: string, phase: Phase, body: map<string, Value>,
                                         entries: seq<(string, string)>, k: nat, row: map<string, string>)
    requires k < |entries| && Apply(cat, tn, phase, body, entries, row).Success?
    requires Writes(phase, entries[k].1, row)
    requires ParsedPath(entries[k].0).Success?
    requires forall j :: k < j < |entries| ==> !Touches(entries[j].0, FirstField(entries[k].0))
    ensures ReadHolds(cat, ReadField(cat, tn, Apply(cat, tn, phase, body, entries, row).value,
                                     ParsedPath(entries[k].0).value), Expand(entries[k].1, row).text)
    decreases |entries|
  {
    var pre := entries[..|entries| - 1];
    var e := entries[|entries| - 1];
    SplitLast(pre, [e]);
    if |entries| == k + 1 {
      WriteAtEnd(cat, tn, phase, body, pre, e, row);
    } else {
      assert pre[k] == entries[k];
      ApplyLast(cat, tn, phase, body, pre, e, row);
      LastWriteWins(cat, tn, phase, body, pre, k, row);
      var p := ParsedPath(entries[k].0).value;
      ParsedIndicesNonNegative(entries[k].0);
      assert !Touches(e.0, Capitalize(p[0].field));
      StepFrame(cat, tn, phase, Apply(cat, tn, phase, body, pre, row).value, e.0, e.1, row, p);
    }
  }

  lemma WriteAtEnd(cat: Catalog, tn: string, phase: Phase, body: map<string, Value>,
                   pre: seq<(string, string)>, e: (string, string), row: map<string, string>)
    requires Apply(cat, tn, phase, body, pre + [e], row).Success? && Writes(phase, e.1, row)
    ensures ParsedPath(e.0).Success? &&
            ReadHolds(cat, ReadField(cat, tn, Apply(cat, tn, phase, body, pre + [e], row).value, ParsedPath(e.0).value),
                      Expand(e.1, row).text)
  {
    ApplyLast(cat, tn, phase, body, pre, e, row);
    StepThenRead(cat, tn, phase, Apply(cat, tn, phase, body, pre, row).value, e.0, e.1, row);
  }

  lemma StepThenRead(cat: Catalog, tn: string, phase: Phase, body: map<string, Value>, path: string, template: string,
                     row: map<string, string>)
    requires Step(cat, tn, phase, body, path, template, row).Success? && Writes(phase, template, row)
    ensures ParsedPath(path).Success? &&
            ReadHolds(cat, ReadField(cat, tn, Step(cat, tn, phase, body, path, template, row).value, ParsedPath(path).value),
                      Expand(template, row).text)
  {
    SetPathThenRead(cat, tn, body, path, Expand(template, row).text);
  }

  lemma StepFrame(cat: Catalog, tn: string, phase: Phase, body: map<string, Value>, path: string, template: string,
                  row: map<string, string>, other: seq<Segment>)
    requires Step(cat, tn, phase, body, path, template, row).Success?
    requires |other| > 0 && !Touches(path, Capitalize(other[0].field))
    ensures ReadField(cat, tn, Step(cat, tn, phase, body, path, template, row).value, other) == ReadField(cat, tn, body, other)
  {
    if Writes(phase, template, row) {
      SetPathFrame(cat, tn, body, path, Expand(template, row).text, other);
    }
  }

  /** The id is read back through the path `id`, which names the `Id` field. */
  lemma SetIdThenRead(cat: Catalog, tn: string, body: map<string, Value>, id: string)
    requires SetId(cat, tn, body, id).Success?
    ensures ReadHolds(cat, ReadField(cat, tn, SetId(cat, tn, body, id).value, [Segment("id", None)]), id)
  {
    assert Capitalize("id") == "Id";
  }

  /** Setting the id leaves reads from every other field as they were. */
  lemma SetIdFrame(cat: Catalog, tn: string, body: map<string, Value>, id: string, other: seq<Segment>)
    requires SetId(cat, tn, body, id).Success?
    requires |other| > 0 && Capitalize(other[0].field) != "Id"
    ensures ReadField(cat, tn, SetId(cat, tn, body, id).value, other) == ReadField(cat, tn, body, other)
  {
    var g := Capitalize(other[0].field);
    if g in FieldsOf(cat, tn) {
      assert FieldValue(SetId(cat, tn, body, id).value, g, FieldsOf(cat, tn)[g]) == FieldValue(body, g, FieldsOf(cat, tn)[g]);
    }
  }

  lemma SetIdTyped(cat: Catalog, tn: string, body: map<string, Value>, id: string)
    requires SetId(cat, tn, body, id).Success? && HasType(cat, VStruct(body), TStruct(tn))
    ensures HasType(cat, VStruct(SetId(cat, tn, body, id).value), TStruct(tn))
  {
    var x := if FieldsOf(cat, tn)["Id"] == TString then VString(id) else VPtr(Some(VString(id)));
    StructUpdateTyped(cat, tn, body, "Id", x);
  }

  lemma PopulateTyped(cat: Catalog, tn: string, spec: MappingSpec, row: map<string, string>,
                      defaults: seq<(string, string)>, mappings: seq<(string, string)>)
    requires Populate(cat, tn, spec, row, defaults, mappings).Success?
    ensures HasType(cat, VStruct(Populate(cat, tn, spec, row, defaults, mappings).value), TStruct(tn))
  {
    ApplyTyped(cat, tn, Defaults, map[], defaults, row);
    var b1 := Apply(cat, tn, Defaults, map[], defaults, row).value;
    ApplyTyped(cat, tn, Mappings, b1, mappings, row);
    var b2 := Apply(cat, tn, Mappings, b1, mappings, row).value;
    if spec.idColumn != "" && spec.idColumn in row && row[spec.idColumn] != "" {
      SetIdTyped(cat, tn, b2, row[spec.idColumn]);
    }
  }

  /** A built resource is a well-typed value of its resource type. */
  lemma BuildTyped(cat: Catalog, spec: MappingSpec, row: map<string, string>, n: int,
                   defaults: seq<(string, string)>, mappings: seq<(string, string)>)
    requires Build(cat, spec, row, n, defaults, mappings).Success?
    ensures var r := Build(cat, spec, row, n, defaults, mappings).value;
      HasType(cat, VStruct(r.fields), TStruct(r.typeName))
  {
    PopulateTyped(cat, GetResourceType(spec.resource).value, spec, row, defaults, mappings);
  }

  /** The position of a listed key. */
  lemma ListedAt(entries: seq<(string, string)>, m: map<string, string>, p: string) returns (k: nat)
    requires Lists(entries, m) && p in m
    ensures k < |entries| && entries[k] == (p, m[p])
  {
    var paths := Paths(entries);
    assert p in paths;
    k :| 0 <= k < |paths| && paths[k] == p;
  }

  /** A mapping that fails on every resource rejects the row, whatever the
      order of the maps. */
  lemma FailingMappingRejects(cat: Catalog, tn: string, spec: MappingSpec, row: map<string, string>,
                              defaults: seq<(string, string)>, mappings: seq<(string, string)>, p: string)
    requires Lists(mappings, spec.mappings) && p in spec.mappings
    requires forall b :: Step(cat, tn, Mappings, b, p, spec.mappings[p], row).Failure?
    ensures Populate(cat, tn, spec, row, defaults, mappings).Failure?
  {
    var k := ListedAt(mappings, spec.mappings, p);
    var d := Apply(cat, tn, Defaults, map[], defaults, row);
    if d.Success? {
      ApplyFailsAt(cat, tn, Mappings, d.value, mappings, k, row);
    }
  }

  /** A mapping naming a column the row lacks rejects the row. */
  lemma MissingColumnRejectsRow(cat: Catalog, spec: MappingSpec, row: map<string, string>, n: int,
                                defaults: seq<(string, string)>, mappings: seq<(string, string)>, p: string)
    requires Lists(mappings, spec.mappings) && p in spec.mappings
    requires |Expand(spec.mappings[p], row).missing| > 0
    ensures Build(cat, spec, row, n, defaults, mappings).Failure?
  {
    if GetResourceType(spec.resource).Some? {
      FailingMappingRejects(cat, GetResourceType(spec.resource).value, spec, row, defaults, mappings, p);
    }
  }

  /** A malformed mapping path rejects the row once its template gives text. */
  lemma MalformedPathRejectsRow(cat: Catalog, spec: MappingSpec, row: map<string, string>, n: int,
                                defaults: seq<(string, string)>, mappings: seq<(string, string)>, p: string)
    requires Lists(mappings, spec.mappings) && p in spec.mappings
    requires ParsedPath(p).Failure? && Expand(spec.mappings[p], row).text != ""
    ensures Build(cat, spec, row, n, defaults, mappings).Failure?
  {
    if GetResourceType(spec.resource).Some? {
      FailingMappingRejects(cat, GetResourceType(spec.resource).value, spec, row, defaults, mappings, p);
    }
  }

  /** A path whose first field the resource type does not declare fails on every resource. */
  lemma UnknownFieldFails(cat: Catalog, tn: string, body: map<string, Value>, p: string, text: string)
    requires ParsedPath(p).Success? && FirstField(p) !in FieldsOf(cat, tn)
    ensures SetPath(cat, tn, body, p, text).Failure?
  {
    ParsedIndicesNonNegative(p);
    assert SetField(cat, tn, body, ParsedPath(p).value, text).Failure?;
  }

  lemma UnknownFieldRejects(cat: Catalog, tn: string, spec: MappingSpec, row: map<string, string>,
                            defaults: seq<(string, string)>, mappings: seq<(string, string)>, p: string)
    requires Lists(mappings, spec.mappings) && p in spec.mappings
    requires ParsedPath(p).Success? && FirstField(p) !in FieldsOf(cat, tn)
    requires Expand(spec.mappings[p], row).text != ""
    ensures Populate(cat, tn, spec, row, defaults, mappings).Failure?
  {
    forall b | true
      ensures Step(cat, tn, Mappings, b, p, spec.mappings[p], row).Failure?
    {
      UnknownFieldFails(cat, tn, b, p, Expand(spec.mappings[p], row).text);
    }
    FailingMappingRejects(cat, tn, spec, row, defaults, mappings, p);
  }

  /** A mapping path whose first field the resource type does not declare
      rejects the row once its template gives text. */
  lemma UnknownFieldRejectsRow(cat: Catalog, spec: MappingSpec, row: map<string, string>, n: int,
                               defaults: seq<(string, string)>, mappings: seq<(string, string)>, p: string)
    requires Lists(mappings, spec.mappings) && p in spec.mappings
    requires GetResourceType(spec.resource).Some?
    requires ParsedPath(p).Success? && FirstField(p) !in FieldsOf(cat, GetResourceType(spec.resource).value)
    requires Expand(spec.mappings[p], row).text != ""
    ensures Build(cat, spec, row, n, defaults, mappings).Failure?
  {
    UnknownFieldRejects(cat, GetResourceType(spec.resource).value, spec, row, defaults, mappings, p);
  }

  /** Mappings override defaults, at the level of one resource type. */
  lemma MappingWins(cat: Catalog, tn: string, spec: MappingSpec, row: map<string, string>,
                    defaults: seq<(string, string)>, mappings: seq<(string, string)>, p: string)
    requires Lists(mappings, spec.mappings) && p in spec.mappings
    requires Populate(cat, tn, spec, row, defaults, mappings).Success?
    requires ParsedPath(p).Success? && Expand(spec.mappings[p], row).text != ""
    requires forall q :: q in spec.mappings && q != p ==> !Touches(q, FirstField(p))
    requires FirstField(p) != "Id"
    ensures ReadHolds(cat, Read(cat, TStruct(tn), VStruct(Populate(cat, tn, spec, row, defaults, mappings).value),
                                ParsedPath(p).value), Expand(spec.mappings[p], row).text)
  {
    var b1 := Apply(cat, tn, Defaults, map[], defaults, row).value;
    var k := ListedAt(mappings, spec.mappings, p);
    LastWriteWins(cat, tn, Mappings, b1, mappings, k, row);
    var b2 := Apply(cat, tn, Mappings, b1, mappings, row).value;
    ParsedIndicesNonNegative(p);
    if spec.idColumn != "" && spec.idColumn in row && row[spec.idColumn] != "" {
      SetIdFrame(cat, tn, b2, row[spec.idColumn], ParsedPath(p).value);
    }
  }

  /** Mappings override defaults: a mapping that writes a path, when no
      other mapping starts at the same field and the field is not `Id`,
      decides what the built resource reads there. */
  lemma MappingOverridesDefaults(cat: Catalog, spec: MappingSpec, row: map<string, string>, n: int,
                                 defaults: seq<(string, string)>, mappings: seq<(string, string)>, p: string)
    requires Lists(mappings, spec.mappings) && p in spec.mappings
    requires Build(cat, spec, row, n, defaults, mappings).Success?
    requires ParsedPath(p).Success? && Expand(spec.mappings[p], row).text != ""
    requires forall q :: q in spec.mappings && q != p ==> !Touches(q, FirstField(p))
    requires FirstField(p) != "Id"
    ensures var r := Build(cat, spec, row, n, defaults, mappings);
      r.Success? && ReadHolds(cat, Read(cat, TStruct(r.value.typeName), VStruct(r.value.fields), ParsedPath(p).value),
                              Expand(spec.mappings[p], row).text)
  {
    MappingWins(cat, GetResourceType(spec.resource).value, spec, row, defaults, mappings, p);
  }

  /** The id is set exactly when the id column is configured and the row's
      cell for it is non-empty. */
  lemma IdFromColumn(cat: Catalog, spec: MappingSpec, row: map<string, string>, n: int,
                     defaults: seq<(string, string)>, mappings: seq<(string, string)>)
    requires Build(cat, spec, row, n, defaults, mappings).Success?
    ensures var r := Build(cat, spec, row, n, defaults, mappings).value;
      spec.idColumn != "" && spec.idColumn in row && row[spec.idColumn] != "" ==>
        ReadHolds(cat, ReadField(cat, r.typeName, r.fields, [Segment("id", None)]), row[spec.idColumn])
    ensures var r := Build(cat, spec, row, n, defaults, mappings).value;
      !(spec.idColumn != "" && spec.idColumn in row && row[spec.idColumn] != "") ==>
        Success(r.fields) == Apply(cat, r.typeName, Mappings, Apply(cat, r.typeName, Defaults, map[], defaults, row).value,
                                   mappings, row)
  {
    var tn := GetResourceType(spec.resource).value;
    var b1 := Apply(cat, tn, Defaults, map[], defaults, row).value;
    var b2 := Apply(cat, tn, Mappings, b1, mappings, row).value;
    if spec.idColumn != "" && spec.idColumn in row && row[spec.idColumn] != "" {
      SetIdThenRead(cat, tn, b2, row[spec.idColumn]);
    }
  }

  // ---------------------------------------------------------------------
  // The Transform method
  // ---------------------------------------------------------------------

  lemma PathsAppend(a: seq<(string, string)>, b: seq<(string, string)>)
    ensures Paths(a + b) == Paths(a) + Paths(b)
  {
  }

  /** Some listing of the entries of `m` whose keys are in `keys`. */
  ghost function Listing(m: map<string, string>, keys: set<string>): (r: seq<(string, string)>)
    requires keys <= m.Keys
    ensures forall i :: 0 <= i < |r| ==> r[i].0 in keys && m[r[i].0] == r[i].1
    ensures forall i, j :: 0 <= i < j < |r| ==> r[i].0 != r[j].0
    ensures forall p :: p in keys ==> p in Paths(r)
    decreases keys
  {
    if keys == {} then []
    else
      var p :| p in keys;
      var rest := Listing(m, keys - {p});
      PathsAppend([(p, m[p])], rest);
      assert Paths([(p, m[p])]) == [p];
      [(p, m[p])] + rest
  }

  /** One iteration of either loop: `SubstituteVariables`, then
      `setFieldValue` unless the phase's rules stop or skip the entry. */
  method RunStep(cat: Catalog, tn: string, phase: Phase, b: map<string, Value>, p: string, template: string,
                 row: map<string, string>) returns (step: Result<map<string, Value>, RowCause>)
    ensures step == Step(cat, tn, phase, b, p, template, row)
  {
    var text, missing := SubstituteVariables(template, row);
    if phase == Defaults {
      if |missing| > 0 && ContainsPair(template, '$', '{') {
        step := Failure(DefaultSubstitution(p, missing));
      } else {
        var written := SetPath(cat, tn, b, p, text);
        step := if written.Failure? then Failure(DefaultSet(p, written.error)) else Success(written.value);
      }
    } else if |missing| > 0 {
      step := Failure(MappingSubstitution(p, missing));
    } else if text == "" {
      step := Success(b);
    } else {
      var written := SetPath(cat, tn, b, p, text);
      step := if written.Failure? then Failure(MappingSet(p, written.error)) else Success(written.value);
    }
  }

  /** One of `Transform`'s two loops: the entries of `m` are taken in some
      order, each substituted and applied; the first failure ends the loop. */
  method RunLoop(cat: Catalog, tn: string, phase: Phase, body: map<string, Value>, m: map<string, string>,
                 row: map<string, string>)
    returns (r: Result<map<string, Value>, RowCause>, ghost entries: seq<(string, string)>)
    ensures Lists(entries, m)
    ensures r == Apply(cat, tn, phase, body, entries, row)
  {
    var b := body;
    var todo := m.Keys;
    entries := [];
    while todo != {}
      invariant Visited(entries, m, todo)
      invariant Apply(cat, tn, phase, body, entries, row) == Success(b)
      decreases todo
    {
      var p :| p in todo;
      var step := RunStep(cat, tn, phase, b, p, m[p], row);
      ApplyLast(cat, tn, phase, body, entries, (p, m[p]), row);
      VisitStep(entries, m, todo, p);
      entries := entries + [(p, m[p])];
      todo := todo - {p};
      if step.Failure? {
        ghost var rest := Listing(m, todo);
        ApplyFailureSticks(cat, tn, phase, body, entries, rest, row);
        ListsJoin(entries, m, todo);
        entries := entries + rest;
        return step, entries;
      }
      b := step.value;
    }
    ListsJoin(entries, m, todo);
    AppendEmpty(entries, Listing(m, todo));
    r := Success(b);
  }

  /** The loop's bookkeeping: `done` lists the visited part of `m`, each
      key once, and every key is visited or still to do. */
  predicate Visited(done: seq<(string, string)>, m: map<string, string>, todo: set<string>) {
    todo <= m.Keys &&
    (forall i :: 0 <= i < |done| ==> done[i].0 in m && m[done[i].0] == done[i].1 && done[i].0 !in todo) &&
    (forall i, j :: 0 <= i < j < |done| ==> done[i].0 != done[j].0) &&
    (forall p :: p in m ==> p in todo || p in Paths(done))
  }

  lemma VisitStep(done: seq<(string, string)>, m: map<string, string>, todo: set<string>, p: string)
    requires Visited(done, m, todo) && p in todo
    ensures Visited(done + [(p, m[p])], m, todo - {p})
  {
    PathsAppend(done, [(p, m[p])]);
    assert Paths([(p, m[p])]) == [p];
  }

  /** What the loop has visited, followed by some listing of what it has
      not, lists the whole map. */
  lemma ListsJoin(done: seq<(string, string)>, m: map<string, string>, todo: set<string>)
    requires Visited(done, m, todo)
    ensures Lists(done + Listing(m, todo), m)
  {
    var rest := Listing(m, todo);
    PathsAppend(done, rest);
    var all := done + rest;
    forall i, j | 0 <= i < j < |all|
      ensures all[i].0 != all[j].0
    {
      if j >= |done| && i < |done| {
        assert all[j].0 == rest[j - |done|].0;
      }
    }
  }

  /** `Transform`: the row becomes a resource, or an error naming the row.
      The result is the one `Build` gives for the order in which the maps
      were ranged over. */
  method Transform(cat: Catalog, spec: MappingSpec, row: map<string, string>, rowNumber: int)
    returns (r: Result<Resource, RowError>, ghost defaults: seq<(string, string)>, ghost mappings: seq<(string, string)>)
    ensures Lists(defaults, spec.defaults) && Lists(mappings, spec.mappings)
    ensures r == Build(cat, spec, row, rowNumber, defaults, mappings)
    ensures r.Failure? ==> r.error.row == rowNumber
    ensures r.Success? ==> GetResourceType(spec.resource) == Some(r.value.typeName)
  {
    defaults := Listing(spec.defaults, spec.defaults.Keys);
    mappings := Listing(spec.mappings, spec.mappings.Keys);
    var rt := GetResourceType(spec.resource);
    if rt.None? {
      return Failure(RowError(rowNumber, CreateFailed(spec.resource))), defaults, mappings;
    }
    var tn := rt.value;
    var d;
    d, defaults := RunLoop(cat, tn, Defaults, map[], spec.defaults, row);
    if d.Failure? {
      return Failure(RowError(rowNumber, d.error)), defaults, mappings;
    }
    var m;
    m, mappings := RunLoop(cat, tn, Mappings, d.value, spec.mappings, row);
    if m.Failure? {
      return Failure(RowError(rowNumber, m.error)), defaults, mappings;
    }
    var fields := m.value;
    if spec.idColumn != "" {
      if spec.idColumn in row && row[spec.idColumn] != "" {
        var written := SetId(cat, tn, fields, row[spec.idColumn]);
        if written.Failure? {
          return Failure(RowError(rowNumber, IdFailed(written.error))), defaults, mappings;
        }
        fields := written.value;
      }
    }
    return Success(Resource(tn, fields)), defaults, mappings;
  }

  lemma AppendDropLast<T>(a: seq<T>, b: seq<T>)
    requires |b| > 0
    ensures (a + b)[..|a + b| - 1] == a + b[..|b| - 1] && (a + b)[|a + b| - 1] == b[|b| - 1]
  {
  }

  lemma AppendEmpty<T>(a: seq<T>, b: seq<T>)
    requires |b| == 0
    ensures a + b == a
  {
  }
}
