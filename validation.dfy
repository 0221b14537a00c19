/** The shared part of the resource validators: the issue record, field
    lookup and emptiness on a built resource, the per-field issue collection
    every table-driven validator performs, and the report formatting. */
module Validation {
  import opened Wrappers
  import opened Text
  import opened Mapping
  import opened Graph
  import opened Transform

  /** One validation issue: the resource path it concerns, a description
      and its severity, `"error"` or `"warning"`. */
  datatype ValidationError = ValidationError(field: string, message: string, severity: string)

  function CreateError(field: string, message: string): (e: ValidationError)
    ensures e.field == field && e.message == message && e.severity == "error"
  {
    ValidationError(field, message, "error")
  }

  function CreateWarning(field: string, message: string): (e: ValidationError)
    ensures e.field == field && e.message == message && e.severity == "warning"
  {
    ValidationError(field, message, "warning")
  }

  /** The field a validator names, looked up on the resource with its first
      letter upper-cased: its declared type and current value, or `None`
      when the resource type declares no such field. */
  function GetFieldValue(cat: Catalog, res: Resource, name: string): (r: Option<(Type, Value)>)
    ensures r.None? <==> |name| == 0 || Capitalize(name) !in FieldsOf(cat, res.typeName)
    ensures r.Some? ==> r.value.0 == FieldsOf(cat, res.typeName)[Capitalize(name)]
  {
    var f := Capitalize(name);
    var decl := FieldsOf(cat, res.typeName);
    if |name| > 0 && f in decl then Some((decl[f], FieldValue(res.fields, f, decl[f]))) else None
  }

  /** The lookup validators use is the read the mapping engine's setter is
      checked against, for a one-segment path without an index: a value the
      engine wrote is the value the validators see. */
  lemma GetFieldValueIsRead(cat: Catalog, res: Resource, name: string)
    ensures GetFieldValue(cat, res, name) == ReadField(cat, res.typeName, res.fields, [Segment(name, None)])
  {
  }

  /** `reflect.Value.IsZero`: every scalar at its zero, every pointer nil,
      every slice without elements. */
  predicate IsZero(v: Value)
    decreases v
  {
    match v
    case VString(s) => s == ""
    case VInt(i) => i == 0
    case VBool(b) => !b
    case VPtr(p) => p.None?
    case VSlice(xs) => |xs| == 0
    case VStruct(m) => forall f :: f in m ==> IsZero(m[f])
    case VOther => true
  }

  /** The emptiness test the validators apply to a field's value, case by
      kind: a nil pointer, an empty string or slice, a struct all of whose
      fields are zero, and any other zero value. */
  predicate IsFieldEmpty(v: Value) {
    match v
    case VPtr(p) => p.None?
    case VString(s) => s == ""
    case VSlice(xs) => |xs| == 0
    case VStruct(m) => forall f :: f in m ==> IsZero(m[f])
    case _ => IsZero(v)
  }

  /** Emptiness is the zero test, and the zero value of every type is empty;
      a non-nil pointer, a non-empty string or slice, a non-zero number or
      `true` is not. */
  lemma EmptyIsZero(v: Value, t: Type)
    ensures IsFieldEmpty(v) <==> IsZero(v)
    ensures IsFieldEmpty(Zero(t))
    ensures v.VPtr? && v.target.Some? ==> !IsFieldEmpty(v)
    ensures v.VString? && v.s != "" ==> !IsFieldEmpty(v)
    ensures v.VSlice? && |v.elems| > 0 ==> !IsFieldEmpty(v)
    ensures v.VInt? && v.i != 0 ==> !IsFieldEmpty(v)
    ensures v.VBool? && v.b ==> !IsFieldEmpty(v)
  {
  }

  /** The issues a table-driven validator reports for `fields`: the finding
      of each field in turn, fields without a finding contributing nothing. */
  function Collect(fields: seq<string>, check: string -> Option<ValidationError>): (r: seq<ValidationError>)
    ensures |r| <= |fields|
  {
    if |fields| == 0 then []
    else
      var c := check(fields[|fields| - 1]);
      Collect(fields[..|fields| - 1], check) + (if c.Some? then [c.value] else [])
  }

  /** Exactly one issue per field that has a finding, in field order: the
      issues correspond to a strictly increasing choice of field positions,
      and a position is chosen iff its field has a finding. */
  lemma {:induction false} CollectExact(fields: seq<string>, check: string -> Option<ValidationError>)
    returns (idx: seq<nat>)
    ensures |idx| == |Collect(fields, check)|
    ensures forall k :: 0 <= k < |idx| ==>
      idx[k] < |fields| && check(fields[idx[k]]) == Some(Collect(fields, check)[k])
    ensures forall k, l :: 0 <= k < l < |idx| ==> idx[k] < idx[l]
    ensures forall j :: 0 <= j < |fields| ==> (check(fields[j]).Some? <==> j in idx)
  {
    if |fields| == 0 {
      idx := [];
    } else {
      var n := |fields| - 1;
      var front := fields[..n];
      var prev := CollectExact(front, check);
      assert forall k :: 0 <= k < |prev| ==> fields[prev[k]] == front[prev[k]];
      assert forall j :: 0 <= j < n ==> fields[j] == front[j];
      var r := Collect(fields, check);
      var rf := Collect(front, check);
      if check(fields[n]).Some? {
        assert r == rf + [check(fields[n]).value];
        idx := prev + [n];
        assert forall j :: 0 <= j < n ==> (j in idx <==> j in prev);
      } else {
        assert r == rf;
        idx := prev;
      }
    }
  }

  /** Fields without findings give no issues. */
  lemma {:induction false} CollectNone(fields: seq<string>, check: string -> Option<ValidationError>)
    requires forall f :: f in fields ==> check(f).None?
    ensures Collect(fields, check) == []
  {
    if |fields| > 0 {
      assert forall f :: f in fields[..|fields| - 1] ==> f in fields;
      CollectNone(fields[..|fields| - 1], check);
    }
  }

  /** Every issue comes from a field's finding, and every finding of a field
      in the list is reported. */
  lemma CollectSoundComplete(fields: seq<string>, check: string -> Option<ValidationError>)
    ensures forall e :: e in Collect(fields, check) ==> exists f :: f in fields && check(f) == Some(e)
    ensures forall f :: f in fields && check(f).Some? ==> check(f).value in Collect(fields, check)
  {
    var idx := CollectExact(fields, check);
    var r := Collect(fields, check);
    forall e | e in r
      ensures exists f :: f in fields && check(f) == Some(e)
    {
      var k :| 0 <= k < |r| && r[k] == e;
      assert check(fields[idx[k]]) == Some(e);
    }
    forall f | f in fields && check(f).Some?
      ensures check(f).value in r
    {
      var j :| 0 <= j < |fields| && fields[j] == f;
      var k :| 0 <= k < |idx| && idx[k] == j;
      assert r[k] == check(f).value;
    }
  }

  /** One report line: `Row N: Validation S in field 'F': M`. */
  function FormatLine(e: ValidationError, rowNumber: int): string {
    "Row " + IntToString(rowNumber) + ": Validation " + e.severity + " in field '" + e.field + "': " + e.message
  }

  function Lines(errors: seq<ValidationError>, rowNumber: int): (r: seq<string>)
    ensures |r| == |errors|
    ensures forall k :: 0 <= k < |errors| ==> r[k] == FormatLine(errors[k], rowNumber)
  {
    if |errors| == 0 then [] else Lines(errors[..|errors| - 1], rowNumber) + [FormatLine(errors[|errors| - 1], rowNumber)]
  }

  /** An issue whose texts hold no line break. */
  predicate SingleLine(e: ValidationError) {
    '\n' !in e.field && '\n' !in e.message && '\n' !in e.severity
  }

  /** The report of a row's issues: nothing for no issues, otherwise the
      issues' lines in order, separated by line breaks. */
  method FormatErrors(errors: seq<ValidationError>, rowNumber: int) returns (s: string)
    ensures |errors| == 0 ==> s == ""
    ensures |errors| > 0 ==> s == Join(Lines(errors, rowNumber), '\n')
  {
    if |errors| == 0 {
      return "";
    }
    var lines: seq<string> := [];
    for i := 0 to |errors|
      invariant lines == Lines(errors[..i], rowNumber)
    {
      assert errors[..i + 1][..i] == errors[..i];
      lines := lines + [FormatLine(errors[i], rowNumber)];
    }
    assert errors[..|errors|] == errors;
    s := Join(lines, '\n');
  }

  /** Splitting a report at its line breaks gives exactly one line per issue,
      in order, each opening with the row number. */
  lemma FormatErrorsLines(errors: seq<ValidationError>, rowNumber: int)
    requires |errors| > 0
    requires forall k :: 0 <= k < |errors| ==> SingleLine(errors[k])
    ensures Split(Join(Lines(errors, rowNumber), '\n'), '\n') == Lines(errors, rowNumber)
    ensures forall k :: 0 <= k < |errors| ==>
      HasPrefix(Lines(errors, rowNumber)[k], "Row " + IntToString(rowNumber) + ": Validation ")
  {
    var lines := Lines(errors, rowNumber);
    forall k | 0 <= k < |lines|
      ensures '\n' !in lines[k]
      ensures HasPrefix(lines[k], "Row " + IntToString(rowNumber) + ": Validation ")
    {
      LineShape(errors[k], rowNumber);
    }
    SplitJoin(lines, '\n');
  }

  /** One issue's line has no line break and opens with the row number. */
  lemma LineShape(e: ValidationError, rowNumber: int)
    requires SingleLine(e)
    ensures '\n' !in FormatLine(e, rowNumber)
    ensures HasPrefix(FormatLine(e, rowNumber), "Row " + IntToString(rowNumber) + ": Validation ")
  {
    IntToStringHasNoBreak(rowNumber);
    var p := "Row " + IntToString(rowNumber) + ": Validation ";
    assert FormatLine(e, rowNumber) == p + (e.severity + " in field '" + e.field + "': " + e.message);
  }

  lemma IntToStringHasNoBreak(i: int)
    ensures '\n' !in IntToString(i)
  {
    var s := IntToString(i);
    if i >= 0 {
      assert forall k :: 0 <= k < |s| ==> IsDigit(s[k]);
    } else {
      var d := NatToString(-i);
      assert forall k :: 0 <= k < |d| ==> IsDigit(d[k]);
    }
  }
}
