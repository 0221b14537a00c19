/** The reference validator: for each resource type a fixed list of fields
    holding references, and one error per field whose reference string is
    set but is not a literal reference in one of the accepted forms. */
module References {
  import opened Wrappers
  import opened Text
  import opened Graph
  import opened Transform
  import opened Validation
  import opened DateTimes

  const InvalidMessage: string := "Invalid reference format (expected 'ResourceType/id', '#id', or full URL)"

  /** The reference fields of each resource type, as the validator is built. */
  function NewReferenceValidator(): (table: map<string, seq<string>>) {
    map[
      "Observation" := ["subject", "performer", "basedOn"],
      "Condition" := ["subject", "asserter"],
      "MedicationRequest" := ["subject", "requester"],
      "Procedure" := ["subject", "performer"],
      "Encounter" := ["subject", "participant"],
      "DiagnosticReport" := ["subject", "performer"],
      "Specimen" := ["subject", "collection"]
    ]
  }

  /** The characters the regular-expression class `\s` matches. */
  predicate IsRegexSpace(c: char) {
    c == ' ' || c == '\t' || c == '\n' || c == '\r' || c == '\U{000C}'
  }

  /** `ref` matches `^[A-Z][a-zA-Z]+/[^/\s]+$` with its slash at position `k`. */
  predicate RelativeAt(ref: string, k: int)
    requires 0 <= k < |ref|
  {
    IsAsciiUpper(ref[0]) &&
    (forall j :: 1 <= j < k ==> IsAsciiLetter(ref[j])) &&
    ref[k] == '/' &&
    (forall j :: k < j < |ref| ==> ref[j] != '/' && !IsRegexSpace(ref[j]))
  }

  /** A relative literal reference `ResourceType/id`. */
  predicate RelativeForm(ref: string) {
    exists k :: 2 <= k < |ref| - 1 && RelativeAt(ref, k)
  }

  /** `isValidReference`: an internal reference `#id`, a URL or URN, or a
      relative reference; the empty string is invalid. */
  predicate IsValidReference(ref: string) {
    if ref == "" then false
    else if HasPrefix(ref, "#") then |ref| > 1
    else if HasPrefix(ref, "http://") || HasPrefix(ref, "https://") || HasPrefix(ref, "urn:") then true
    else RelativeForm(ref)
  }

  /** A resource type name: an upper-case letter and at least one more letter. */
  predicate TypeNamePart(s: string) {
    |s| >= 2 && IsAsciiUpper(s[0]) && forall j :: 1 <= j < |s| ==> IsAsciiLetter(s[j])
  }

  /** An id: at least one character and no white space. */
  predicate IdPart(s: string) {
    |s| >= 1 && forall j :: 0 <= j < |s| ==> !IsRegexSpace(s[j])
  }

  lemma SplitWithoutSeparator(s: string, sep: char)
    requires sep !in s
    ensures Split(s, sep) == [s]
  {
  }

  lemma SplitSingleMeansNoSeparator(s: string, sep: char)
    requires |Split(s, sep)| == 1
    ensures sep !in s
  {
  }

  /** A relative reference is exactly a string that splits at its slashes
      into a resource type name and an id. */
  lemma RelativeFormBySplit(ref: string)
    ensures RelativeForm(ref) <==>
      (var parts := Split(ref, '/'); |parts| == 2 && TypeNamePart(parts[0]) && IdPart(parts[1]))
  {
    var parts := Split(ref, '/');
    if RelativeForm(ref) {
      var k :| 2 <= k < |ref| - 1 && RelativeAt(ref, k);
      assert forall j :: 0 <= j < k ==> ref[..k][j] == ref[j];
      assert '/' !in ref[..k];
      assert IndexOf(ref, '/') == k;
      var rest := ref[k + 1..];
      assert forall j :: 0 <= j < |rest| ==> rest[j] == ref[k + 1 + j];
      assert '/' !in rest;
      SplitWithoutSeparator(rest, '/');
      assert parts == [ref[..k], rest];
    }
    if |parts| == 2 && TypeNamePart(parts[0]) && IdPart(parts[1]) {
      var i := IndexOf(ref, '/');
      assert i != -1;
      var rest := ref[i + 1..];
      assert parts == [ref[..i]] + Split(rest, '/');
      SplitSingleMeansNoSeparator(rest, '/');
      SplitWithoutSeparator(rest, '/');
      assert parts[1] == rest;
      assert forall j :: i < j < |ref| ==> ref[j] == rest[j - i - 1];
      assert RelativeAt(ref, i);
    }
  }

  /** The accepted examples of the reference syntax. */
  lemma AcceptedReferences()
    ensures IsValidReference("Patient/123") && IsValidReference("Patient/abc-123")
  {
    assert RelativeAt("Patient/123", 7);
    assert RelativeAt("Patient/abc-123", 7);
  }

  lemma AcceptedUrls()
    ensures IsValidReference("#local-ref") && IsValidReference("urn:uuid:12345")
    ensures IsValidReference("http://example.org/fhir/Patient/123")
    ensures IsValidReference("https://example.org/fhir/Patient/123")
  {
  }

  /** The rejected examples: no slash can serve, because the type name would
      hold a non-letter or the id a slash. */
  lemma RejectedReferences()
    ensures !IsValidReference("") && !IsValidReference("#") && !IsValidReference("invalid")
    ensures !IsValidReference("/123") && !IsValidReference("patient/123")
  {
    assert "invalid"[0] == 'i' && "/123"[0] == '/' && "patient/123"[0] == 'p';
  }

  lemma RejectedSlashes()
    ensures !IsValidReference("Patient/") && !IsValidReference("Patient//123")
    ensures !IsValidReference("Patient / 123")
  {
    assert "Patient/"[7] == '/';
    assert "Patient//123"[7] == '/' && "Patient//123"[8] == '/';
    assert "Patient / 123"[7] == ' ' && "Patient / 123"[8] == '/';
  }

  /** The string a dereferenced field value of type `t` contributes: a
      struct's `Reference` field, or a string itself. */
  function ReferenceOf(cat: Catalog, t: Type, w: Value): string {
    if w.VStruct? then
      if t.TStruct? && "Reference" in FieldsOf(cat, t.name) then
        ExtractStringValue(FieldValue(w.fields, "Reference", FieldsOf(cat, t.name)["Reference"]))
      else ""
    else if w.VString? then w.s
    else ""
  }

  /** `extractReferenceString` on a field of type `t` holding `v`. */
  function ExtractReferenceString(cat: Catalog, t: Type, v: Value): (s: string)
    ensures v.VPtr? && v.target.None? ==> s == ""
    ensures v.VSlice? || v.VInt? || v.VBool? || v.VOther? ==> s == ""
  {
    if v.VPtr? then
      if v.target.None? then "" else ReferenceOf(cat, if t.TPtr? then t.elem else t, v.target.value)
    else ReferenceOf(cat, t, v)
  }

  /** The reference string of a field the resource holds, or `""` when the
      field is absent or empty. */
  function RefString(cat: Catalog, res: Resource, field: string): string {
    var v := GetFieldValue(cat, res, field);
    if v.None? || IsFieldEmpty(v.value.1) then "" else ExtractReferenceString(cat, v.value.0, v.value.1)
  }

  /** The field holds a reference string that is not a valid reference. */
  predicate Invalid(cat: Catalog, res: Resource, field: string) {
    var r := RefString(cat, res, field);
    r != "" && !IsValidReference(r)
  }

  function Finding(cat: Catalog, res: Resource, field: string): Option<ValidationError> {
    if Invalid(cat, res, field) then Some(CreateError(field + ".reference", InvalidMessage)) else None
  }

  function Check(cat: Catalog, res: Resource): string -> Option<ValidationError> {
    field => Finding(cat, res, field)
  }

  /** The issues of a reference validator with the given table. */
  function Issues(cat: Catalog, table: map<string, seq<string>>, res: Resource): seq<ValidationError> {
    if res.typeName in table then Collect(table[res.typeName], Check(cat, res)) else []
  }

  /** `ReferenceValidator.Validate`. */
  method Validate(cat: Catalog, table: map<string, seq<string>>, res: Resource) returns (errors: seq<ValidationError>)
    ensures errors == Issues(cat, table, res)
  {
    if res.typeName !in table {
      return [];
    }
    var fields := table[res.typeName];
    errors := [];
    for i := 0 to |fields|
      invariant errors == Collect(fields[..i], Check(cat, res))
    {
      var field := fields[i];
      assert fields[..i + 1][..i] == fields[..i];
      var value := GetFieldValue(cat, res, field);
      if value.None? || IsFieldEmpty(value.value.1) {
        continue;
      }
      var refString := ExtractReferenceString(cat, value.value.0, value.value.1);
      if refString == "" {
        continue;
      }
      if !IsValidReference(refString) {
        errors := errors + [CreateError(field + ".reference", InvalidMessage)];
      }
    }
    assert fields[..|fields|] == fields;
  }

  /** Every issue names a configured field, suffixed `.reference`, whose
      reference string is set and invalid, and every such field has its
      issue; a type without configured fields has none. */
  lemma IssuesAreInvalidReferences(cat: Catalog, table: map<string, seq<string>>, res: Resource)
    ensures res.typeName !in table ==> Issues(cat, table, res) == []
    ensures forall e :: e in Issues(cat, table, res) ==>
      e.severity == "error" && e.message == InvalidMessage &&
      exists f :: f in table[res.typeName] && Invalid(cat, res, f) && e.field == f + ".reference"
    ensures res.typeName in table ==>
      forall f :: f in table[res.typeName] && Invalid(cat, res, f) ==>
        CreateError(f + ".reference", InvalidMessage) in Issues(cat, table, res)
  {
    if res.typeName in table {
      var fields := table[res.typeName];
      CollectSoundComplete(fields, Check(cat, res));
      forall e | e in Issues(cat, table, res)
        ensures exists f :: f in fields && Invalid(cat, res, f) && e.field == f + ".reference"
      {
        var f :| f in fields && Check(cat, res)(f) == Some(e);
      }
      forall f | f in fields && Invalid(cat, res, f)
        ensures CreateError(f + ".reference", InvalidMessage) in Issues(cat, table, res)
      {
        assert Check(cat, res)(f).Some?;
      }
    }
  }

  /** A field pointing to a `Reference` struct contributes the string its
      `Reference` field points to. */
  lemma ReferenceStructRead(cat: Catalog, n: string, m: map<string, Value>, s: string)
    requires "Reference" in FieldsOf(cat, n) && FieldsOf(cat, n)["Reference"] == TPtr(TString)
    requires "Reference" in m && m["Reference"] == VPtr(Some(VString(s)))
    ensures ExtractReferenceString(cat, TPtr(TStruct(n)), VPtr(Some(VStruct(m)))) == s
  {
  }
}
