/** The required-fields validator: a fixed table of field names per resource
    type, and one error per listed field that is absent or empty. */
module RequiredFields {
  import opened Wrappers
  import opened Graph
  import opened Transform
  import opened Validation

  const MissingMessage: string := "Required field is missing or empty"

  /** The fields each resource type must carry; types not listed require
      nothing. */
  function RequiredFieldsOf(resourceType: string): (fields: seq<string>)
    ensures forall k :: 0 <= k < |fields| ==> |fields[k]| > 0
  {
    if resourceType == "Observation" then ["status", "code"]
    else if resourceType == "Patient" then []
    else if resourceType == "Condition" then ["subject"]
    else if resourceType == "MedicationRequest" then ["status", "intent", "subject"]
    else if resourceType == "Procedure" then ["status", "subject"]
    else if resourceType == "Encounter" then ["status", "class"]
    else if resourceType == "DiagnosticReport" then ["status", "code"]
    else if resourceType == "Specimen" then []
    else []
  }

  /** A field is missing when the resource type does not declare it or its
      value is empty. */
  predicate Missing(cat: Catalog, res: Resource, field: string) {
    var v := GetFieldValue(cat, res, field);
    v.None? || IsFieldEmpty(v.value.1)
  }

  function Finding(cat: Catalog, res: Resource, field: string): Option<ValidationError> {
    if Missing(cat, res, field) then Some(CreateError(field, MissingMessage)) else None
  }

  function Check(cat: Catalog, res: Resource): string -> Option<ValidationError> {
    field => Finding(cat, res, field)
  }

  /** The issues of the validator: the findings over the resource type's table. */
  function Issues(cat: Catalog, res: Resource): seq<ValidationError> {
    Collect(RequiredFieldsOf(res.typeName), Check(cat, res))
  }

  /** `RequiredFieldsValidator.Validate`. */
  method Validate(cat: Catalog, res: Resource) returns (errors: seq<ValidationError>)
    ensures errors == Issues(cat, res)
  {
    var fields := RequiredFieldsOf(res.typeName);
    errors := [];
    for i := 0 to |fields|
      invariant errors == Collect(fields[..i], Check(cat, res))
    {
      var field := fields[i];
      assert fields[..i + 1][..i] == fields[..i];
      var value := GetFieldValue(cat, res, field);
      if value.None? || IsFieldEmpty(value.value.1) {
        errors := errors + [CreateError(field, MissingMessage)];
      }
    }
    assert fields[..|fields|] == fields;
  }

  /** Every issue is an error for a table field that is missing, and every
      missing table field has its issue. */
  lemma IssuesAreMissingFields(cat: Catalog, res: Resource)
    ensures forall e :: e in Issues(cat, res) ==>
      e.severity == "error" && e.message == MissingMessage &&
      e.field in RequiredFieldsOf(res.typeName) && Missing(cat, res, e.field)
    ensures forall f :: f in RequiredFieldsOf(res.typeName) && Missing(cat, res, f) ==>
      CreateError(f, MissingMessage) in Issues(cat, res)
  {
    var fields := RequiredFieldsOf(res.typeName);
    CollectSoundComplete(fields, Check(cat, res));
    forall e | e in Issues(cat, res)
      ensures e.field in fields && Missing(cat, res, e.field)
    {
      var f :| f in fields && Check(cat, res)(f) == Some(e);
    }
    forall f | f in fields && Missing(cat, res, f)
      ensures CreateError(f, MissingMessage) in Issues(cat, res)
    {
      assert Check(cat, res)(f).Some?;
    }
  }

  /** A resource whose required fields are all present and non-empty passes. */
  lemma AllPresentPasses(cat: Catalog, res: Resource)
    requires forall f :: f in RequiredFieldsOf(res.typeName) ==> !Missing(cat, res, f)
    ensures Issues(cat, res) == []
  {
    CollectNone(RequiredFieldsOf(res.typeName), Check(cat, res));
  }

  /** Patient, Specimen and unlisted types have no requirements. */
  lemma NoRequirements(cat: Catalog, res: Resource)
    requires res.typeName !in {"Observation", "Condition", "MedicationRequest", "Procedure", "Encounter", "DiagnosticReport"}
    ensures Issues(cat, res) == []
  {
  }

  /** An enumeration field holds its code's ordinal, so a field set to the
      first code of its enumeration has the zero value and is reported as
      missing, like a field never set. */
  lemma FirstCodeReadsAsMissing(cat: Catalog, res: Resource, field: string, e: string)
    requires field in RequiredFieldsOf(res.typeName)
    requires Capitalize(field) in FieldsOf(cat, res.typeName)
    requires FieldsOf(cat, res.typeName)[Capitalize(field)] == TEnum(e)
    requires Capitalize(field) in res.fields && res.fields[Capitalize(field)] == VInt(0)
    ensures CreateError(field, MissingMessage) in Issues(cat, res)
  {
    IssuesAreMissingFields(cat, res);
  }
}
