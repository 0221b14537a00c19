/** A transformer: a mapping configuration and an optional validator. With a
    validator, every resource a row gives is checked, and its issues travel
    with it. */
module Transformers {
  import opened Wrappers
  import opened Mapping
  import opened Graph
  import opened Transform
  import opened Validation
  import opened Validators
  import opened Registry
  import RequiredFields

  datatype Transformer = Transformer(config: MappingSpec, validator: Option<Validator>)

  /** `NewTransformer`: validation is optional and off. */
  function NewTransformer(cfg: MappingSpec): (t: Transformer)
    ensures t.config == cfg && t.validator.None?
  {
    Transformer(cfg, None)
  }

  function NewTransformerWithValidator(cfg: MappingSpec, v: Validator): (t: Transformer)
    ensures t.config == cfg && t.validator == Some(v)
  {
    Transformer(cfg, Some(v))
  }

  /** The issues of a built resource under an optional validator. */
  function IssuesOf(cat: Catalog, validator: Option<Validator>, res: Resource): seq<ValidationError> {
    if validator.Some? then Issues(cat, validator.value, res) else []
  }

  /** `TransformWithValidation`: a row that cannot be built gives the build
      error and no issues; otherwise the resource and, when the transformer
      has a validator, the validator's issues about it. */
  method TransformWithValidation(cat: Catalog, t: Transformer, row: map<string, string>, rowNumber: int)
    returns (r: Result<(Resource, seq<ValidationError>), RowError>,
             ghost defaults: seq<(string, string)>, ghost mappings: seq<(string, string)>)
    ensures Lists(defaults, t.config.defaults) && Lists(mappings, t.config.mappings)
    ensures var built := Build(cat, t.config, row, rowNumber, defaults, mappings);
      (r.Failure? <==> built.Failure?) &&
      (built.Failure? ==> r.error == built.error) &&
      (built.Success? ==> r.value.0 == built.value && r.value.1 == IssuesOf(cat, t.validator, built.value))
    ensures r.Failure? ==> r.error.row == rowNumber
    ensures GetResourceType(t.config.resource).None? ==>
      r == Failure(RowError(rowNumber, CreateFailed(t.config.resource)))
    ensures r.Success? ==> GetResourceType(t.config.resource) == Some(r.value.0.typeName)
    ensures r.Success? && t.validator.None? ==> r.value.1 == []
    ensures r.Success? && t.validator.Some? ==> r.value.1 == Issues(cat, t.validator.value, r.value.0)
  {
    var resource: Result<Resource, RowError>;
    resource, defaults, mappings := Transform.Transform(cat, t.config, row, rowNumber);
    if resource.Failure? {
      return Failure(resource.error), defaults, mappings;
    }
    var validationErrors := [];
    if t.validator.Some? {
      validationErrors := Validators.Validate(cat, t.validator.value, resource.value);
    }
    return Success((resource.value, validationErrors)), defaults, mappings;
  }

  /** Without a validator there are never issues. */
  lemma NoValidatorNoIssues(cat: Catalog, cfg: MappingSpec, res: Resource)
    ensures IssuesOf(cat, NewTransformer(cfg).validator, res) == []
  {
  }

  /** What the mapping engine writes is what the required-fields check reads:
      a mapping that writes a non-empty text to a top-level string (or
      pointer) field, with no other mapping writing that field, leaves it
      present in the built resource, so it is never reported missing. An
      integer or boolean field written with `0` or `false` would read as
      empty. */
  lemma MappedFieldNotMissing(cat: Catalog, spec: MappingSpec, row: map<string, string>, n: int,
                              defaults: seq<(string, string)>, mappings: seq<(string, string)>, f: string)
    requires Lists(mappings, spec.mappings) && f in spec.mappings
    requires Build(cat, spec, row, n, defaults, mappings).Success?
    requires ParsedPath(f) == Success([Segment(f, None)])
    requires Expand(spec.mappings[f], row).text != ""
    requires forall q :: q in spec.mappings && q != f ==> !Touches(q, Capitalize(f))
    requires Capitalize(f) != "Id"
    requires var tn := Build(cat, spec, row, n, defaults, mappings).value.typeName;
      Capitalize(f) in FieldsOf(cat, tn) &&
      (FieldsOf(cat, tn)[Capitalize(f)] == TString || FieldsOf(cat, tn)[Capitalize(f)].TPtr?)
    ensures !RequiredFields.Missing(cat, Build(cat, spec, row, n, defaults, mappings).value, f)
  {
    var res := Build(cat, spec, row, n, defaults, mappings).value;
    assert FirstField(f) == Capitalize(f);
    MappingOverridesDefaults(cat, spec, row, n, defaults, mappings, f);
    WrittenFieldPresent(cat, res, f, Expand(spec.mappings[f], row).text);
  }

  /** A top-level field read back as holding a non-empty text is present. */
  lemma WrittenFieldPresent(cat: Catalog, res: Resource, f: string, text: string)
    requires ReadHolds(cat, Read(cat, TStruct(res.typeName), VStruct(res.fields), [Segment(f, None)]), text)
    requires text != ""
    requires Capitalize(f) in FieldsOf(cat, res.typeName)
    requires FieldsOf(cat, res.typeName)[Capitalize(f)] == TString || FieldsOf(cat, res.typeName)[Capitalize(f)].TPtr?
    ensures !RequiredFields.Missing(cat, res, f)
  {
    GetFieldValueIsRead(cat, res, f);
    var rd := GetFieldValue(cat, res, f);
    HeldTextNotEmpty(cat, rd.value.0, rd.value.1, text);
  }

  /** A string field holding a non-empty text, or a pointer field that was
      set, is not empty. */
  lemma HeldTextNotEmpty(cat: Catalog, t: Type, x: Value, s: string)
    requires Holds(cat, t, x, s) && s != "" && (t == TString || t.TPtr?)
    ensures !IsFieldEmpty(x)
  {
  }
}
