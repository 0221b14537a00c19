/** The validators a transformer may carry: the three table-driven checks
    and the composite that runs a sequence of validators in order. */
module Validators {
  import opened Graph
  import opened Transform
  import opened Validation
  import RequiredFields
  import References
  import DateTimes

  datatype Validator =
    | RequiredFieldsValidator
    | ReferenceValidator(referenceFields: map<string, seq<string>>)
    | DateTimeValidator(dateTimeFields: map<string, seq<string>>)
    | CompositeValidator(validators: seq<Validator>)

  /** The validators with their built-in tables. */
  function NewReferenceValidator(): (v: Validator)
    ensures v.ReferenceValidator? && v.referenceFields == References.NewReferenceValidator()
  {
    ReferenceValidator(References.NewReferenceValidator())
  }

  function NewDateTimeValidator(): (v: Validator)
    ensures v.DateTimeValidator? && v.dateTimeFields == DateTimes.NewDateTimeValidator()
  {
    DateTimeValidator(DateTimes.NewDateTimeValidator())
  }

  /** The validator the converter builds when validation is enabled. */
  function DefaultValidator(): Validator {
    CompositeValidator([RequiredFieldsValidator, NewDateTimeValidator(), NewReferenceValidator()])
  }

  /** The issues a validator reports for a resource. */
  function Issues(cat: Catalog, v: Validator, res: Resource): seq<ValidationError>
    decreases v, 1
  {
    match v
    case RequiredFieldsValidator => RequiredFields.Issues(cat, res)
    case ReferenceValidator(table) => References.Issues(cat, table, res)
    case DateTimeValidator(table) => DateTimes.Issues(cat, table, res)
    case CompositeValidator(vs) => AllIssues(cat, vs, res)
  }

  /** The issues of each validator of `vs` in turn. */
  function AllIssues(cat: Catalog, vs: seq<Validator>, res: Resource): seq<ValidationError>
    decreases vs, 0
  {
    if |vs| == 0 then []
    else AllIssues(cat, vs[..|vs| - 1], res) + Issues(cat, vs[|vs| - 1], res)
  }

  /** `Validate` on any validator; a composite runs its validators in order
      and appends what each reports. */
  method Validate(cat: Catalog, v: Validator, res: Resource) returns (errors: seq<ValidationError>)
    ensures errors == Issues(cat, v, res)
    decreases v
  {
    match v
    case RequiredFieldsValidator =>
      errors := RequiredFields.Validate(cat, res);
    case ReferenceValidator(table) =>
      errors := References.Validate(cat, table, res);
    case DateTimeValidator(table) =>
      errors := DateTimes.Validate(cat, table, res);
    case CompositeValidator(vs) =>
      errors := [];
      for i := 0 to |vs|
        invariant errors == AllIssues(cat, vs[..i], res)
      {
        assert vs[..i + 1][..i] == vs[..i];
        var more := Validate(cat, vs[i], res);
        errors := errors + more;
      }
      assert vs[..|vs|] == vs;
  }

  /** The last validator's issues come last. */
  lemma AllIssuesLast(cat: Catalog, vs: seq<Validator>, res: Resource)
    requires |vs| > 0
    ensures AllIssues(cat, vs, res) == AllIssues(cat, vs[..|vs| - 1], res) + Issues(cat, vs[|vs| - 1], res)
  {
  }

  /** A composite of one validator reports exactly that validator's issues;
      an empty composite reports none. */
  lemma CompositeSingle(cat: Catalog, v: Validator, res: Resource)
    ensures Issues(cat, CompositeValidator([v]), res) == Issues(cat, v, res)
    ensures Issues(cat, CompositeValidator([]), res) == []
  {
    AllIssuesLast(cat, [v], res);
    assert [v][..0] == [];
    assert AllIssues(cat, [], res) == [];
  }

  /** Nesting composites changes nothing: a composite inside a composite
      contributes its validators' issues in place. */
  lemma CompositeFlattens(cat: Catalog, a: seq<Validator>, b: seq<Validator>, c: seq<Validator>, res: Resource)
    ensures Issues(cat, CompositeValidator(a + [CompositeValidator(b)] + c), res) ==
      Issues(cat, CompositeValidator(a + b + c), res)
  {
    CompositeAppend(cat, a + [CompositeValidator(b)], c, res);
    CompositeAppend(cat, a, [CompositeValidator(b)], res);
    CompositeSingle(cat, CompositeValidator(b), res);
    CompositeAppend(cat, a + b, c, res);
    CompositeAppend(cat, a, b, res);
  }

  /** The concatenation of a sequence of issue lists. */
  function Concat(xss: seq<seq<ValidationError>>): (r: seq<ValidationError>)
  {
    if |xss| == 0 then [] else Concat(xss[..|xss| - 1]) + xss[|xss| - 1]
  }

  /** An issue is in a concatenation exactly when it is in one of the lists. */
  lemma {:induction false} ConcatMembership(xss: seq<seq<ValidationError>>, e: ValidationError)
    ensures e in Concat(xss) <==> exists i :: 0 <= i < |xss| && e in xss[i]
  {
    if |xss| > 0 {
      var n := |xss| - 1;
      var front := xss[..n];
      ConcatMembership(front, e);
      assert forall i :: 0 <= i < n ==> front[i] == xss[i];
    }
  }

  /** Each validator's issues, in validator order. */
  function IssueLists(cat: Catalog, vs: seq<Validator>, res: Resource): (r: seq<seq<ValidationError>>)
    ensures |r| == |vs| && forall i :: 0 <= i < |vs| ==> r[i] == Issues(cat, vs[i], res)
  {
    seq(|vs|, i requires 0 <= i < |vs| => Issues(cat, vs[i], res))
  }

  /** A composite's issues are the concatenation of its validators' issues,
      in validator order. */
  lemma {:induction false} CompositeConcatenates(cat: Catalog, vs: seq<Validator>, res: Resource)
    ensures Issues(cat, CompositeValidator(vs), res) == Concat(IssueLists(cat, vs, res))
  {
    if |vs| > 0 {
      var n := |vs| - 1;
      CompositeConcatenates(cat, vs[..n], res);
      AllIssuesLast(cat, vs, res);
      var xss := IssueLists(cat, vs, res);
      assert xss[..n] == IssueLists(cat, vs[..n], res);
    }
  }

  lemma {:induction false} ConcatAppend(xss: seq<seq<ValidationError>>, yss: seq<seq<ValidationError>>)
    ensures Concat(xss + yss) == Concat(xss) + Concat(yss)
  {
    if |yss| == 0 {
      assert xss + yss == xss;
    } else {
      var n := |yss| - 1;
      assert (xss + yss)[..|xss + yss| - 1] == xss + yss[..n];
      ConcatAppend(xss, yss[..n]);
    }
  }

  /** A composite of two sequences of validators reports the first one's
      issues followed by the second one's. */
  lemma CompositeAppend(cat: Catalog, a: seq<Validator>, b: seq<Validator>, res: Resource)
    ensures AllIssues(cat, a + b, res) == AllIssues(cat, a, res) + AllIssues(cat, b, res)
  {
    CompositeConcatenates(cat, a + b, res);
    CompositeConcatenates(cat, a, res);
    CompositeConcatenates(cat, b, res);
    assert IssueLists(cat, a + b, res) == IssueLists(cat, a, res) + IssueLists(cat, b, res);
    ConcatAppend(IssueLists(cat, a, res), IssueLists(cat, b, res));
  }

  /** An issue of a composite is an issue of one of its validators, and every
      issue of each validator is among the composite's. */
  lemma CompositeMembership(cat: Catalog, vs: seq<Validator>, res: Resource, e: ValidationError)
    ensures e in Issues(cat, CompositeValidator(vs), res) <==>
      exists i :: 0 <= i < |vs| && e in Issues(cat, vs[i], res)
  {
    CompositeConcatenates(cat, vs, res);
    ConcatMembership(IssueLists(cat, vs, res), e);
  }

  /** The converter's validator reports the required-field issues, then the
      date/time issues, then the reference issues. */
  lemma DefaultIssues(cat: Catalog, res: Resource)
    ensures Issues(cat, DefaultValidator(), res) ==
      RequiredFields.Issues(cat, res) +
      DateTimes.Issues(cat, DateTimes.NewDateTimeValidator(), res) +
      References.Issues(cat, References.NewReferenceValidator(), res)
  {
    var a := [RequiredFieldsValidator, NewDateTimeValidator()];
    CompositeAppend(cat, a, [NewReferenceValidator()], res);
    CompositeAppend(cat, [RequiredFieldsValidator], [NewDateTimeValidator()], res);
    CompositeSingle(cat, RequiredFieldsValidator, res);
    CompositeSingle(cat, NewDateTimeValidator(), res);
    CompositeSingle(cat, NewReferenceValidator(), res);
    assert a + [NewReferenceValidator()] == DefaultValidator().validators;
    assert [RequiredFieldsValidator] + [NewDateTimeValidator()] == a;
  }
}
