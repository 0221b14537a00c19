/** The resource registry of internal/transform/registry.go: the registered
    resource names and the lookup that resolves a configured name to one. */
module Registry {
  import opened Wrappers
  import opened Text

  /** The registered resource names. The source keeps them as the keys of a
      Go map, which has no order; here they are listed by `Code`, ascending,
      which makes their distinctness cheap to establish. */
  const Names: seq<string> := [
    Goal, Slot, Task, Claim, Media,
    Patient, CarePlan, Coverage, Location, Specimen,
    Schedule, ValueSet, Condition, Encounter, Procedure,
    CodeSystem, Medication, Appointment, Observation, ImagingStudy,
    Immunization, Organization, Practitioner, ClaimResponse, RiskAssessment,
    ServiceRequest, DiagnosticReport, MedicationRequest, AllergyIntolerance, MedicationDispense,
    MedicationStatement, StructureDefinition, ExplanationOfBenefit, MedicationAdministration
  ]

  const Goal: string := "Goal"
  const Slot: string := "Slot"
  const Task: string := "Task"
  const Claim: string := "Claim"
  const Media: string := "Media"
  const Patient: string := "Patient"
  const CarePlan: string := "CarePlan"
  const Coverage: string := "Coverage"
  const Location: string := "Location"
  const Specimen: string := "Specimen"
  const Schedule: string := "Schedule"
  const ValueSet: string := "ValueSet"
  const Condition: string := "Condition"
  const Encounter: string := "Encounter"
  const Procedure: string := "Procedure"
  const CodeSystem: string := "CodeSystem"
  const Medication: string := "Medication"
  const Appointment: string := "Appointment"
  const Observation: string := "Observation"
  const ImagingStudy: string := "ImagingStudy"
  const Immunization: string := "Immunization"
  const Organization: string := "Organization"
  const Practitioner: string := "Practitioner"
  const ClaimResponse: string := "ClaimResponse"
  const RiskAssessment: string := "RiskAssessment"
  const ServiceRequest: string := "ServiceRequest"
  const DiagnosticReport: string := "DiagnosticReport"
  const MedicationRequest: string := "MedicationRequest"
  const AllergyIntolerance: string := "AllergyIntolerance"
  const MedicationDispense: string := "MedicationDispense"
  const MedicationStatement: string := "MedicationStatement"
  const StructureDefinition: string := "StructureDefinition"
  const ExplanationOfBenefit: string := "ExplanationOfBenefit"
  const MedicationAdministration: string := "MedicationAdministration"

  /** The search loop: the first name of `order` whose lower-case form is
      `target`, or `None` when there is none. */
  function FirstFolded(order: seq<string>, target: string): (r: Option<string>)
    ensures r.Some? ==> r.value in order && Lower(r.value) == target
    ensures r.None? <==> forall i :: 0 <= i < |order| ==> Lower(order[i]) != target
  {
    if |order| == 0 then None
    else if Lower(order[0]) == target then Some(order[0])
    else FirstFolded(order[1..], target)
  }

  /** `order` lists exactly the names in `keys`, as iterating a Go map with
      those keys does. */
  predicate Enumerates(keys: seq<string>, order: seq<string>) {
    (forall k :: k in order ==> k in keys) && (forall k :: k in keys ==> k in order)
  }

  /** The lookup in a registry with keys `keys` whose map happens to be
      iterated in `order`: an exact key first, then a key equal to `name`
      ignoring case. */
  function LookupIn(keys: seq<string>, order: seq<string>, name: string): Option<string> {
    if name in keys then Some(name) else FirstFolded(order, Lower(name))
  }

  /** `GetResourceType`: the registered name that `name` resolves to. */
  function GetResourceType(name: string): (r: Option<string>)
    ensures name in Names ==> r == Some(name)
    ensures r.Some? ==> r.value in Names && Lower(r.value) == Lower(name)
    ensures r.None? <==> forall k :: k in Names ==> Lower(k) != Lower(name)
  {
    LookupIn(Names, Names, name)
  }

  /** A fingerprint of a name that lower-casing cannot change: its length
      and its first and third characters, folded to lower case. */
  function Code(s: string): int {
    (|s| * 128 + FoldedAt(s, 0)) * 128 + FoldedAt(s, 2)
  }

  function FoldedAt(s: string, k: nat): int {
    if k < |s| then Folded(s[k]) else 0
  }

  /** `LowerChar` as a code point. */
  function Folded(c: char): int {
    if IsAsciiUpper(c) then c as int + 32 else c as int
  }

  /** Names folding to the same string have the same fingerprint. */
  lemma FoldedCode(a: string, b: string)
    ensures Lower(a) == Lower(b) ==> Code(a) == Code(b)
  {
    if Lower(a) == Lower(b) {
      assert |a| == |Lower(a)| == |b|;
      forall k: nat | k < 3 ensures FoldedAt(a, k) == FoldedAt(b, k) {
        if k < |a| {
          assert LowerChar(a[k]) == Lower(a)[k] == LowerChar(b[k]);
        }
      }
    }
  }

  /** Neighbouring keys have ascending fingerprints. */
  predicate CodesAscend(keys: seq<string>) {
    forall k :: 0 <= k < |keys| - 1 ==> Code(keys[k]) < Code(keys[k + 1])
  }

  lemma {:induction false} CodesOrdered(keys: seq<string>, i: int, j: int)
    requires CodesAscend(keys)
    requires 0 <= i < j < |keys|
    ensures Code(keys[i]) < Code(keys[j])
    decreases j - i
  {
    if i + 1 < j {
      CodesOrdered(keys, i + 1, j);
    }
  }

  /** Keys with ascending fingerprints are pairwise distinct once
      lower-cased, so a case-insensitive search finds at most one. */
  lemma FoldDistinct(keys: seq<string>, a: string, b: string)
    requires CodesAscend(keys)
    requires a in keys && b in keys && Lower(a) == Lower(b)
    ensures a == b
  {
    var i :| 0 <= i < |keys| && keys[i] == a;
    var j :| 0 <= j < |keys| && keys[j] == b;
    FoldedCode(a, b);
    if i < j {
      CodesOrdered(keys, i, j);
    } else if j < i {
      CodesOrdered(keys, j, i);
    }
  }

  /** A fingerprint strictly between two neighbours' belongs to no key. */
  lemma CodeBetween(keys: seq<string>, i: int, c: int)
    requires CodesAscend(keys)
    requires 0 <= i < |keys| - 1 && Code(keys[i]) < c < Code(keys[i + 1])
    ensures forall j :: 0 <= j < |keys| ==> Code(keys[j]) != c
  {
    forall j | 0 <= j < |keys| ensures Code(keys[j]) != c {
      if j < i {
        CodesOrdered(keys, j, i);
      } else if i + 1 < j {
        CodesOrdered(keys, i + 1, j);
      }
    }
  }

  /** With fold-distinct keys, a name equal to a key ignoring case resolves
      to that key, whatever the iteration order. */
  lemma ResolvesTo(keys: seq<string>, order: seq<string>, name: string, k: string)
    requires CodesAscend(keys) && Enumerates(keys, order)
    requires k in keys && Lower(name) == Lower(k)
    ensures LookupIn(keys, order, name) == Some(k)
  {
    if name in keys {
      FoldDistinct(keys, name, k);
    } else {
      var r := FirstFolded(order, Lower(name));
      var i :| 0 <= i < |order| && order[i] == k;
      assert r.Some?;
      FoldDistinct(keys, r.value, k);
    }
  }

  /** With fold-distinct keys, the iteration order does not matter. */
  lemma OrderIrrelevant(keys: seq<string>, o1: seq<string>, o2: seq<string>, name: string)
    requires CodesAscend(keys) && Enumerates(keys, o1) && Enumerates(keys, o2)
    ensures LookupIn(keys, o1, name) == LookupIn(keys, o2, name)
  {
    var r1 := LookupIn(keys, o1, name);
    var r2 := LookupIn(keys, o2, name);
    if r1.Some? {
      assert r1.value in keys;
      ResolvesTo(keys, o1, name, r1.value);
      ResolvesTo(keys, o2, name, r1.value);
    }
    if r2.Some? {
      assert r2.value in keys;
      ResolvesTo(keys, o1, name, r2.value);
      ResolvesTo(keys, o2, name, r2.value);
    }
  }

  /** The fingerprints of `Names` ascend; checked a few neighbours at a time. */
  lemma NamesAscending()
    ensures CodesAscend(Names)
  {
    AscendingFrom0();
    AscendingFrom4();
    AscendingFrom8();
    AscendingFrom12();
    AscendingFrom16();
    AscendingFrom20();
    AscendingFrom24();
    AscendingFrom28();
    AscendingFrom32();
  }

  lemma AscendingFrom0()
    ensures forall k :: 0 <= k < 4 ==> Code(Names[k]) < Code(Names[k + 1])
  {
    forall k | 0 <= k < 4 ensures Code(Names[k]) < Code(Names[k + 1]) {
      match k
      case 0 => assert Code(Goal) < Code(Slot);
      case 1 => assert Code(Slot) < Code(Task);
      case 2 => assert Code(Task) < Code(Claim);
      case 3 => assert Code(Claim) < Code(Media);
      case _ =>
    }
  }

  lemma AscendingFrom4()
    ensures forall k :: 4 <= k < 8 ==> Code(Names[k]) < Code(Names[k + 1])
  {
    forall k | 4 <= k < 8 ensures Code(Names[k]) < Code(Names[k + 1]) {
      match k
      case 4 => assert Code(Media) < Code(Patient);
      case 5 => assert Code(Patient) < Code(CarePlan);
      case 6 => assert Code(CarePlan) < Code(Coverage);
      case 7 => assert Code(Coverage) < Code(Location);
      case _ =>
    }
  }

  lemma AscendingFrom8()
    ensures forall k :: 8 <= k < 12 ==> Code(Names[k]) < Code(Names[k + 1])
  {
    forall k | 8 <= k < 12 ensures Code(Names[k]) < Code(Names[k + 1]) {
      match k
      case 8 => assert Code(Location) < Code(Specimen);
      case 9 => assert Code(Specimen) < Code(Schedule);
      case 10 => assert Code(Schedule) < Code(ValueSet);
      case 11 => assert Code(ValueSet) < Code(Condition);
      case _ =>
    }
  }

  lemma AscendingFrom12()
    ensures forall k :: 12 <= k < 16 ==> Code(Names[k]) < Code(Names[k + 1])
  {
    forall k | 12 <= k < 16 ensures Code(Names[k]) < Code(Names[k + 1]) {
      match k
      case 12 => assert Code(Condition) < Code(Encounter);
      case 13 => assert Code(Encounter) < Code(Procedure);
      case 14 => assert Code(Procedure) < Code(CodeSystem);
      case 15 => assert Code(CodeSystem) < Code(Medication);
      case _ =>
    }
  }

  lemma AscendingFrom16()
    ensures forall k :: 16 <= k < 20 ==> Code(Names[k]) < Code(Names[k + 1])
  {
    forall k | 16 <= k < 20 ensures Code(Names[k]) < Code(Names[k + 1]) {
      match k
      case 16 => assert Code(Medication) < Code(Appointment);
      case 17 => assert Code(Appointment) < Code(Observation);
      case 18 => assert Code(Observation) < Code(ImagingStudy);
      case 19 => assert Code(ImagingStudy) < Code(Immunization);
      case _ =>
    }
  }

  lemma AscendingFrom20()
    ensures forall k :: 20 <= k < 24 ==> Code(Names[k]) < Code(Names[k + 1])
  {
    forall k | 20 <= k < 24 ensures Code(Names[k]) < Code(Names[k + 1]) {
      match k
      case 20 => assert Code(Immunization) < Code(Organization);
      case 21 => assert Code(Organization) < Code(Practitioner);
      case 22 => assert Code(Practitioner) < Code(ClaimResponse);
      case 23 => assert Code(ClaimResponse) < Code(RiskAssessment);
      case _ =>
    }
  }

  lemma AscendingFrom24()
    ensures forall k :: 24 <= k < 28 ==> Code(Names[k]) < Code(Names[k + 1])
  {
    forall k | 24 <= k < 28 ensures Code(Names[k]) < Code(Names[k + 1]) {
      match k
      case 24 => assert Code(RiskAssessment) < Code(ServiceRequest);
      case 25 => assert Code(ServiceRequest) < Code(DiagnosticReport);
      case 26 => assert Code(DiagnosticReport) < Code(MedicationRequest);
      case 27 => assert Code(MedicationRequest) < Code(AllergyIntolerance);
      case _ =>
    }
  }

  lemma AscendingFrom28()
    ensures forall k :: 28 <= k < 32 ==> Code(Names[k]) < Code(Names[k + 1])
  {
    forall k | 28 <= k < 32 ensures Code(Names[k]) < Code(Names[k + 1]) {
      match k
      case 28 => assert Code(AllergyIntolerance) < Code(MedicationDispense);
      case 29 => assert Code(MedicationDispense) < Code(MedicationStatement);
      case 30 => assert Code(MedicationStatement) < Code(StructureDefinition);
      case 31 => assert Code(StructureDefinition) < Code(ExplanationOfBenefit);
      case _ =>
    }
  }

  lemma AscendingFrom32()
    ensures forall k :: 32 <= k < 33 ==> Code(Names[k]) < Code(Names[k + 1])
  {
    forall k | 32 <= k < 33 ensures Code(Names[k]) < Code(Names[k + 1]) {
      match k
      case 32 => assert Code(ExplanationOfBenefit) < Code(MedicationAdministration);
      case _ =>
    }
  }

  /** A name equal to a registered name ignoring case resolves to it. */
  lemma ResolvesIgnoringCase(name: string, k: string)
    requires k in Names && Lower(name) == Lower(k)
    ensures GetResourceType(name) == Some(k)
  {
    NamesAscending();
    ResolvesTo(Names, Names, name, k);
  }

  /** The iteration order of the registry map does not change the result. */
  lemma EnumerationOrderIrrelevant(order: seq<string>, name: string)
    requires Enumerates(Names, order)
    ensures LookupIn(Names, order, name) == GetResourceType(name)
  {
    NamesAscending();
    OrderIrrelevant(Names, order, Names, name);
  }

  /** The resource types the transformer's tests create all resolve. */
  lemma TestedTypesResolve()
    ensures forall n :: n in [Observation, Patient, Condition, MedicationRequest,
                              Procedure, Encounter, DiagnosticReport, Specimen]
              ==> GetResourceType(n) == Some(n)
  {
  }

  /** The lower-case spelling the tests use resolves to the registered one. */
  lemma LowerCaseSpellingResolves()
    ensures GetResourceType("observation") == Some(Observation)
  {
    assert Lower("observation") == Lower(Observation);
    ResolvesIgnoringCase("observation", Observation);
  }

  /** The unknown type the tests use does not resolve. */
  lemma UnknownTypeRejected()
    ensures GetResourceType("UnsupportedResource") == None
  {
    var u := "UnsupportedResource";
    NamesAscending();
    CodeBetween(Names, 31, Code(u));
    forall k | k in Names ensures Lower(k) != Lower(u) {
      FoldedCode(k, u);
    }
  }
}
