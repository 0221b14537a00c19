/** The mapping configuration (internal/config/mapping.go): FHIR path parsing,
    `${column}` template substitution and the column pre-check. */
module Mapping {
  import opened Wrappers
  import opened Text

  // ---------------------------------------------------------------------------
  // Paths
  // ---------------------------------------------------------------------------

  /** One component of a FHIR path such as `coding[0]`; `index` is Go's `*int`. */
  datatype Segment = Segment(field: string, index: Option<int>)

  datatype PathError =
    | EmptyPath
    | LeadingDot(path: string)
    | TrailingDot(path: string)
    | ConsecutiveDots(path: string)
    | EmptyFieldName(path: string)
    | InvalidArrayNotation(part: string)
    | InvalidArrayIndex(part: string)
    | NegativeIndex(index: int, part: string)
    | IndexTooLarge(index: int, part: string)

  /** The largest array index a path may carry. */
  const MaxIndex: int := 1000

  const Int64Min: int := -0x8000_0000_0000_0000
  const Int64Max: int := 0x7FFF_FFFF_FFFF_FFFF

  /** The blanks `fmt.Sscanf` skips before a `%d` operand: the characters of
      the `fmt` package's space table, that is `\t`, `\v`, `\f`, `\r`, space,
      U+0085, U+00A0, U+1680, U+2000 to U+200A, U+2028, U+2029, U+202F, U+205F
      and U+3000. A newline is not among them: `Sscanf` reports it as an
      unexpected newline, so an index led by one, or by `\r\n`, fails. */
  predicate IsBlank(c: char) {
    ('\t' <= c <= '\r' && c != '\n') || c == ' ' || c == '\U{85}' || c == '\U{A0}' ||
    c == '\U{1680}' || ('\U{2000}' <= c <= '\U{200A}') || c == '\U{2028}' || c == '\U{2029}' ||
    c == '\U{202F}' || c == '\U{205F}' || c == '\U{3000}'
  }

  function SkipBlanks(s: string): (r: string)
    ensures |r| > 0 ==> !IsBlank(r[0])
  {
    if |s| > 0 && IsBlank(s[0]) then SkipBlanks(s[1..]) else s
  }

  /** The longest prefix of decimal digits. */
  function LeadingDigits(s: string): (d: string)
    ensures forall i :: 0 <= i < |d| ==> IsDigit(d[i])
  {
    if |s| > 0 && IsDigit(s[0]) then [s[0]] + LeadingDigits(s[1..]) else ""
  }

  /** The text after an optional sign. */
  function Unsigned(t: string): string {
    if |t| > 0 && (t[0] == '-' || t[0] == '+') then t[1..] else t
  }

  /** The value of the digits read, negated after a `-`; -1 and the like
      outside int64 are errors. */
  function SignedValue(negative: bool, digits: string): (r: Option<int>)
    requires forall i :: 0 <= i < |digits| ==> IsDigit(digits[i])
    ensures r.Some? ==> Int64Min <= r.value <= Int64Max
  {
    if |digits| == 0 then None
    else
      var magnitude := DigitsValue(digits);
      var v: int := if negative then 0 - magnitude as int else magnitude;
      if v < Int64Min || v > Int64Max then None else Some(v)
  }

  /** `fmt.Sscanf(s, "%d", &index)`: blanks, an optional sign, at least one
      digit; text after the digits is ignored; a value outside int64 fails. */
  function ScanInt(s: string): (r: Option<int>)
    ensures r.Some? ==> Int64Min <= r.value <= Int64Max
  {
    var t := SkipBlanks(s);
    SignedValue(|t| > 0 && t[0] == '-', LeadingDigits(Unsigned(t)))
  }

  /** The body of the loop in `ParsePath` for one non-empty dot-separated part. */
  /** What a successfully parsed part yields: a part without `[` is a plain
      field name; a bracketed part keeps the text before the first `[` and
      carries an index in [0, 1000]. */
  predicate Describes(part: string, seg: Segment) {
    ('[' !in part ==> seg == Segment(part, None)) &&
    ('[' in part ==> seg.field == part[..IndexOf(part, '[')] && seg.index.Some?) &&
    (seg.index.Some? ==> 0 <= seg.index.value <= MaxIndex)
  }

  /** The checks on an index once the brackets are found: `%d` must read a
      number, and it must lie in [0, 1000]. */
  function IndexedSegment(field: string, indexStr: string, part: string): (r: Result<Segment, PathError>)
    ensures r.Success? ==> r.value.field == field && r.value.index.Some? &&
                           0 <= r.value.index.value <= MaxIndex
  {
    match ScanInt(indexStr)
    case None => Failure(InvalidArrayIndex(part))
    case Some(index) =>
      if index < 0 then Failure(NegativeIndex(index, part))
      else if index > MaxIndex then Failure(IndexTooLarge(index, part))
      else Success(Segment(field, Some(index)))
  }

  function ParsePart(part: string): (r: Result<Segment, PathError>)
    ensures '[' !in part ==> r.Success?
    ensures '[' in part && (']' !in part || IndexOf(part, ']') < IndexOf(part, '[')) ==>
              r == Failure(InvalidArrayNotation(part))
    ensures r.Success? ==> Describes(part, r.value)
  {
    if '[' in part then
      var openIdx := IndexOf(part, '[');
      var closeIdx := IndexOf(part, ']');
      if closeIdx == -1 || closeIdx < openIdx then Failure(InvalidArrayNotation(part))
      else IndexedSegment(part[..openIdx], part[openIdx + 1..closeIdx], part)
    else Success(Segment(part, None))
  }

  /** One iteration of the loop, including its empty-part guard. */
  function ParseStep(part: string, path: string): Result<Segment, PathError> {
    if part == "" then Failure(EmptyFieldName(path)) else ParsePart(part)
  }

  /** The outcome of each part, in order. */
  function Steps(parts: seq<string>, path: string): (r: seq<Result<Segment, PathError>>)
    ensures |r| == |parts|
    ensures forall k :: 0 <= k < |parts| ==> r[k] == ParseStep(parts[k], path)
  {
    seq(|parts|, k requires 0 <= k < |parts| => ParseStep(parts[k], path))
  }

  /** The loop's sequencing: outcomes in order, the first failure wins. */
  function Collect(steps: seq<Result<Segment, PathError>>): Result<seq<Segment>, PathError>
    decreases |steps|
  {
    if |steps| == 0 then Success([])
    else
      match Collect(steps[..|steps| - 1])
      case Failure(e) => Failure(e)
      case Success(segments) =>
        match steps[|steps| - 1]
        case Failure(e) => Failure(e)
        case Success(s) => Success(segments + [s])
  }

  /** What `ParsePath` computes. */
  function ParsedPath(path: string): Result<seq<Segment>, PathError> {
    if path == "" then Failure(EmptyPath)
    else if HasPrefix(path, ".") then Failure(LeadingDot(path))
    else if EndsWith(path, '.') then Failure(TrailingDot(path))
    else if ContainsPair(path, '.', '.') then Failure(ConsecutiveDots(path))
    else Collect(Steps(Split(path, '.'), path))
  }

  lemma {:induction false} CollectFailureSticks(steps: seq<Result<Segment, PathError>>, i: nat)
    requires i <= |steps|
    requires Collect(steps[..i]).Failure?
    ensures Collect(steps) == Collect(steps[..i])
    decreases |steps| - i
  {
    if i < |steps| {
      assert steps[..i + 1][..i] == steps[..i];
      CollectFailureSticks(steps, i + 1);
    } else {
      assert steps[..i] == steps;
    }
  }

  /** `ParsePath`: split on `.`, then one segment per part in source order. */
  method ParsePath(path: string) returns (r: Result<seq<Segment>, PathError>)
    ensures r == ParsedPath(path)
  {
    if path == "" {
      return Failure(EmptyPath);
    }
    if HasPrefix(path, ".") {
      return Failure(LeadingDot(path));
    }
    if EndsWith(path, '.') {
      return Failure(TrailingDot(path));
    }
    if ContainsPair(path, '.', '.') {
      return Failure(ConsecutiveDots(path));
    }
    var segments: seq<Segment> := [];
    var parts := Split(path, '.');
    ghost var steps := Steps(parts, path);
    var i := 0;
    while i < |parts|
      invariant 0 <= i <= |parts|
      invariant Collect(steps[..i]) == Success(segments)
    {
      var part := parts[i];
      assert steps[..i + 1][..i] == steps[..i];
      if part == "" {
        CollectFailureSticks(steps, i + 1);
        return Failure(EmptyFieldName(path));
      }
      var step := ParsePart(part);
      assert steps[i] == step;
      if step.Failure? {
        CollectFailureSticks(steps, i + 1);
        return Failure(step.error);
      }
      segments := segments + [step.value];
      i := i + 1;
    }
    assert steps[..i] == steps;
    return Success(segments);
  }

  /** When every outcome succeeds, the sequencing yields exactly their values. */
  lemma {:induction false} CollectAllSuccess(steps: seq<Result<Segment, PathError>>,
                                             values: seq<Segment>)
    requires |steps| == |values|
    requires forall k :: 0 <= k < |steps| ==> steps[k] == Success(values[k])
    ensures Collect(steps) == Success(values)
    decreases |steps|
  {
    if |steps| > 0 {
      var n := |steps| - 1;
      CollectAllSuccess(steps[..n], values[..n]);
      assert values[..n] + [values[n]] == values;
    }
  }

  /** The sequencing succeeds exactly when every outcome does, and then
      yields every value, in order. */
  lemma {:induction false} CollectPointwise(steps: seq<Result<Segment, PathError>>)
    ensures Collect(steps).Success? <==> forall k :: 0 <= k < |steps| ==> steps[k].Success?
    ensures Collect(steps).Success? ==>
              |Collect(steps).value| == |steps| &&
              forall k :: 0 <= k < |steps| ==> Collect(steps).value[k] == steps[k].value
    decreases |steps|
  {
    if |steps| > 0 {
      var init := steps[..|steps| - 1];
      CollectPointwise(init);
      assert forall k :: 0 <= k < |init| ==> init[k] == steps[k];
      if !Collect(init).Success? {
        var k :| 0 <= k < |init| && !init[k].Success?;
        assert !steps[k].Success?;
      }
    }
  }

  /** A path is rejected when it is empty, starts or ends with a dot or has two
      dots in a row. */
  lemma MalformedPathsRejected(path: string)
    requires path == "" || HasPrefix(path, ".") || EndsWith(path, '.') ||
             ContainsPair(path, '.', '.')
    ensures ParsedPath(path).Failure?
  {
  }

  /** On success there is one segment per dot-separated part, in order, each
      described by its part. */
  lemma ParsedPathSegments(path: string)
    requires ParsedPath(path).Success?
    ensures |ParsedPath(path).value| == |Split(path, '.')|
    ensures forall k :: 0 <= k < |Split(path, '.')| ==>
              Describes(Split(path, '.')[k], ParsedPath(path).value[k])
  {
    var parts := Split(path, '.');
    var steps := Steps(parts, path);
    assert ParsedPath(path) == Collect(steps);
    CollectPointwise(steps);
    forall k | 0 <= k < |parts|
      ensures Describes(parts[k], Collect(steps).value[k])
    {
      assert steps[k].Success? && steps[k] == ParseStep(parts[k], path);
    }
  }

  /** The guard against empty parts (mapping.go:155) never fires: the earlier
      checks already rule out empty parts. */
  lemma {:induction false} SplitPartsNonEmpty(path: string)
    requires path != "" && !HasPrefix(path, ".") && !EndsWith(path, '.')
    requires !ContainsPair(path, '.', '.')
    ensures forall k :: 0 <= k < |Split(path, '.')| ==> Split(path, '.')[k] != ""
    decreases |path|
  {
    assert path[0] != '.' by { assert path[..1] == [path[0]]; }
    var i := IndexOf(path, '.');
    if i != -1 {
      var rest := path[i + 1..];
      assert i != |path| - 1;
      assert path[i + 1] != '.';
      assert rest[0] == path[i + 1];
      assert !HasPrefix(rest, ".") by { assert rest[..1] == [rest[0]]; }
      assert !EndsWith(rest, '.') by { assert rest[|rest| - 1] == path[|path| - 1]; }
      forall j | 0 <= j < |rest| - 1
        ensures !(rest[j] == '.' && rest[j + 1] == '.')
      {
        assert rest[j] == path[i + 1 + j] && rest[j + 1] == path[i + 2 + j];
      }
      SplitPartsNonEmpty(rest);
    }
  }

  // ---- serialisation and the round trip ----------------------------------

  /** A segment the serialiser can spell unambiguously. */
  predicate WellFormedSegment(s: Segment) {
    |s.field| > 0 && '.' !in s.field && '[' !in s.field && ']' !in s.field &&
    (s.index.Some? ==> 0 <= s.index.value <= MaxIndex)
  }

  /** `name` or `name[i]`. */
  function Render(s: Segment): string
    requires WellFormedSegment(s)
  {
    match s.index
    case None => s.field
    case Some(i) => s.field + "[" + NatToString(i) + "]"
  }

  function RenderAll(segs: seq<Segment>): (parts: seq<string>)
    requires forall k :: 0 <= k < |segs| ==> WellFormedSegment(segs[k])
    ensures |parts| == |segs|
    ensures forall k :: 0 <= k < |segs| ==> parts[k] == Render(segs[k])
  {
    if |segs| == 0 then [] else [Render(segs[0])] + RenderAll(segs[1..])
  }

  /** The path text for a sequence of segments, joined by `.`. */
  function Serialize(segs: seq<Segment>): string
    requires forall k :: 0 <= k < |segs| ==> WellFormedSegment(segs[k])
  {
    Join(RenderAll(segs), '.')
  }

  lemma IndexOfAt(s: string, c: char, k: nat)
    requires k < |s| && s[k] == c && c !in s[..k]
    ensures IndexOf(s, c) == k
  {
    var r := IndexOf(s, c);
    forall x | 0 <= x < k
      ensures s[x] != c
    {
      assert s[..k][x] == s[x];
    }
    forall x | 0 <= x < r
      ensures s[x] != c
    {
      assert s[..r][x] == s[x];
    }
  }

  lemma {:induction false} LeadingDigitsAll(s: string)
    requires forall i :: 0 <= i < |s| ==> IsDigit(s[i])
    ensures LeadingDigits(s) == s
    decreases |s|
  {
    if |s| > 0 {
      LeadingDigitsAll(s[1..]);
      assert [s[0]] + s[1..] == s;
    }
  }

  /** `%d` on digits, with or without a leading `-`, reads exactly those digits. */
  lemma ScanIntReadsDigits(d: string)
    requires |d| > 0 && forall i :: 0 <= i < |d| ==> IsDigit(d[i])
    ensures ScanInt(d) == SignedValue(false, d)
    ensures ScanInt(['-'] + d) == SignedValue(true, d)
  {
    assert IsDigit(d[0]);
    assert SkipBlanks(d) == d && Unsigned(d) == d;
    var t := ['-'] + d;
    assert t[1..] == d;
    assert SkipBlanks(t) == t && Unsigned(t) == d;
    LeadingDigitsAll(d);
  }

  lemma SignedValueInRange(negative: bool, d: string)
    requires |d| > 0 && forall i :: 0 <= i < |d| ==> IsDigit(d[i])
    requires DigitsValue(d) <= Int64Max
    ensures SignedValue(negative, d) ==
            Some(if negative then 0 - DigitsValue(d) as int else DigitsValue(d))
  {
  }

  /** `%d` on a plain digit string. */
  lemma ScanIntOfDigits(d: string)
    requires |d| > 0 && forall i :: 0 <= i < |d| ==> IsDigit(d[i])
    requires DigitsValue(d) <= Int64Max
    ensures ScanInt(d) == Some(DigitsValue(d))
  {
    ScanIntReadsDigits(d);
    SignedValueInRange(false, d);
  }

  /** `%d` on a `-` followed by a plain digit string. */
  lemma ScanIntOfNegativeDigits(d: string)
    requires |d| > 0 && forall i :: 0 <= i < |d| ==> IsDigit(d[i])
    requires DigitsValue(d) <= Int64Max
    ensures ScanInt(['-'] + d) == Some(0 - DigitsValue(d) as int)
  {
    ScanIntReadsDigits(d);
    SignedValueInRange(true, d);
  }

  /** `%d` reads back the decimal spelling of any natural number in int64 range. */
  lemma ScanIntOfNatToString(n: nat)
    requires n <= Int64Max
    ensures ScanInt(NatToString(n)) == Some(n)
  {
    DigitsValueOfNatToString(n);
    ScanIntOfDigits(NatToString(n));
  }

  /** `name[inner]` hands `name` and `inner` to the index checks. */
  lemma BracketPart(name: string, inner: string)
    requires '[' !in name && ']' !in name && ']' !in inner
    ensures var part := name + "[" + inner + "]";
            ParsePart(part) == IndexedSegment(name, inner, part)
  {
    var part := name + "[" + inner + "]";
    assert part[..|name|] == name;
    assert part[|name|] == '[';
    IndexOfAt(part, '[', |name|);
    assert part[..|name| + 1 + |inner|] == name + "[" + inner;
    IndexOfAt(part, ']', |name| + 1 + |inner|);
    assert part[|name| + 1..|name| + 1 + |inner|] == inner;
  }

  lemma DigitsFreeOfBrackets(d: string)
    requires forall x :: 0 <= x < |d| ==> IsDigit(d[x])
    ensures ']' !in d && '[' !in d && '.' !in d
  {
    forall x | 0 <= x < |d|
      ensures d[x] != ']' && d[x] != '[' && d[x] != '.'
    {
      assert IsDigit(d[x]);
    }
  }

  /** `name[i]`: accepted with index `i` up to 1000, rejected as too large above. */
  lemma BracketedIndex(name: string, i: nat)
    requires '[' !in name && ']' !in name && i <= Int64Max
    ensures var part := name + "[" + NatToString(i) + "]";
            ParsePart(part) == if i <= MaxIndex then Success(Segment(name, Some(i)))
                               else Failure(IndexTooLarge(i, part))
  {
    var d := NatToString(i);
    DigitsFreeOfBrackets(d);
    BracketPart(name, d);
    ScanIntOfNatToString(i);
  }

  /** `name[-i]` with `i > 0` is rejected as a negative index. */
  lemma NegativeIndexRejected(name: string, i: nat)
    requires '[' !in name && ']' !in name && 0 < i <= Int64Max
    ensures var part := name + "[" + (['-'] + NatToString(i)) + "]";
            ParsePart(part) == Failure(NegativeIndex(0 - i as int, part))
  {
    var d := NatToString(i);
    DigitsFreeOfBrackets(d);
    BracketPart(name, ['-'] + d);
    DigitsValueOfNatToString(i);
    ScanIntOfNegativeDigits(d);
  }

  /** A bracket whose text does not start like a number is an invalid index. */
  lemma NonNumericIndexRejected(name: string, inner: string)
    requires '[' !in name && ']' !in name && ']' !in inner
    requires |inner| == 0 || (!IsDigit(inner[0]) && !IsBlank(inner[0]) &&
                              inner[0] != '-' && inner[0] != '+')
    ensures var part := name + "[" + inner + "]";
            ParsePart(part) == Failure(InvalidArrayIndex(part))
  {
    BracketPart(name, inner);
    assert SkipBlanks(inner) == inner && Unsigned(inner) == inner;
    assert LeadingDigits(inner) == "";
  }

  /** A blank before the digits does not change what `%d` reads. */
  lemma ScanIntAfterBlank(blank: char, d: string)
    requires IsBlank(blank) && |d| > 0 && IsDigit(d[0])
    ensures ScanInt([blank] + d) == ScanInt(d)
  {
    assert ([blank] + d)[1..] == d;
  }

  /** Any space of the table may precede the index, a no-break space or a
      vertical tab among them: `name[` blank `i]` is index `i`. */
  lemma SpacedIndexAccepted(name: string, blank: char, i: nat)
    requires '[' !in name && ']' !in name && IsBlank(blank) && i <= MaxIndex
    ensures var part := name + "[" + ([blank] + NatToString(i)) + "]";
            ParsePart(part) == Success(Segment(name, Some(i)))
  {
    var d := NatToString(i);
    DigitsFreeOfBrackets(d);
    assert ']' !in [blank] + d;
    BracketPart(name, [blank] + d);
    DigitsValueOfNatToString(i);
    ScanIntAfterBlank(blank, d);
    ScanIntOfNatToString(i);
  }

  /** A newline before the index is an error, alone or after a carriage return. */
  lemma NewlineIndexRejected()
    ensures ScanInt("\n1") == None && ScanInt("\r\n1") == None
  {
    assert SkipBlanks("\r\n1") == "\n1";
  }

  lemma RenderParses(s: Segment)
    requires WellFormedSegment(s)
    ensures ParsePart(Render(s)) == Success(s)
  {
    if s.index.Some? {
      BracketedIndex(s.field, s.index.value);
    }
  }

  lemma RenderShape(s: Segment)
    requires WellFormedSegment(s)
    ensures var r := Render(s);
            |r| > 0 && '.' !in r && r[0] != '.' && r[|r| - 1] != '.'
  {
    if s.index.Some? {
      var d := NatToString(s.index.value);
      DigitsFreeOfBrackets(d);
      var r := Render(s);
      assert r == s.field + "[" + d + "]";
      assert r[0] == s.field[0];
    }
  }

  lemma {:induction false} JoinShape(parts: seq<string>, sep: char)
    requires |parts| >= 1
    requires forall k :: 0 <= k < |parts| ==> |parts[k]| > 0 && sep !in parts[k]
    ensures var s := Join(parts, sep);
            |s| > 0 && s[0] == parts[0][0] &&
            s[|s| - 1] == parts[|parts| - 1][|parts[|parts| - 1]| - 1] &&
            !ContainsPair(s, sep, sep)
    decreases |parts|
  {
    if |parts| > 1 {
      var head := parts[0];
      var rest := Join(parts[1..], sep);
      JoinShape(parts[1..], sep);
      var s := Join(parts, sep);
      assert s == head + [sep] + rest;
      assert rest[0] == parts[1][0] && parts[1][0] in parts[1];
      forall i | 0 <= i < |s| - 1
        ensures !(s[i] == sep && s[i + 1] == sep)
      {
        if i < |head| {
          assert s[i] == head[i];
        } else if i == |head| {
          assert s[i + 1] == rest[0];
        } else {
          assert s[i] == rest[i - |head| - 1] && s[i + 1] == rest[i - |head|];
        }
      }
    }
  }

  /** Round trip: well-formed segments, serialised and parsed again, come back
      unchanged. */
  lemma ParsePathRoundTrip(segs: seq<Segment>)
    requires |segs| >= 1
    requires forall k :: 0 <= k < |segs| ==> WellFormedSegment(segs[k])
    ensures ParsedPath(Serialize(segs)) == Success(segs)
  {
    var parts := RenderAll(segs);
    var path := Join(parts, '.');
    forall k | 0 <= k < |parts|
      ensures |parts[k]| > 0 && '.' !in parts[k] && parts[k][0] != '.' &&
              parts[k][|parts[k]| - 1] != '.'
    {
      RenderShape(segs[k]);
    }
    assert path != "" && !HasPrefix(path, ".") && !EndsWith(path, '.') &&
           !ContainsPair(path, '.', '.') by {
      JoinShape(parts, '.');
      assert path[..1] == [path[0]];
    }
    SplitJoin(parts, '.');
    var steps := Steps(parts, path);
    assert ParsedPath(path) == Collect(steps);
    forall k | 0 <= k < |parts|
      ensures steps[k] == Success(segs[k])
    {
      RenderParses(segs[k]);
    }
    CollectAllSuccess(steps, segs);
  }

  // ---------------------------------------------------------------------------
  // Templates: `${column}` placeholders
  // ---------------------------------------------------------------------------

  /** The position of the first `}` at or after `k`, or -1. */
  function BraceFrom(t: string, k: nat): (r: int)
    ensures r == -1 || (k <= r < |t| && t[r] == '}')
    decreases |t| - k
  {
    if k >= |t| then -1 else if t[k] == '}' then k else BraceFrom(t, k + 1)
  }

  lemma {:induction false} BraceFromFirst(t: string, k: nat, r: nat)
    requires k <= r < |t| && t[r] == '}'
    requires forall x :: k <= x < r ==> t[x] != '}'
    ensures BraceFrom(t, k) == r
    decreases r - k
  {
    if k < r {
      BraceFromFirst(t, k + 1, r);
    }
  }

  /** Where a placeholder starting at position `i` closes: the first `}` when
      `${` stands at `i` and at least one character comes before that `}` (the
      regular expression `\$\{([^}]+)\}`), otherwise -1. */
  function CloseAt(t: string, i: nat): (j: int)
    ensures j == -1 || (i + 3 <= j < |t| && t[i] == '$' && t[i + 1] == '{' && t[j] == '}')
  {
    if i + 1 < |t| && t[i] == '$' && t[i + 1] == '{' then
      var k := BraceFrom(t, i + 2);
      if k > i + 2 then k else -1
    else -1
  }

  /** Where the scan resumes after position `i`: past a whole placeholder, or
      past one character. Matches never overlap. */
  function Next(t: string, i: nat): (n: nat)
    requires i < |t|
    ensures i < n <= |t|
  {
    var j := CloseAt(t, i);
    if j >= 0 then j + 1 else i + 1
  }

  /** The result of substituting a template: the text, and the names of the
      placeholders whose column the row lacks, in template order. */
  datatype Expansion = Expansion(text: string, missing: seq<string>)

  function Concat(a: Expansion, b: Expansion): Expansion {
    Expansion(a.text + b.text, a.missing + b.missing)
  }

  lemma ConcatAssoc(a: Expansion, b: Expansion, c: Expansion)
    ensures Concat(Concat(a, b), c) == Concat(a, Concat(b, c))
  {
    assert (a.text + b.text) + c.text == a.text + (b.text + c.text);
    assert (a.missing + b.missing) + c.missing == a.missing + (b.missing + c.missing);
  }

  /** What the scan emits for the text between `i` and `Next(t, i)`: the row
      value of a known column, the literal placeholder (and its name) for an
      unknown one, or the character itself. */
  function HeadAt(t: string, i: nat, row: map<string, string>): Expansion
    requires i < |t|
  {
    var j := CloseAt(t, i);
    if j >= 0 then
      var name := t[i + 2..j];
      if name in row then Expansion(row[name], []) else Expansion(t[i..j + 1], [name])
    else Expansion([t[i]], [])
  }

  function ExpandFrom(t: string, i: nat, row: map<string, string>): Expansion
    requires i <= |t|
    decreases |t| - i
  {
    if i == |t| then Expansion("", [])
    else Concat(HeadAt(t, i, row), ExpandFrom(t, Next(t, i), row))
  }

  /** What `SubstituteVariables` computes. Inserted values are not scanned again. */
  function Expand(t: string, row: map<string, string>): Expansion {
    ExpandFrom(t, 0, row)
  }

  /** The name of a placeholder starting at `i`, if any. */
  function NamesAt(t: string, i: nat): seq<string>
    requires i < |t|
  {
    var j := CloseAt(t, i);
    if j >= 0 then [t[i + 2..j]] else []
  }

  function PlaceholdersFrom(t: string, i: nat): seq<string>
    requires i <= |t|
    decreases |t| - i
  {
    if i == |t| then [] else NamesAt(t, i) + PlaceholdersFrom(t, Next(t, i))
  }

  /** The placeholder names of a template, in order (what `extractVariables` returns). */
  function Placeholders(t: string): seq<string> {
    PlaceholdersFrom(t, 0)
  }

  /** The names among `names` that the row has no column for, in order. */
  function Absent(names: seq<string>, row: map<string, string>): (r: seq<string>)
    ensures forall n :: n in r <==> n in names && n !in row
  {
    if |names| == 0 then []
    else if names[0] in row then Absent(names[1..], row)
    else [names[0]] + Absent(names[1..], row)
  }

  lemma {:induction false} AbsentAppend(a: seq<string>, b: seq<string>, row: map<string, string>)
    ensures Absent(a + b, row) == Absent(a, row) + Absent(b, row)
  {
    if |a| > 0 {
      assert (a + b)[1..] == a[1..] + b;
      AbsentAppend(a[1..], b, row);
    } else {
      assert a + b == b;
    }
  }

  lemma ExpandStep(t: string, i: nat, row: map<string, string>)
    requires i < |t|
    ensures ExpandFrom(t, i, row) == Concat(HeadAt(t, i, row), ExpandFrom(t, Next(t, i), row))
  {
  }

  /** `SubstituteVariables`: the substituted text and the missing names; the
      Go function returns an error exactly when `missingVars` is non-empty. */
  method SubstituteVariables(template: string, row: map<string, string>)
    returns (result: string, missingVars: seq<string>)
    ensures Expansion(result, missingVars) == Expand(template, row)
  {
    result, missingVars := "", [];
    var i := 0;
    while i < |template|
      invariant 0 <= i <= |template|
      invariant Expand(template, row) ==
                Concat(Expansion(result, missingVars), ExpandFrom(template, i, row))
    {
      ghost var acc := Expansion(result, missingVars);
      ghost var i0 := i;
      var j := CloseAt(template, i);
      if j >= 0 {
        var name := template[i + 2..j];
        if name in row {
          result := result + row[name];
        } else {
          result := result + template[i..j + 1];
          missingVars := missingVars + [name];
        }
        i := j + 1;
      } else {
        result := result + [template[i]];
        i := i + 1;
      }
      assert Next(template, i0) == i;
      assert Expansion(result, missingVars) == Concat(acc, HeadAt(template, i0, row));
      ExpandStep(template, i0, row);
      ConcatAssoc(acc, HeadAt(template, i0, row), ExpandFrom(template, i, row));
    }
    assert result + "" == result && missingVars + [] == missingVars;
  }

  lemma PlaceholdersStep(t: string, i: nat)
    requires i < |t|
    ensures PlaceholdersFrom(t, i) == NamesAt(t, i) + PlaceholdersFrom(t, Next(t, i))
  {
  }

  lemma AppendAssoc<T>(a: seq<T>, b: seq<T>, c: seq<T>)
    ensures a + (b + c) == (a + b) + c
  {
  }

  /** `extractVariables`: the placeholder names of a template, in order. */
  method ExtractVariables(template: string) returns (vars: seq<string>)
    ensures vars == Placeholders(template)
  {
    vars := [];
    var i := 0;
    while i < |template|
      invariant 0 <= i <= |template|
      invariant Placeholders(template) == vars + PlaceholdersFrom(template, i)
    {
      var j := CloseAt(template, i);
      ghost var before := vars;
      ghost var i0 := i;
      if j >= 0 {
        vars := vars + [template[i + 2..j]];
        i := j + 1;
      } else {
        i := i + 1;
      }
      assert Next(template, i0) == i;
      assert vars == before + NamesAt(template, i0);
      PlaceholdersStep(template, i0);
      AppendAssoc(before, NamesAt(template, i0), PlaceholdersFrom(template, i));
    }
    assert vars + [] == vars;
  }

  /** Text without `${` is copied unchanged and nothing is missing. */
  lemma {:induction false} NoPlaceholderFrom(t: string, i: nat, row: map<string, string>)
    requires i <= |t|
    requires !ContainsPair(t, '$', '{')
    ensures ExpandFrom(t, i, row) == Expansion(t[i..], [])
    decreases |t| - i
  {
    if i < |t| {
      if i + 1 < |t| {
        assert !(t[i] == '$' && t[i + 1] == '{');
      }
      assert Next(t, i) == i + 1 && HeadAt(t, i, row) == Expansion([t[i]], []);
      NoPlaceholderFrom(t, i + 1, row);
      assert [t[i]] + t[i + 1..] == t[i..];
    }
  }

  /** A template without `${` is returned unchanged and nothing is missing. */
  lemma NoPlaceholderUnchanged(t: string, row: map<string, string>)
    requires !ContainsPair(t, '$', '{')
    ensures Expand(t, row) == Expansion(t, [])
  {
    NoPlaceholderFrom(t, 0, row);
  }

  lemma {:induction false} MissingFrom(t: string, i: nat, row: map<string, string>)
    requires i <= |t|
    ensures ExpandFrom(t, i, row).missing == Absent(PlaceholdersFrom(t, i), row)
    decreases |t| - i
  {
    if i < |t| {
      MissingFrom(t, Next(t, i), row);
      AbsentAppend(NamesAt(t, i), PlaceholdersFrom(t, Next(t, i)), row);
    }
  }

  /** The missing names are exactly the template's placeholders that the row
      lacks, in template order (every one is reported, not just the first). */
  lemma MissingAreAbsentPlaceholders(t: string, row: map<string, string>)
    ensures Expand(t, row).missing == Absent(Placeholders(t), row)
  {
    MissingFrom(t, 0, row);
  }

  /** Substitution can only fail on a `${` occurrence, so the branch of
      `Transform` that tolerates a failing default without `${` never runs. */
  lemma MissingNeedsPlaceholderSyntax(t: string, row: map<string, string>)
    requires Expand(t, row).missing != []
    ensures ContainsPair(t, '$', '{')
  {
    if !ContainsPair(t, '$', '{') {
      NoPlaceholderUnchanged(t, row);
    }
  }

  /** Substitution succeeds exactly when every placeholder names a column of the row. */
  lemma SubstitutionSucceedsIff(t: string, row: map<string, string>)
    ensures Expand(t, row).missing == [] <==> forall n :: n in Placeholders(t) ==> n in row
  {
    MissingAreAbsentPlaceholders(t, row);
    var a := Absent(Placeholders(t), row);
    if a != [] {
      assert a[0] in a;
    }
  }

  /** A template that is a single placeholder becomes the row value verbatim,
      even when that value itself looks like a placeholder; an unknown column
      stays literal and is reported. */
  lemma SinglePlaceholder(name: string, row: map<string, string>)
    requires |name| > 0 && '}' !in name
    ensures var t := "${" + name + "}";
            Expand(t, row) == if name in row then Expansion(row[name], [])
                              else Expansion(t, [name])
  {
    var t := "${" + name + "}";
    forall x | 2 <= x < |name| + 2
      ensures t[x] != '}'
    {
      assert t[x] == name[x - 2];
    }
    BraceFromFirst(t, 2, |name| + 2);
    assert t[2..|name| + 2] == name;
    assert t[0..|name| + 3] == t;
    assert ExpandFrom(t, |name| + 3, row) == Expansion("", []);
  }

  // ---------------------------------------------------------------------------
  // The configuration and its column pre-check
  // ---------------------------------------------------------------------------

  /** The decoded YAML document before normalisation: nil maps are `None`. */
  datatype Decoded = Decoded(resource: string, idColumn: string,
                             mappings: Option<map<string, string>>,
                             defaults: Option<map<string, string>>)

  /** The decoded mapping after `LoadMapping`'s checks. */
  datatype MappingSpec = MappingSpec(resource: string, idColumn: string,
                                     mappings: map<string, string>,
                                     defaults: map<string, string>)

  datatype LoadError = ResourceTypeRequired

  /** `LoadMapping` after decoding: the resource type is required and absent
      maps become empty maps. */
  function Normalize(d: Decoded): (r: Result<MappingSpec, LoadError>)
    ensures r.Failure? <==> d.resource == ""
    ensures r.Success? ==> r.value.resource == d.resource && r.value.idColumn == d.idColumn
    ensures r.Success? && d.mappings.Some? ==> r.value.mappings == d.mappings.value
    ensures r.Success? && d.mappings.None? ==> r.value.mappings == map[]
    ensures r.Success? && d.defaults.Some? ==> r.value.defaults == d.defaults.value
    ensures r.Success? && d.defaults.None? ==> r.value.defaults == map[]
  {
    if d.resource == "" then Failure(ResourceTypeRequired)
    else
      Success(MappingSpec(d.resource, d.idColumn,
                          match d.mappings case Some(m) => m case None => map[],
                          match d.defaults case Some(m) => m case None => map[]))
  }

  /** Every placeholder name used by the mappings whose target path is in `keys`. */
  function NamesUsed(m: map<string, string>, keys: set<string>): set<string> {
    set p, n | p in keys && p in m && n in Placeholders(m[p]) :: n
  }

  /** The elements of a sequence. */
  function Elements(s: seq<string>): set<string> {
    set x | x in s
  }

  lemma ElementsFrom(s: seq<string>, i: nat)
    requires i < |s|
    ensures Elements(s[i..]) == {s[i]} + Elements(s[i + 1..])
  {
    assert s[i..] == [s[i]] + s[i + 1..];
  }

  /** Visiting one more mapping adds the columns its template uses. */
  lemma NamesUsedStep(m: map<string, string>, done: set<string>, p: string,
                      idPart: set<string>, columns: set<string>)
    requires p in m
    ensures idPart + (NamesUsed(m, done) - columns) + (Elements(Placeholders(m[p])) - columns) ==
            idPart + (NamesUsed(m, done + {p}) - columns)
  {
    assert NamesUsed(m, done + {p}) == NamesUsed(m, done) + Elements(Placeholders(m[p]));
  }

  /** The columns the configuration refers to that `columns` lacks: the
      non-empty id column and every placeholder of every mapping (defaults
      are not checked). */
  function MissingColumns(spec: MappingSpec, columns: set<string>): set<string> {
    (if spec.idColumn != "" && spec.idColumn !in columns then {spec.idColumn} else {}) +
    (NamesUsed(spec.mappings, spec.mappings.Keys) - columns)
  }

  /** A configuration passes the column check exactly when the id column
      (if any) and every placeholder of every mapping name a column. */
  lemma NoMissingColumnsIff(spec: MappingSpec, columns: set<string>)
    ensures MissingColumns(spec, columns) == {} <==>
      (spec.idColumn == "" || spec.idColumn in columns) &&
      forall p, n :: p in spec.mappings && n in Placeholders(spec.mappings[p]) ==> n in columns
  {
    if MissingColumns(spec, columns) == {} {
      forall p, n | p in spec.mappings && n in Placeholders(spec.mappings[p])
        ensures n in columns
      {
        assert n in NamesUsed(spec.mappings, spec.mappings.Keys);
        assert n !in columns ==> n in MissingColumns(spec, columns);
      }
    }
  }

  /** After a passing column check, a row holding every column substitutes
      every mapping template without a missing column. */
  lemma CheckedColumnsSubstitute(spec: MappingSpec, columns: set<string>, row: map<string, string>)
    requires MissingColumns(spec, columns) == {} && columns <= row.Keys
    ensures forall p :: p in spec.mappings ==> Expand(spec.mappings[p], row).missing == []
  {
    NoMissingColumnsIff(spec, columns);
    forall p | p in spec.mappings
      ensures Expand(spec.mappings[p], row).missing == []
    {
      SubstitutionSucceedsIff(spec.mappings[p], row);
    }
  }

  /** `MappingConfig`: the decoded mapping plus the attached CSV column set
      (Go's `csvColumns map[string]bool`, holding only `true`). */
  class MappingConfig {
    var spec: MappingSpec
    var csvColumns: set<string>

    constructor (spec: MappingSpec)
      ensures this.spec == spec && csvColumns == {}
    {
      this.spec := spec;
      csvColumns := {};
    }

    /** `SetCSVColumns`: the column set becomes exactly the given names. */
    method SetCSVColumns(columns: seq<string>)
      modifies this
      ensures csvColumns == set c | c in columns
      ensures spec == old(spec)
    {
      csvColumns := {};
      var i := 0;
      while i < |columns|
        invariant 0 <= i <= |columns|
        invariant csvColumns == set c | c in columns[..i]
        invariant spec == old(spec)
      {
        assert columns[..i + 1] == columns[..i] + [columns[i]];
        csvColumns := csvColumns + {columns[i]};
        i := i + 1;
      }
      assert columns[..i] == columns;
    }

    /** `ValidateColumns`: the set of missing columns; the Go method fails
        exactly when it is non-empty. Mappings are visited in no fixed order. */
    method ValidateColumns() returns (missing: set<string>)
      ensures missing == MissingColumns(spec, csvColumns)
    {
      var idPart: set<string> := {};
      if spec.idColumn != "" && spec.idColumn !in csvColumns {
        idPart := {spec.idColumn};
      }
      missing := idPart;
      var todo := spec.mappings.Keys;
      ghost var done: set<string> := {};
      while todo != {}
        invariant todo + done == spec.mappings.Keys && todo !! done
        invariant missing == idPart + (NamesUsed(spec.mappings, done) - csvColumns)
        decreases todo
      {
        var p :| p in todo;
        var cols := ExtractVariables(spec.mappings[p]);
        var i := 0;
        ghost var target := missing + (Elements(cols) - csvColumns);
        while i < |cols|
          invariant 0 <= i <= |cols|
          invariant target == missing + (Elements(cols[i..]) - csvColumns)
        {
          ElementsFrom(cols, i);
          if cols[i] !in csvColumns {
            missing := missing + {cols[i]};
          }
          i := i + 1;
        }
        assert Elements(cols[i..]) == {};
        NamesUsedStep(spec.mappings, done, p, idPart, csvColumns);
        todo := todo - {p};
        done := done + {p};
      }
    }
  }

  /** `LoadMapping` from an already decoded document: a fresh configuration
      with an empty column set. */
  method LoadMapping(d: Decoded) returns (r: Result<MappingConfig, LoadError>)
    ensures r.Failure? <==> d.resource == ""
    ensures r.Success? ==> fresh(r.value) && r.value.spec == Normalize(d).value &&
                           r.value.csvColumns == {}
  {
    var n := Normalize(d);
    if n.Failure? {
      return Failure(n.error);
    }
    var cfg := new MappingConfig(n.value);
    return Success(cfg);
  }
}
