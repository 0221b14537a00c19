# csv2fhir in Dafny

csv2fhir converts the rows of a CSV file into FHIR resources, as a bundle or as NDJSON. A YAML mapping configuration drives the conversion. It names one resource type, an optional id column, and two maps from FHIR path to template. The `mappings` map fills fields from `${column}` placeholders. The `defaults` map holds values applied first.

This project models the converter's core:

- **Mapping configuration** (`Mapping`): loading, the column check, placeholder substitution, and parsing a FHIR path such as `code.coding[0].system` into segments.
- **Resource registry** (`Registry`): resolving a resource type name, exactly or ignoring case.
- **Transformer** (`Transform`, `Transformers`): builds a resource from a row.
  - Go's reflection over the FHIR structs is replaced by an explicit type universe and a value tree (`Graph`).
  - Field writes are functions from a value to the updated value.
  - An optional validator runs after each build.
- **Validators** (`Validation`, `RequiredFields`, `DateTimes`, `References`, `Validators`): required fields, ISO 8601 date/times and references, and the composite validator that runs them in order.
- **CSV reader** (`CsvReader`): the header row, then rows as maps numbered from 2.
- **Output writer** (`Output`): NDJSON lines, or a bundle buffered up to a resource ceiling.
- **Driver** (`Pipeline`): the delimiter flag, the choice of transformer, the column check, and the consumer loop.
  - The consumer loop counts rows, errors and rows with validation issues.
  - It hands what passes to the writer.

Where the source changes state step by step, so does the model.

- **Classes:** `MappingConfig`, `Reader` and `Writer` are classes whose methods are proved against step functions on a state value. `WriteStep`, `CloseStep`, `ReadStep` and `ReadAllFrom` are examples.
- **Loops:** loops are methods with invariants. Examples are `ParsePath`, `SubstituteVariables`, `ValidateColumns`, `Transform`, each validator's `Validate`, `FormatErrors` and `Consume`.
- **Lemmas:** they are stated about those functions. They cover:
  - round trips: rendering and re-parsing a path, formatting and re-parsing integers and booleans, `ParseFormat` of a format name;
  - get-after-set and frame properties of field writes;
  - last-write-wins for mappings over defaults;
  - soundness and completeness of each validator's issue list;
  - the counting laws of the consumer.

## Model

| member | source | states |
|---|---|---|
| Text.IndexOf | internal/config/mapping.go:160-161 | `strings.Index` for one character: -1 exactly when absent, otherwise the first position holding it |
| Text.Split | internal/config/mapping.go:151 | `strings.Split` on one separator: at least one part, no part containing the separator |
| Text.SplitJoin | internal/validation/validator.go:126 | joining parts free of the separator and splitting again gives the parts back |
| Text.Lower | internal/transform/registry.go:67 | `strings.ToLower` keeps the length and lowers each ASCII letter |
| Text.DigitsValueOfNatToString | internal/transform/transform.go:268 | the decimal text of a natural number reads back as that number |
| Graph.Capitalize | internal/transform/transform.go:167-168 | the Go field name keeps the length, upper-cases the first letter and keeps the rest |
| Graph.ZeroHasType | internal/transform/transform.go:185 | the zero value of every type has that type, so grown slices stay well-typed |
| Mapping.SkipBlanks | internal/config/mapping.go:171 | the integer scan starts after the blanks of the `fmt` space table (tab, vertical tab, form feed, carriage return, space and the Unicode spaces); a newline is not one of them |
| Mapping.ScanInt | internal/config/mapping.go:171 | `Sscanf("%d")` gives a value only inside the int64 range |
| Mapping.ScanIntOfDigits | internal/config/mapping.go:171 | a digit string within int64 scans as its value |
| Mapping.ScanIntOfNegativeDigits | internal/config/mapping.go:171 | a minus sign and digits scan as the negated value |
| Mapping.ScanIntOfNatToString | internal/config/mapping.go:171 | the decimal text of any int64-sized natural number scans back to it |
| Mapping.IndexedSegment | internal/config/mapping.go:170-186 | an accepted index is between 0 and 1000 and the field name is kept |
| Mapping.ParsePart | internal/config/mapping.go:154-192 | a part without `[` always parses; a missing or misplaced `]` is the array-notation error; a parsed segment describes its part |
| Mapping.ParsePath | internal/config/mapping.go:131-196 | the parsing loop returns exactly the path parse (first failing part's error, else one segment per part) |
| Mapping.CollectFailureSticks | internal/config/mapping.go:153-157 | once a part fails, the later parts do not change the result |
| Mapping.CollectPointwise | internal/config/mapping.go:183-191 | the segments are collected exactly when every part succeeds, one per part in order |
| Mapping.MalformedPathsRejected | internal/config/mapping.go:133-148 | an empty path, a leading or trailing dot, or two dots in a row are rejected |
| Mapping.ParsedPathSegments | internal/config/mapping.go:150-195 | a parsed path has one segment per dot-separated part, each describing its part |
| Mapping.SplitPartsNonEmpty | internal/config/mapping.go:155-157 | after the dot checks no part is empty, so the empty-field error cannot fire |
| Mapping.BracketPart | internal/config/mapping.go:159-168 | `name[inner]` is split into its field and index text |
| Mapping.BracketedIndex | internal/config/mapping.go:176-186 | `name[i]` gives segment `(name, i)` for i up to 1000 and the too-large error above |
| Mapping.NegativeIndexRejected | internal/config/mapping.go:176-178 | `name[-i]` is the negative-index error carrying -i |
| Mapping.NonNumericIndexRejected | internal/config/mapping.go:171-173 | an index text whose first character is no digit, no sign and no space of the `fmt` table (a newline included) is the invalid-index error |
| Mapping.ScanIntAfterBlank | internal/config/mapping.go:171 | a space of the `fmt` table before the digits does not change the number read |
| Mapping.SpacedIndexAccepted | internal/config/mapping.go:159-186 | `name[`, any space of the `fmt` table, then `i]` parses to index `i`; a no-break space and a vertical tab are such spaces |
| Mapping.NewlineIndexRejected | internal/config/mapping.go:171-173 | an index led by a newline, alone or after a carriage return, is not read |
| Mapping.RenderParses | internal/config/mapping.go:159-192 | a well-formed segment, rendered as text, parses back to itself |
| Mapping.ParsePathRoundTrip | internal/config/mapping.go:131-196 | a well-formed segment list, serialised with dots, parses back to itself |
| Mapping.SubstituteVariables | internal/config/mapping.go:98-116 | the scanning loop gives the text with found placeholders replaced and the missing names, as `Expand` defines them |
| Mapping.ExtractVariables | internal/config/mapping.go:119-128 | the scanning loop returns every placeholder name in order |
| Mapping.Expand | internal/config/mapping.go:98-116 | defines what substitution gives: the template scanned once from the left, each `${name}` whose column the row has replaced by the cell, each missing name kept as written and listed in order, inserted text not scanned again |
| Mapping.Placeholders | internal/config/mapping.go:119-128 | defines the placeholder names of a template, in order of appearance, scanned as substitution scans it |
| Mapping.Absent | internal/config/mapping.go:103-107 | the missing names are exactly the names not in the row |
| Mapping.NoPlaceholderUnchanged | internal/config/mapping.go:100-109 | a template without `${` is returned unchanged with nothing missing |
| Mapping.MissingAreAbsentPlaceholders | internal/config/mapping.go:103-112 | the missing list is the template's placeholders that the row lacks, in order |
| Mapping.MissingNeedsPlaceholderSyntax | internal/transform/transform.go:47-53 | a template can report missing columns only if it contains `${`, so a default whose substitution fails always rejects the row |
| Mapping.SubstitutionSucceedsIff | internal/config/mapping.go:111-115 | substitution succeeds exactly when every placeholder names a column of the row |
| Mapping.SinglePlaceholder | internal/config/mapping.go:100-109 | `${name}` becomes the row's value, or stays as written with `name` missing |
| Mapping.Normalize | internal/config/mapping.go:41-55 | an empty resource type is the only load error; absent maps become empty maps; the other fields are kept |
| Mapping.LoadMapping | internal/config/mapping.go:30-56 | a fresh configuration holding the normalised document and no columns, or the resource-type error |
| Mapping.MappingConfig.constructor | internal/config/mapping.go:53 | a new configuration has no columns |
| Mapping.MappingConfig.SetCSVColumns | internal/config/mapping.go:59-64 | the column set becomes exactly the given headers; the mapping is unchanged |
| Mapping.MappingConfig.ValidateColumns | internal/config/mapping.go:67-94 | the visiting loop returns exactly the missing id column and missing placeholder columns |
| Mapping.NoMissingColumnsIff | internal/config/mapping.go:71-85 | the check passes exactly when the id column (if set) and every placeholder of every mapping are columns |
| Mapping.CheckedColumnsSubstitute | internal/config/mapping.go:67-94 | after a passing check, a row holding all the columns substitutes every mapping template in full |
| Registry.FirstFolded | internal/transform/registry.go:67-73 | the case-insensitive scan finds a key folding to the target, or reports that none does |
| Registry.GetResourceType | internal/transform/registry.go:60-75 | an exact name resolves to itself; any result is a registered name equal ignoring case; no result only when no name matches |
| Registry.LookupIn | internal/transform/registry.go:60-75 | defines the resolution over a registry iterated in a given order: the exact name when registered, else the first registered name equal to it ignoring case, else none |
| Registry.FoldDistinct | internal/transform/registry.go:11-57 | two registered names that fold to the same text are the same name |
| Registry.OrderIrrelevant | internal/transform/registry.go:68-72 | the result of the case-insensitive scan does not depend on map iteration order |
| Registry.NamesAscending | internal/transform/registry.go:11-57 | the registered names are pairwise distinct even ignoring case |
| Registry.ResolvesIgnoringCase | internal/transform/registry.go:60-75 | any spelling of a registered name, in any case, resolves to that name |
| Registry.EnumerationOrderIrrelevant | internal/transform/registry.go:68-72 | every iteration order of the registry resolves a name the same way |
| Registry.TestedTypesResolve | internal/transform/registry.go:11-57 | the resource types the validators know are all registered under their own names |
| Registry.LowerCaseSpellingResolves | internal/transform/registry.go:67-73 | `observation` resolves to `Observation` |
| Registry.UnknownTypeRejected | internal/transform/registry.go:74 | `UnsupportedResource` is not a resource type |
| Transform.ParseInt64 | internal/transform/transform.go:268-271 | `strconv.ParseInt(s, 10, 64)` gives only int64 values |
| Transform.ParseInt64RoundTrip | internal/transform/transform.go:268 | the decimal text of any int64 parses back to it |
| Transform.ParseInt64RejectsTrailingText | internal/transform/transform.go:268-271 | digits followed by a non-digit are rejected |
| Transform.BoolRoundTrip | internal/transform/transform.go:284-288 | `true`/`false` parse back; only the short spellings are accepted; `not_a_boolean` is rejected |
| Transform.JsonEscapeChar | internal/transform/transform.go:251 | `json.Marshal` writes a plain character as itself and any other as an escape that starts with a backslash |
| Transform.JsonEscape | internal/transform/transform.go:251 | a text of plain characters is written unchanged |
| Transform.PlainKey | internal/transform/transform.go:247-257 | a text `json.Marshal` leaves unescaped reaches the enumeration decoder unchanged |
| Transform.EscapedKey | internal/transform/transform.go:247-257 | a text with a character `json.Marshal` escapes reaches the decoder with a backslash in it |
| Transform.EnumDecoding | internal/transform/transform.go:247-271 | a code `json.Marshal` leaves unescaped decodes to the ordinal whose code it is; an unescaped text that is no code goes on to the integer parse, and so does an escaped text when no code holds a backslash |
| Transform.EnumOrdinalRoundTrip | internal/transform/transform.go:247-259 | with distinct codes, the code of an ordinal decodes back to that ordinal when `json.Marshal` leaves it unescaped |
| Transform.ComparatorCodeRejected | internal/transform/transform.go:247-271 | the quantity comparator `<` is not decoded as its code; it fails as an integer |
| Transform.CoerceEnumIntended | internal/transform/transform.go:247-271 | the intended enumeration branch: a listed code decodes to its ordinal; other text goes on to the integer parse |
| Transform.IntendedDecodesEveryCode | internal/transform/transform.go:247-271 | with distinct codes, the intended branch decodes every code to its ordinal, `<` included, and agrees with the code as written on every unescaped text |
| Transform.Coerce | internal/transform/transform.go:245-305 | a converted value has the field's type, after pointers |
| Transform.IntValue | internal/transform/transform.go:266-273 | an integer field receives only an int64 |
| Transform.SetFinal | internal/transform/transform.go:231-306 | setting succeeds exactly when the text converts; the field then holds that text and keeps its type |
| Transform.SetFieldShape | internal/transform/transform.go:160-227 | a successful write adds or replaces only the named field; an unknown field is the field-not-found error |
| Transform.SetElement | internal/transform/transform.go:176-201 | the slice grows to index+1 when short; every other element is kept, new ones are zero |
| Transform.EmptyFieldNameBeforeKind | internal/transform/transform.go:152-165 | an empty field name is refused once pointers are followed, before the kind of the value reached is examined |
| Transform.SetNestedThenRead | internal/transform/transform.go:147-228 | after a successful write, reading the same path gives back the text written |
| Transform.SetFieldThenRead | internal/transform/transform.go:160-227 | get-after-set at one struct level |
| Transform.SetElementThenRead | internal/transform/transform.go:176-201 | get-after-set through an indexed element |
| Transform.SetNestedTyped | internal/transform/transform.go:147-228 | a write keeps a well-typed value well-typed |
| Transform.SetFieldTyped | internal/transform/transform.go:160-227 | a write keeps a well-typed struct well-typed |
| Transform.SetElementTyped | internal/transform/transform.go:176-201 | a grown and written slice keeps every element well-typed |
| Transform.OtherFieldsUnchanged | internal/transform/transform.go:169 | a write through one field leaves every path through another field unchanged |
| Transform.IndexedWritesKeepEachOther | internal/transform/transform.go:182-190 | writes to two different indices of one slice both survive |
| Transform.ParsedIndicesNonNegative | internal/config/mapping.go:176-178 | a parsed path is non-empty and carries no negative index |
| Transform.SetPath | internal/transform/transform.go:136-144 | a path that does not parse is rejected with its parse error |
| Transform.SetPathThenRead | internal/transform/transform.go:136-144 | after setting a path, reading it gives back the text |
| Transform.SetPathTyped | internal/transform/transform.go:136-144 | setting a path keeps the resource well-typed |
| Transform.SetPathFrame | internal/transform/transform.go:136-144 | setting a path leaves every path through another top-level field unchanged |
| Transform.SetNested | internal/transform/transform.go:147-165 | defines the write of a value along path segments: no segments is an error, a pointer is followed (a nil one is an error), an empty field name is refused, and anything but a struct cannot be navigated |
| Transform.SetField | internal/transform/transform.go:166-227 | defines one segment inside a struct: the field is looked up by its capitalised name, an index needs a slice and grows it to fit, the last segment writes the final value and earlier ones descend |
| Transform.SetId | internal/transform/transform.go:115-133 | setting the id fails only without a string `Id` field; otherwise only `Id` changes |
| Transform.SetIdThenRead | internal/transform/transform.go:115-133 | after setting the id, reading `id` gives it back |
| Transform.SetIdFrame | internal/transform/transform.go:115-133 | setting the id changes nothing else |
| Transform.Build | internal/transform/transform.go:37-84 | every row error carries the row number; a built resource has the type the resource name resolves to |
| Transform.Apply | internal/transform/transform.go:45-72 | defines one map loop over a listing of the map: each template substituted, an empty result skipped, each value set at its path in order, the first failure ending the loop with its path |
| Transform.Populate | internal/transform/transform.go:44-81 | defines the body a row gives: the defaults loop, then the mappings loop on its result, then the id when the id column is configured and its cell is not empty |
| Transform.ApplyFailureSticks | internal/transform/transform.go:45-72 | the first failing default or mapping ends the row; later entries change nothing |
| Transform.ApplyFailsAt | internal/transform/transform.go:45-72 | an entry that fails on every body makes the whole pass fail |
| Transform.ApplyTyped | internal/transform/transform.go:45-72 | applying entries keeps the resource well-typed |
| Transform.EmptyMappingSkipped | internal/transform/transform.go:65-68 | a mapping that substitutes to the empty text is skipped |
| Transform.LastWriteWins | internal/transform/transform.go:45-72 | an entry's value survives when no later entry touches its field |
| Transform.StepFrame | internal/transform/transform.go:45-72 | one default or mapping leaves fields it does not touch unchanged |
| Transform.PopulateTyped | internal/transform/transform.go:44-81 | defaults, mappings and the id give a well-typed resource |
| Transform.BuildTyped | internal/transform/transform.go:37-84 | every built resource is well-typed for its registered type |
| Transform.FailingMappingRejects | internal/transform/transform.go:60-72 | a mapping that cannot be applied rejects the row, whatever the order of the others |
| Transform.MissingColumnRejectsRow | internal/transform/transform.go:61-64 | a mapping that names a column the row lacks rejects the row |
| Transform.MalformedPathRejectsRow | internal/transform/transform.go:69-71 | a non-empty mapping to a malformed path rejects the row |
| Transform.UnknownFieldRejectsRow | internal/transform/transform.go:169-173 | a non-empty mapping to a field the resource lacks rejects the row |
| Transform.MappingWins | internal/transform/transform.go:59-72 | a mapping whose field no other mapping touches holds its text after the mapping pass |
| Transform.MappingOverridesDefaults | internal/transform/transform.go:44-81 | in the built resource that mapping's text overrides any default on the same field |
| Transform.IdFromColumn | internal/transform/transform.go:74-81 | a non-empty id column value becomes the resource id; otherwise `Id` is untouched by the id step |
| Transform.RunLoop | internal/transform/transform.go:45-72 | the map-iteration loop applies the entries in some enumeration of the map, as `Apply` defines it |
| Transform.Transform | internal/transform/transform.go:37-84 | the row is built as `Build` defines it, for some enumeration of each map; whatever the order, an error carries the row number and a resource has the type the resource name resolves to |
| Transformers.NewTransformer | internal/transform/transform.go:21-26 | a transformer without a validator |
| Transformers.NewTransformerWithValidator | internal/transform/transform.go:29-34 | a transformer carrying the given validator |
| Transformers.TransformWithValidation | internal/transform/transform.go:87-101 | a build error passes through with no issues and carries the row number; an unknown resource name is a creation error; otherwise the resource, of the resolved type, and the validator's issues, none without a validator |
| Transformers.MappedFieldNotMissing | internal/validation/required_fields.go:12-25 | a required string field written by a non-empty mapping is never reported missing |
| Validation.CreateError | internal/validation/validator.go:98-104 | an issue of severity `error` with the given field and message |
| Validation.CreateWarning | internal/validation/validator.go:107-113 | an issue of severity `warning` with the given field and message |
| Validation.GetFieldValue | internal/validation/validator.go:52-67 | no field for an empty name or an unknown capitalised name; otherwise the field's type |
| Validation.GetFieldValueIsRead | internal/validation/validator.go:52-67 | the validators read a field exactly as the transformer reads a one-segment path |
| Validation.EmptyIsZero | internal/validation/validator.go:70-95 | emptiness is the zero value; a set pointer, non-empty text, non-empty slice, non-zero integer or `true` is not empty |
| Validation.IsFieldEmpty | internal/validation/validator.go:70-95 | defines emptiness by kind: a nil pointer, the empty text, an empty slice, a struct whose fields are all zero, and the zero value of any other kind |
| Validation.CollectExact | internal/validation/required_fields.go:17-25 | the issue list has one issue per failing field, in field order, and none for the others |
| Validation.CollectSoundComplete | internal/validation/required_fields.go:17-25 | every issue comes from a listed field, and every failing field's issue is listed |
| Validation.FormatErrors | internal/validation/validator.go:116-127 | nothing for no issues, otherwise the issue lines joined by line breaks |
| Validation.FormatErrorsLines | internal/validation/validator.go:116-127 | the report splits back into one line per issue, each starting `Row N: Validation ` |
| RequiredFields.RequiredFieldsOf | internal/validation/required_fields.go:28-61 | the required-field table names no empty field |
| RequiredFields.Validate | internal/validation/required_fields.go:12-25 | the loop returns one issue per missing required field, in table order |
| RequiredFields.IssuesAreMissingFields | internal/validation/required_fields.go:12-25 | every issue is an error on a required field that is missing, and every missing required field is reported |
| RequiredFields.AllPresentPasses | internal/validation/required_fields.go:12-25 | with every required field present there are no issues |
| RequiredFields.NoRequirements | internal/validation/required_fields.go:28-61 | Patient, Specimen and unknown types are never reported |
| RequiredFields.FirstCodeReadsAsMissing | internal/validation/validator.go:92-93 | an enum field holding its first code (ordinal 0) is reported missing |
| DateTimes.DaysIn | internal/validation/datetime.go:123 | every month has 28 to 31 days |
| DateTimes.TryParseDateTime | internal/validation/datetime.go:111-130 | defines the parse: some one of the five layouts, tried in order, accepts the value |
| DateTimes.IsValidDateTime | internal/validation/datetime.go:80-109 | defines validity: the first of the seven patterns that the value matches decides, by the parse; a value matching none is invalid |
| DateTimes.ValidDateTimeIff | internal/validation/datetime.go:80-130 | a value is valid exactly when it matches one of the seven patterns and its fields are in the ranges `time.Parse` checks, with an offset of at most 24 hours and 60 minutes |
| DateTimes.NoShapeRejected | internal/validation/datetime.go:100-108 | a value matching no pattern is invalid |
| DateTimes.ShapeDecides | internal/validation/datetime.go:100-106 | once a pattern matches, parsing alone decides |
| DateTimes.RfcRanges | internal/validation/datetime.go:118 | an RFC 3339 shaped value parses exactly when month, day and clock are in range and the offset hour is at most 24 and its minute at most 60 |
| DateTimes.ComposedDateTime | internal/validation/datetime.go:94-97 | a date, `T`, clock, optional fraction and zone are valid exactly when each part is in range, an offset counting up to 24 hours and 60 minutes |
| DateTimes.ShapeLengths | internal/validation/datetime.go:90-98 | a matching value has length 4, 7, 10, or 20 to 35 |
| DateTimes.AcceptsYear | internal/validation/datetime.go:91 | `2024` is valid |
| DateTimes.AcceptsYearMonth | internal/validation/datetime.go:92 | `2024-01` is valid |
| DateTimes.AcceptsDate | internal/validation/datetime.go:93 | `2024-01-15` is valid |
| DateTimes.AcceptsUtc | internal/validation/datetime.go:94 | `2024-01-15T10:30:00Z` is valid |
| DateTimes.AcceptsOffset | internal/validation/datetime.go:95 | `2024-01-15T10:30:00+05:00` is valid |
| DateTimes.AcceptsOffsetHour24 | internal/validation/datetime.go:116-127 | `2024-01-15T10:30:00+24:00` is valid, as the general layout parser accepts it |
| DateTimes.AcceptsOffsetMinute60 | internal/validation/datetime.go:116-127 | `2024-01-15T10:30:00-05:60` is valid, as the general layout parser accepts it |
| DateTimes.RejectsOffsetHour25 | internal/validation/datetime.go:116-127 | an offset hour of 25 is invalid |
| DateTimes.RejectsOffsetMinute61 | internal/validation/datetime.go:116-127 | an offset minute of 61 is invalid |
| DateTimes.AcceptsFractionUtc | internal/validation/datetime.go:96 | `2024-01-15T10:30:00.123Z` is valid |
| DateTimes.AcceptsFractionOffset | internal/validation/datetime.go:97 | `2024-01-15T10:30:00.123+05:00` is valid |
| DateTimes.RejectsMonth13 | internal/validation/datetime.go:117 | month 13 is rejected by the parse |
| DateTimes.RejectsDay32 | internal/validation/datetime.go:117 | day 32 is rejected by the parse |
| DateTimes.RejectsHour25 | internal/validation/datetime.go:118 | hour 25 is rejected by the parse |
| DateTimes.AcceptsLeapDay | internal/validation/datetime.go:117 | 29 February 2024 is valid |
| DateTimes.RejectsNonLeapDay | internal/validation/datetime.go:117 | 29 February 2023 is invalid |
| DateTimes.RejectsCenturyLeapDay | internal/validation/datetime.go:117 | 29 February 1900 is invalid |
| DateTimes.RejectsEmpty | internal/validation/datetime.go:100-108 | the empty text is invalid |
| DateTimes.RejectsSlashDate | internal/validation/datetime.go:90-98 | `01/15/2024` is invalid |
| DateTimes.RejectsCompactDate | internal/validation/datetime.go:90-98 | `20240115` is invalid |
| DateTimes.RejectsMissingZone | internal/validation/datetime.go:94-97 | a date-time without zone is invalid |
| DateTimes.RejectsText | internal/validation/datetime.go:90-98 | `not-a-date` is invalid |
| DateTimes.ExtractStringValue | internal/validation/datetime.go:60-77 | a string, or a set pointer to one, gives its text; anything else gives `""` |
| DateTimes.Validate | internal/validation/datetime.go:31-57 | the loop returns one issue per invalid listed field, in table order |
| DateTimes.IssuesAreInvalidDateTimes | internal/validation/datetime.go:31-57 | no issues for unlisted types; every issue is an invalid listed field and every invalid listed field is reported |
| DateTimes.StructFieldSkipped | internal/validation/datetime.go:46-49 | a struct-valued field such as Encounter's `period` is never reported |
| References.RelativeFormBySplit | internal/validation/reference.go:108-112 | the relative form is exactly two slash-separated parts: a capitalised type name of two or more letters and an id without whitespace |
| References.IsValidReference | internal/validation/reference.go:88-113 | defines a valid reference: not empty; `#` followed by at least one character; an `http://`, `https://` or `urn:` prefix; or the relative `Type/id` form |
| References.AcceptedReferences | internal/validation/reference.go:108-112 | `Patient/123` and `Patient/abc-123` are valid |
| References.AcceptedUrls | internal/validation/reference.go:99-106 | `#local-ref`, `urn:`, `http://` and `https://` references are valid |
| References.RejectedReferences | internal/validation/reference.go:88-113 | the empty text, `#`, `invalid`, `/123` and `patient/123` are invalid |
| References.RejectedSlashes | internal/validation/reference.go:111 | an empty id, a second slash or whitespace are invalid |
| References.ExtractReferenceString | internal/validation/reference.go:60-85 | a nil pointer or a non-text, non-struct value gives `""` |
| References.ReferenceStructRead | internal/validation/reference.go:72-77 | a Reference struct gives the text of its `Reference` field |
| References.Validate | internal/validation/reference.go:30-57 | the loop returns one issue per invalid listed reference, in table order |
| References.IssuesAreInvalidReferences | internal/validation/reference.go:30-57 | no issues for unlisted types; every issue is on `field.reference` for an invalid listed field, and every invalid listed field is reported |
| Validators.NewReferenceValidator | internal/validation/reference.go:15-27 | the reference validator carries the built-in table |
| Validators.NewDateTimeValidator | internal/validation/datetime.go:15-28 | the date/time validator carries the built-in table |
| Validators.Validate | internal/validation/validator.go:34-40 | any validator's issues; a composite's loop appends each member's issues in order |
| Validators.CompositeSingle | internal/validation/validator.go:34-40 | a composite of one validator reports that validator's issues; an empty one reports none |
| Validators.CompositeFlattens | internal/validation/validator.go:26-40 | a nested composite reports the same as its members put in its place |
| Validators.CompositeConcatenates | internal/validation/validator.go:34-40 | a composite's issues are the concatenation of its members' issues in order |
| Validators.CompositeAppend | internal/validation/validator.go:34-40 | a composite over `a + b` reports `a`'s issues, then `b`'s |
| Validators.CompositeMembership | internal/validation/validator.go:34-40 | an issue is a composite's exactly when it is an issue of one of its members |
| Validators.DefaultIssues | main.go:116-120 | the converter's validator reports required-field, then date/time, then reference issues |
| CsvReader.Next | internal/csv/reader.go:62 | the next record of the source; an exhausted source keeps giving end-of-data |
| CsvReader.RowData | internal/csv/reader.go:71-79 | the row map's keys are exactly the headers |
| CsvReader.RowDataAt | internal/csv/reader.go:72-78 | each header maps to the value of its last column, or `""` past the end of the record |
| CsvReader.DistinctHeaders | internal/csv/reader.go:71-79 | with distinct headers, header i maps to field i or to `""` |
| CsvReader.Open | internal/csv/reader.go:36-52 | opening succeeds exactly when the first record is read; it becomes the header, at row 1 |
| CsvReader.NewReader | internal/csv/reader.go:25-53 | a fresh reader in the opened state, or the source's error and no reader |
| CsvReader.Reader.constructor | internal/csv/reader.go:47-52 | a reader holding the headers at row 1 |
| CsvReader.Reader.Headers | internal/csv/reader.go:56-58 | the header row |
| CsvReader.Reader.Read | internal/csv/reader.go:61-85 | one read as `ReadStep`: an error leaves the row number; a record becomes the next numbered row |
| CsvReader.Reader.ReadAll | internal/csv/reader.go:88-103 | the loop reads as `ReadAllFrom`: rows up to end-of-data, or the first other error |
| CsvReader.ReadStep | internal/csv/reader.go:61-85 | defines one read: an error of the source is returned and the row number kept; a record becomes the next row, numbered one past the last |
| CsvReader.ReadAllFrom | internal/csv/reader.go:88-103 | defines reading to the end: the rows up to end-of-data, or the first other error and no rows |
| CsvReader.ReadAllRecords | internal/csv/reader.go:88-103 | records then end-of-data give one row per record in order, numbered on; an error instead gives that error |
| CsvReader.HeaderOnly | internal/csv/reader.go:62-65 | a header-only source opens and then gives end-of-data |
| CsvReader.FirstRowsNumbered | internal/csv/reader.go:51-67 | the first data rows are rows 2 and 3 |
| Output.ParseFormat | internal/output/writer.go:180-189 | `bundle` and `""` give bundle, `ndjson` gives NDJSON; anything else is the unsupported-format error naming it |
| Output.ParseFormatRoundTrip | internal/output/writer.go:12-18 | every format's name parses back to it |
| Output.EffectiveLimit | internal/output/writer.go:53-56 | a positive ceiling is kept, any other becomes 10000 |
| Output.WarnThreshold | internal/output/writer.go:89 | the warning threshold lies below the ceiling |
| Output.WriteStep | internal/output/writer.go:71-105 | a write never changes the format, the ceiling or the closed flag |
| Output.Writer.NewWriterWithLimit | internal/output/writer.go:38-68 | a writer in the initial state for the path, format and ceiling |
| Output.Writer.NewWriter | internal/output/writer.go:33-35 | a writer with the default ceiling |
| Output.Writer.Write | internal/output/writer.go:71-105 | one write as `WriteStep` |
| Output.Writer.WriteBundle | internal/output/writer.go:140-177 | the loop emits one bundle holding every buffered resource with its total, or nothing on failure |
| Output.Writer.Close | internal/output/writer.go:108-137 | one close as `CloseStep` |
| Output.CloseStep | internal/output/writer.go:108-137 | defines a close: a closed writer does nothing; a bundle writer with buffered resources emits one bundle of them; the bundle error is reported before the file close error; afterwards the writer is closed |
| Output.InitialInv | internal/output/writer.go:38-68 | a new writer keeps the writer invariant and the effective ceiling |
| Output.WriteKeepsInv | internal/output/writer.go:71-105 | writes keep the buffer within the ceiling and empty in NDJSON mode |
| Output.CloseKeepsInv | internal/output/writer.go:108-137 | close keeps the invariant, and every bundle's total counts its entries |
| Output.BundleWrite | internal/output/writer.go:86-101 | below the ceiling a bundle write buffers the resource; at the ceiling it is refused with the limit error |
| Output.NdjsonWrite | internal/output/writer.go:72-83 | an NDJSON write emits one line, or fails and emits nothing |
| Output.WarningOnce | internal/output/writer.go:89-93 | the warning flag is set at the threshold and never cleared |
| Output.CloseIdempotent | internal/output/writer.go:110-113 | a second close changes nothing and reports nothing |
| Output.CloseEmitsBundle | internal/output/writer.go:116-119 | closing a bundle writer emits the buffered resources once, if any |
| Output.CloseReportsFileError | internal/output/writer.go:122-134 | a failing file close is reported once the bundle is written, and the file is released |
| Output.BundleKeepsFirst | internal/output/writer.go:86-101 | a bundle writer keeps the first resources written, in order, up to its ceiling |
| Output.LimitOfTwo | internal/output/writer.go:96-98 | with a ceiling of two the third write fails and the first two are kept |
| Pipeline.DelimiterOfCharacter | main.go:73-78 | an ASCII delimiter is kept; any other character becomes the lead byte of its UTF-8 encoding |
| Pipeline.Delimiter | main.go:72-78 | defines the delimiter: the first byte of the flag read as a character, below 256, or `,` for an empty flag |
| Pipeline.TransformerFor | main.go:112-124 | with validation enabled, the required-fields, date/time and reference validators in that order; otherwise none |
| Pipeline.DisabledValidationNoIssues | main.go:167-171 | with validation disabled no result carries issues |
| Pipeline.CheckedHeaderRowsSubstitute | main.go:102-106 | after the column check passes, no row fails a mapping for a missing column |
| Pipeline.Consume | main.go:185-221 | the consumer loop over the results, with its counters and the writer, as `ConsumeAll` defines it |
| Pipeline.Handle | main.go:189-207 | defines the treatment of one result: a build error is skipped, a resource with issues is skipped when the level is `error`, any other resource is written |
| Pipeline.ConsumeAll | main.go:185-221 | defines the consumer loop as the results taken in order, each updating the counters and the writer as `Handle` directs |
| Pipeline.EachHandledOnce | main.go:186-215 | every result is skipped as a build error, rejected, or passed to the writer, exactly one of them |
| Pipeline.ConsumeCounts | main.go:189-215 | rows count the passed results, validation issues the flagged ones, errors the skipped ones plus at most one per write |
| Pipeline.LenientWritesAllBuilt | main.go:200-206 | below level `error` nothing is rejected and every built resource is passed on |
| Pipeline.StrictRejectsFlagged | main.go:200-204 | at level `error` exactly the flagged resources are rejected and no passed one has issues |
| Pipeline.NdjsonRun | main.go:209-215 | in NDJSON mode with a working output, one line per passed resource in order, and errors only for skipped results |
| Pipeline.BundleRun | main.go:209-215 | in bundle mode the writer ends as after writing just the passed resources |
| Pipeline.BundleRunErrors | main.go:209-215 | the first passed resources up to the ceiling are buffered, and each one after that counts as an error |

## Left out

- **File and stream I/O.** Opening files, reading and writing them, and closing them are absent.
  - The record source is a sequence of outcomes.
  - The writer's output is a sequence of emitted lines and bundles.
  - JSON marshalling and the sink's success are the parameters `sinkOk` and `fileCloseOk`.
  - A failure to create the output file, and `Reader.Close`, are not modelled.
- **YAML decoding.** `LoadMapping` starts from the decoded document (`Decoded`); reading the file and the YAML syntax are not modelled.
- **CSV tokenising.** Quoting, `TrimLeadingSpace` and the field-count rules of `encoding/csv` are not modelled. The model starts from the records it gives.
- CsvReader.NewReader: returns the source's error without the `failed to read CSV headers` wrapping text.
- **Concurrency.** The worker goroutines, the channels and the wait group are left out. The consumer is a fold over the results in whichever order they arrive, given as a sequence.
- **The producer loop.** It reads rows until end-of-data and stops `run` on a read error; its shape is that of `ReadAll`.
- **Diagnostic printing.** Flag parsing, usage text, progress lines, warnings on standard error and the final summary are not modelled. The counters they print are.
- **Floating point.** Float fields are outside the type universe, because FHIR decimals in the models are strings.
- Output.WarnThreshold: modelled as `max * 9 / 10`. The source's `int(float64(max)*0.9)` is not modelled.
- **Reflection.** Types and values are an explicit catalog and value tree, not Go runtime types. A struct-valued final field is always the cannot-set-struct-field error (`BadStruct`), because a JSON string never decodes into a struct; the only custom JSON decoders modelled are those of the enumeration types.
- Transform.Coerce: the generated enumeration decoders are not part of this model's sources. The model takes them as trimming every leading and trailing `"` from the raw literal and comparing the rest, escapes included, with the code list.
- Transform.JsonEscapeChar: writes `\b` and `\f` as Go 1.22 and later do; earlier releases write `\u0008` and `\u000c`. Only a code holding a backslash could tell the two apart. The replacement of invalid UTF-8 is left out, since a string here holds only valid characters.
- Graph.Capitalize: upper-cases an ASCII first letter and keeps any other, where Go upper-cases only the first byte (`strings.ToUpper(Field[:1])` in internal/transform/transform.go:168 and internal/validation/validator.go:59). For a name whose first letter is not ASCII, Go's field name becomes U+FFFD followed by the rest of that letter's bytes. Both lookups then fail, since every declared field name is ASCII. The only difference is the field name carried by the transformer's field-not-found error: mangled in Go, as written in the model. The validator's lookup reports no name.
- Text.Lower: lowers ASCII letters only, where Go's `strings.ToLower` lowers all of Unicode. So `Registry.GetResourceType`, `Registry.ResolvesIgnoringCase` and `Registry.LowerCaseSpellingResolves` say nothing about spellings with non-ASCII letters. In Go, the Kelvin sign (U+212A) lowers to `k`, so a name spelt with it can resolve; in the model it does not.
- Validation.GetFieldValue: reports an empty field name as absent. Go slices `fieldName[:1]` and would panic.
- **Panics.** Where the Go code panics (`FieldByName` on a non-struct after an indexed segment, `SetString` on a non-string `Id`), the model returns an explicit error (`NotAStruct`, `IdNotString`).
- DateTimes.IsValidDateTime: `time.Parse` is modelled only for the seven accepted shapes, with month, day, leap year, hour, minute, second and offset ranges.
  - When the strict RFC 3339 reading fails, `time.Parse` falls back to its general layout parser. That parser accepts an offset hour of 24 and an offset minute of 60, so the model does too.
  - The leap second `60` is rejected, as in Go.
  - Any other behaviour of `time.Parse` is not modelled.
- **Format values.** Writer formats other than `bundle` and `ndjson` cannot reach the writer, because `ParseFormat` rejects them first. The writer's `firstWrite` field is never read and is left out.
- Transform.Transform: the order of Go's map iteration is not fixed. The model proves its result for some enumeration of each map (ghost outputs), not for a particular one.
- CsvReader.RowData: a header that occurs twice keeps the value of its last column, as repeated Go map assignment does.
- Pipeline.Delimiter: takes the flag as bytes, as Go strings are. The `rune` conversion of the first byte is modelled; the delimiter validity checks of `encoding/csv` are not.

## Findings

| source | as written | input that shows it | evidently intended | confidence | as-written member | corrected member |
|---|---|---|---|---|---|---|
| internal/transform/transform.go:247-257 | an enumeration value is decoded by `json.Unmarshal` of `json.Marshal(value)`. `json.Marshal` escapes `<`, `>` and `&`, and the generated decoder trims the quotes without undoing the escapes, so a code holding one of them never matches | the text `<` for a `QuantityComparator` field such as `valueQuantity.comparator` is refused with "cannot convert < to int" | every listed code decodes to its ordinal, the comparators `<`, `<=`, `>=` and `>` included | high for the escaping, medium for the decoder outside the repository; not executed | Transform.ComparatorCodeRejected | Transform.CoerceEnumIntended |

`Transform.Coerce`, and everything built on it, follows the code as written. `Transform.CoerceEnumIntended` is the intended enumeration branch. `Transform.IntendedDecodesEveryCode` proves that it decodes every code and agrees with `Coerce` on every text `json.Marshal` leaves unescaped.
