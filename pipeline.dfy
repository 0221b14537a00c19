/** The converter's driver: the delimiter taken from its flag, the choice of
    transformer, and the consumer that handles each row's result in turn,
    counting rows, errors and rows with validation issues, and writing what
    passes to the output writer. Results reach the consumer in whatever
    order the workers finish; the consumer is a fold over that order. */
module Pipeline {
  import opened Wrappers
  import opened Mapping
  import opened Transform
  import opened Validation
  import opened Validators
  import opened Transformers
  import opened Output
  import CsvReader

  newtype byte = x: int | 0 <= x < 256

  /** The delimiter flag: its first byte read as a character, or `,` when
      the flag is empty. */
  function Delimiter(flag: seq<byte>): (c: char)
    ensures |flag| == 0 ==> c == ','
    ensures |flag| > 0 ==> c as int == flag[0] as int
    ensures c as int < 256
  {
    if |flag| > 0 then (flag[0] as int) as char else ','
  }

  /** The UTF-8 bytes of a character (surrogate code points are not
      characters of a flag). */
  function Utf8(ch: char): (bs: seq<byte>)
    ensures 1 <= |bs| <= 4
    ensures ch as int < 0x80 <==> |bs| == 1
  {
    var n := ch as int;
    if n < 0x80 then [n as byte]
    else if n < 0x800 then [(0xC0 + n / 0x40) as byte, (0x80 + n % 0x40) as byte]
    else if n < 0x10000 then
      [(0xE0 + n / 0x1000) as byte, (0x80 + n / 0x40 % 0x40) as byte, (0x80 + n % 0x40) as byte]
    else
      [(0xF0 + n / 0x40000) as byte, (0x80 + n / 0x1000 % 0x40) as byte,
       (0x80 + n / 0x40 % 0x40) as byte, (0x80 + n % 0x40) as byte]
  }

  /** A delimiter given as one ASCII character is that character; one given
      as any other character becomes the lead byte of its encoding, a
      character from U+00C2 to U+00F4 and never an ASCII one. */
  lemma DelimiterOfCharacter(ch: char, rest: seq<byte>)
    ensures ch as int < 0x80 ==> Delimiter(Utf8(ch) + rest) == ch
    ensures ch as int >= 0x80 ==> 0xC2 <= Delimiter(Utf8(ch) + rest) as int <= 0xF4
  {
    assert (Utf8(ch) + rest)[0] == Utf8(ch)[0];
  }

  /** The transformer of a run: with validation enabled it carries the
      required-fields, date/time and reference validators in that order. */
  function TransformerFor(cfg: MappingSpec, enableValidation: bool): (t: Transformer)
    ensures t.config == cfg
    ensures t.validator.Some? <==> enableValidation
    ensures enableValidation ==> t.validator == Some(DefaultValidator())
    ensures enableValidation ==>
      (t.validator.value.CompositeValidator? && |t.validator.value.validators| == 3 &&
       t.validator.value.validators[0] == RequiredFieldsValidator &&
       t.validator.value.validators[1].DateTimeValidator? &&
       t.validator.value.validators[2].ReferenceValidator?)
  {
    if enableValidation then NewTransformerWithValidator(cfg, DefaultValidator()) else NewTransformer(cfg)
  }

  /** With validation disabled no row's result carries issues. */
  lemma DisabledValidationNoIssues(cat: Graph.Catalog, cfg: MappingSpec, res: Resource)
    ensures IssuesOf(cat, TransformerFor(cfg, false).validator, res) == []
  {
  }

  /** `run` checks the mapping against the header before reading rows; once
      that check passes, no row the reader gives can fail a mapping for a
      missing column, however short the row's record. */
  lemma CheckedHeaderRowsSubstitute(spec: MappingSpec, headers: seq<string>, record: seq<string>)
    requires MissingColumns(spec, set h | h in headers) == {}
    ensures forall p :: p in spec.mappings ==>
      Expand(spec.mappings[p], CsvReader.RowData(headers, record)).missing == []
  {
    CheckedColumnsSubstitute(spec, (set h | h in headers), CsvReader.RowData(headers, record));
  }

  /** What a worker hands to the consumer for one row. */
  type Processed<T> = Result<(T, seq<ValidationError>), RowError>

  datatype Counters = Counters(rowCount: int, errorCount: int, validationErrorCount: int)

  /** How the consumer treats one result: a build error is skipped, a
      resource with issues is skipped at level `error`, and any other
      resource is passed to the writer. */
  datatype Handling = BuildFailed | Rejected | Passed

  function Handle<T>(r: Processed<T>, level: string): Handling {
    if r.Failure? then BuildFailed
    else if |r.value.1| > 0 && level == "error" then Rejected
    else Passed
  }

  /** A built resource that has validation issues. */
  predicate Flagged<T>(r: Processed<T>) {
    r.Success? && |r.value.1| > 0
  }

  datatype Consumer<T> = Consumer(counters: Counters, writer: WriterState<T>)

  /** One iteration of the consumer loop; `sinkOk` says whether the write
      of that row's resource reaches the output. */
  function ConsumeStep<T>(c: Consumer<T>, r: Processed<T>, level: string, sinkOk: bool): (c': Consumer<T>)
    requires c.writer.maxResources > 0
    ensures c'.writer.maxResources == c.writer.maxResources && c'.writer.format == c.writer.format
  {
    var k := c.counters;
    var flagged := if Flagged(r) then 1 else 0;
    match Handle(r, level)
    case BuildFailed => c.(counters := k.(errorCount := k.errorCount + 1))
    case Rejected => c.(counters := k.(errorCount := k.errorCount + 1, validationErrorCount := k.validationErrorCount + 1))
    case Passed =>
      var (w, err) := WriteStep(c.writer, r.value.0, sinkOk);
      Consumer(Counters(k.rowCount + 1, k.errorCount + (if err.Some? then 1 else 0), k.validationErrorCount + flagged), w)
  }

  /** The consumer loop over results taken in the order `rs` gives them. */
  function ConsumeAll<T>(c: Consumer<T>, rs: seq<Processed<T>>, level: string, sinkOks: seq<bool>): (c': Consumer<T>)
    requires c.writer.maxResources > 0 && |sinkOks| == |rs|
    ensures c'.writer.maxResources == c.writer.maxResources && c'.writer.format == c.writer.format
  {
    if |rs| == 0 then c
    else
      var n := |rs| - 1;
      ConsumeStep(ConsumeAll(c, rs[..n], level, sinkOks[..n]), rs[n], level, sinkOks[n])
  }

  /** The consumer goroutine of `run`, with counters starting at zero. */
  method Consume<T>(results: seq<Processed<T>>, level: string, w: Writer<T>, sinkOks: seq<bool>)
    returns (counters: Counters)
    requires w.maxResources > 0 && |sinkOks| == |results|
    modifies w
    ensures Consumer(counters, w.State()) ==
      ConsumeAll(Consumer(Counters(0, 0, 0), old(w.State())), results, level, sinkOks)
  {
    ghost var start := Consumer(Counters(0, 0, 0), w.State());
    var rowCount := 0;
    var errorCount := 0;
    var validationErrorCount := 0;
    for i := 0 to |results|
      invariant w.maxResources == start.writer.maxResources
      invariant Consumer(Counters(rowCount, errorCount, validationErrorCount), w.State()) ==
        ConsumeAll(start, results[..i], level, sinkOks[..i])
    {
      assert results[..i + 1][..i] == results[..i];
      assert sinkOks[..i + 1][..i] == sinkOks[..i];
      var res := results[i];
      if res.Failure? {
        errorCount := errorCount + 1;
        continue;
      }
      if |res.value.1| > 0 {
        validationErrorCount := validationErrorCount + 1;
        if level == "error" {
          errorCount := errorCount + 1;
          continue;
        }
      }
      var err := w.Write(res.value.0, sinkOks[i]);
      if err.Some? {
        errorCount := errorCount + 1;
      }
      rowCount := rowCount + 1;
    }
    assert results[..|results|] == results;
    assert sinkOks[..|sinkOks|] == sinkOks;
    counters := Counters(rowCount, errorCount, validationErrorCount);
  }

  /** The number of results handled as `h`. */
  function Count<T>(rs: seq<Processed<T>>, level: string, h: Handling): (n: nat)
    ensures n <= |rs|
  {
    if |rs| == 0 then 0
    else Count(rs[..|rs| - 1], level, h) + (if Handle(rs[|rs| - 1], level) == h then 1 else 0)
  }

  /** The number of built resources with issues. */
  function FlaggedCount<T>(rs: seq<Processed<T>>): (n: nat)
    ensures n <= |rs|
  {
    if |rs| == 0 then 0
    else FlaggedCount(rs[..|rs| - 1]) + (if Flagged(rs[|rs| - 1]) then 1 else 0)
  }

  /** The resources passed to the writer, in the order handled. */
  function Written<T>(rs: seq<Processed<T>>, level: string): (xs: seq<T>)
    ensures |xs| == Count(rs, level, Passed)
  {
    if |rs| == 0 then []
    else
      var r := rs[|rs| - 1];
      Written(rs[..|rs| - 1], level) + (if Handle(r, level) == Passed then [r.value.0] else [])
  }

  /** Every result is handled in exactly one way. */
  lemma {:induction false} EachHandledOnce<T>(rs: seq<Processed<T>>, level: string)
    ensures Count(rs, level, BuildFailed) + Count(rs, level, Rejected) + Count(rs, level, Passed) == |rs|
  {
    if |rs| > 0 {
      EachHandledOnce(rs[..|rs| - 1], level);
    }
  }

  /** The counters after a run: one row counted per resource passed to the
      writer, one validation issue per resource with issues, and one error
      per build failure and rejected resource, plus at most one per write. */
  lemma {:induction false} ConsumeCounts<T>(c: Consumer<T>, rs: seq<Processed<T>>, level: string, sinkOks: seq<bool>)
    requires c.writer.maxResources > 0 && |sinkOks| == |rs|
    ensures var k := ConsumeAll(c, rs, level, sinkOks).counters;
      var skipped := Count(rs, level, BuildFailed) + Count(rs, level, Rejected);
      k.rowCount == c.counters.rowCount + Count(rs, level, Passed) &&
      k.validationErrorCount == c.counters.validationErrorCount + FlaggedCount(rs) &&
      c.counters.errorCount + skipped <= k.errorCount <= c.counters.errorCount + skipped + Count(rs, level, Passed)
  {
    if |rs| > 0 {
      var n := |rs| - 1;
      ConsumeCounts(c, rs[..n], level, sinkOks[..n]);
    }
  }

  /** Below level `error` issues are only reported: no resource is
      rejected and every built resource reaches the writer. */
  lemma {:induction false} LenientWritesAllBuilt<T>(rs: seq<Processed<T>>, level: string)
    requires level != "error"
    ensures Count(rs, level, Rejected) == 0
    ensures Count(rs, level, Passed) == |rs| - Count(rs, level, BuildFailed)
  {
    if |rs| > 0 {
      LenientWritesAllBuilt(rs[..|rs| - 1], level);
    }
  }

  /** At level `error` exactly the resources with issues are rejected, so no
      resource that reaches the writer has an issue. */
  lemma {:induction false} StrictRejectsFlagged<T>(rs: seq<Processed<T>>)
    ensures Count(rs, "error", Rejected) == FlaggedCount(rs)
    ensures forall i :: 0 <= i < |rs| && Handle(rs[i], "error") == Passed ==> rs[i].Success? && rs[i].value.1 == []
  {
    if |rs| > 0 {
      StrictRejectsFlagged(rs[..|rs| - 1]);
    }
  }

  /** The NDJSON lines of a sequence of resources. */
  function Lines<T>(xs: seq<T>): (ls: seq<Emitted<T>>)
    ensures |ls| == |xs| && forall i :: 0 <= i < |xs| ==> ls[i] == Line(xs[i])
  {
    seq(|xs|, i requires 0 <= i < |xs| => Line(xs[i]))
  }

  /** In NDJSON mode with a working output, the output gains one line per
      resource passed to the writer, in the order handled, and the only
      errors counted are the skipped results. */
  lemma NdjsonRun<T>(c: Consumer<T>, rs: seq<Processed<T>>, level: string, sinkOks: seq<bool>)
    requires c.writer.maxResources > 0 && c.writer.format == Ndjson && |sinkOks| == |rs|
    requires forall i :: 0 <= i < |sinkOks| ==> sinkOks[i]
    ensures var c' := ConsumeAll(c, rs, level, sinkOks);
      c'.writer.output == c.writer.output + Lines(Written(rs, level)) &&
      c'.counters.errorCount == c.counters.errorCount + Count(rs, level, BuildFailed) + Count(rs, level, Rejected)
  {
    NdjsonOutput(c, rs, level, sinkOks);
    NdjsonErrors(c, rs, level, sinkOks);
  }

  lemma {:induction false} NdjsonOutput<T>(c: Consumer<T>, rs: seq<Processed<T>>, level: string, sinkOks: seq<bool>)
    requires c.writer.maxResources > 0 && c.writer.format == Ndjson && |sinkOks| == |rs|
    requires forall i :: 0 <= i < |sinkOks| ==> sinkOks[i]
    ensures ConsumeAll(c, rs, level, sinkOks).writer.output == c.writer.output + Lines(Written(rs, level))
  {
    if |rs| > 0 {
      var n := |rs| - 1;
      NdjsonOutput(c, rs[..n], level, sinkOks[..n]);
      var prev := Written(rs[..n], level);
      if Handle(rs[n], level) == Passed {
        assert Lines(prev + [rs[n].value.0]) == Lines(prev) + [Line(rs[n].value.0)];
      }
    }
  }

  lemma {:induction false} NdjsonErrors<T>(c: Consumer<T>, rs: seq<Processed<T>>, level: string, sinkOks: seq<bool>)
    requires c.writer.maxResources > 0 && c.writer.format == Ndjson && |sinkOks| == |rs|
    requires forall i :: 0 <= i < |sinkOks| ==> sinkOks[i]
    ensures ConsumeAll(c, rs, level, sinkOks).counters.errorCount ==
      c.counters.errorCount + Count(rs, level, BuildFailed) + Count(rs, level, Rejected)
  {
    if |rs| > 0 {
      var n := |rs| - 1;
      NdjsonErrors(c, rs[..n], level, sinkOks[..n]);
    }
  }

  /** In bundle mode the writer ends as if just the passed resources had
      been written to it, whatever the output does meanwhile. */
  lemma {:induction false} BundleRun<T>(c: Consumer<T>, rs: seq<Processed<T>>, level: string, sinkOks: seq<bool>)
    requires c.writer.maxResources > 0 && c.writer.format == Bundle && |sinkOks| == |rs|
    ensures ConsumeAll(c, rs, level, sinkOks).writer == WriteMany(c.writer, Written(rs, level))
  {
    if |rs| > 0 {
      var n := |rs| - 1;
      BundleRun(c, rs[..n], level, sinkOks[..n]);
      var prev := Written(rs[..n], level);
      if Handle(rs[n], level) == Passed {
        assert (prev + [rs[n].value.0])[..|prev|] == prev;
      } else {
        assert Written(rs, level) == prev;
      }
    }
  }

  /** In bundle mode the first passed resources, up to the ceiling, are
      buffered in order, and each one after that is counted as an error. */
  lemma {:induction false} BundleRunErrors<T>(c: Consumer<T>, rs: seq<Processed<T>>, level: string, sinkOks: seq<bool>)
    requires c.writer.maxResources > 0 && c.writer.format == Bundle && |sinkOks| == |rs|
    requires |c.writer.resources| <= c.writer.maxResources
    ensures var c' := ConsumeAll(c, rs, level, sinkOks);
      var total := |c.writer.resources| + Count(rs, level, Passed);
      c'.writer.resources == (c.writer.resources + Written(rs, level))[..Min(total, c.writer.maxResources)] &&
      c'.counters.errorCount == c.counters.errorCount + Count(rs, level, BuildFailed) + Count(rs, level, Rejected) +
        (total - Min(total, c.writer.maxResources))
  {
    BundleRun(c, rs, level, sinkOks);
    BundleKeepsFirst(c.writer, Written(rs, level));
    BundleErrorCount(c, rs, level, sinkOks);
  }

  lemma {:induction false} BundleErrorCount<T>(c: Consumer<T>, rs: seq<Processed<T>>, level: string, sinkOks: seq<bool>)
    requires c.writer.maxResources > 0 && c.writer.format == Bundle && |sinkOks| == |rs|
    requires |c.writer.resources| <= c.writer.maxResources
    ensures var c' := ConsumeAll(c, rs, level, sinkOks);
      var total := |c.writer.resources| + Count(rs, level, Passed);
      |c'.writer.resources| == Min(total, c.writer.maxResources) &&
      c'.counters.errorCount == c.counters.errorCount + Count(rs, level, BuildFailed) + Count(rs, level, Rejected) +
        (total - Min(total, c.writer.maxResources))
  {
    if |rs| > 0 {
      var n := |rs| - 1;
      BundleErrorCount(c, rs[..n], level, sinkOks[..n]);
    }
  }
}
