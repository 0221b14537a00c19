/** The output writer: NDJSON mode emits each resource at once, bundle mode
    buffers resources up to a ceiling and emits one collection bundle when
    the writer is closed. What reaches the sink is recorded as a sequence of
    emitted documents. */
module Output {
  import opened Wrappers

  datatype Format = Bundle | Ndjson

  function FormatName(f: Format): string {
    match f
    case Bundle => "bundle"
    case Ndjson => "ndjson"
  }

  /** `ParseFormat`: `bundle` or the empty string give bundle, `ndjson`
      gives NDJSON, and anything else is an unsupported format. */
  function ParseFormat(s: string): (r: Result<Format, string>)
    ensures r.Success? <==> s == "bundle" || s == "" || s == "ndjson"
    ensures r == Success(Bundle) <==> s == "bundle" || s == ""
    ensures r.Failure? ==> r.error == "unsupported format: " + s + " (supported: bundle, ndjson)"
  {
    if s == "bundle" || s == "" then Success(Bundle)
    else if s == "ndjson" then Success(Ndjson)
    else Failure("unsupported format: " + s + " (supported: bundle, ndjson)")
  }

  lemma ParseFormatRoundTrip(f: Format)
    ensures ParseFormat(FormatName(f)) == Success(f)
  {
  }

  const DefaultMaxResources: int := 10000

  /** A non-positive ceiling is replaced by the default. */
  function EffectiveLimit(maxResources: int): (m: int)
    ensures m > 0
    ensures maxResources > 0 ==> m == maxResources
    ensures maxResources <= 0 ==> m == DefaultMaxResources
  {
    if maxResources <= 0 then DefaultMaxResources else maxResources
  }

  /** The buffered count at which the near-limit warning is given: ninety
      per cent of the ceiling, rounded down. */
  function WarnThreshold(maxResources: int): (t: int)
    requires maxResources > 0
    ensures 0 <= t < maxResources
  {
    maxResources * 9 / 10
  }

  /** A document that reached the sink: one NDJSON line, or a bundle with its
      entries and its total. */
  datatype Emitted<T> = Line(resource: T) | BundleDoc(entries: seq<T>, total: int)

  datatype WriteError = SinkFailed | LimitExceeded(maxResources: int)
  datatype CloseError = BundleFailed | FileCloseFailed

  /** The observable state of a writer. */
  datatype WriterState<T> = WriterState(format: Format, hasFile: bool, resources: seq<T>,
                                        maxResources: int, closed: bool, warnedLimit: bool,
                                        output: seq<Emitted<T>>)

  /** A new writer: standard output for `""` or `-`, otherwise a file. */
  function Initial<T>(outputPath: string, format: Format, maxResources: int): WriterState<T> {
    WriterState(format, !(outputPath == "" || outputPath == "-"), [], EffectiveLimit(maxResources), false, false, [])
  }

  /** `Write` of `x`; `sinkOk` says whether marshalling and writing the line
      succeed. */
  function WriteStep<T>(s: WriterState<T>, x: T, sinkOk: bool): (r: (WriterState<T>, Option<WriteError>))
    requires s.maxResources > 0
    ensures r.0.maxResources == s.maxResources && r.0.format == s.format && r.0.closed == s.closed
  {
    if s.format == Ndjson then
      if sinkOk then (s.(output := s.output + [Line(x)]), None) else (s, Some(SinkFailed))
    else
      var count := |s.resources|;
      var warned := s.warnedLimit || count >= WarnThreshold(s.maxResources);
      if count >= s.maxResources then (s.(warnedLimit := warned), Some(LimitExceeded(s.maxResources)))
      else (s.(warnedLimit := warned, resources := s.resources + [x]), None)
  }

  /** `Close`; `sinkOk` says whether the bundle can be written and
      `fileCloseOk` whether closing the file succeeds. The bundle error is
      reported before the close error. */
  function CloseStep<T>(s: WriterState<T>, sinkOk: bool, fileCloseOk: bool): (WriterState<T>, Option<CloseError>) {
    if s.closed then (s, None)
    else
      var emits := s.format == Bundle && |s.resources| > 0;
      var out := if emits && sinkOk then s.output + [BundleDoc(s.resources, |s.resources|)] else s.output;
      var bundleErr := emits && !sinkOk;
      var closeErr := s.hasFile && !fileCloseOk;
      (s.(closed := true, hasFile := false, output := out),
       if bundleErr then Some(BundleFailed) else if closeErr then Some(FileCloseFailed) else None)
  }

  /** What every writer keeps: a positive ceiling never exceeded, no buffer
      in NDJSON mode, and bundles whose total counts their entries. */
  predicate Inv<T>(s: WriterState<T>) {
    s.maxResources > 0 && |s.resources| <= s.maxResources &&
    (s.format == Ndjson ==> s.resources == []) &&
    forall k :: 0 <= k < |s.output| && s.output[k].BundleDoc? ==> s.output[k].total == |s.output[k].entries|
  }

  class Writer<T> {
    var format: Format
    var hasFile: bool
    var resources: seq<T>
    var maxResources: int
    var closed: bool
    var warnedLimit: bool
    var output: seq<Emitted<T>>

    function State(): WriterState<T>
      reads this
    {
      WriterState(format, hasFile, resources, maxResources, closed, warnedLimit, output)
    }

    /** `NewWriterWithLimit`. */
    constructor NewWriterWithLimit(outputPath: string, format: Format, maxResources: int)
      ensures State() == Initial(outputPath, format, maxResources)
    {
      this.format := format;
      hasFile := !(outputPath == "" || outputPath == "-");
      resources := [];
      this.maxResources := EffectiveLimit(maxResources);
      closed := false;
      warnedLimit := false;
      output := [];
    }

    /** `NewWriter`: the default ceiling. */
    constructor NewWriter(outputPath: string, format: Format)
      ensures State() == Initial(outputPath, format, DefaultMaxResources)
    {
      this.format := format;
      hasFile := !(outputPath == "" || outputPath == "-");
      resources := [];
      maxResources := DefaultMaxResources;
      closed := false;
      warnedLimit := false;
      output := [];
    }

    method Write(x: T, sinkOk: bool) returns (err: Option<WriteError>)
      requires maxResources > 0
      modifies this
      ensures (State(), err) == WriteStep(old(State()), x, sinkOk)
    {
      if format == Ndjson {
        if !sinkOk {
          return Some(SinkFailed);
        }
        output := output + [Line(x)];
        return None;
      }
      var currentCount := |resources|;
      if !warnedLimit && currentCount >= WarnThreshold(maxResources) {
        warnedLimit := true;
      }
      if currentCount >= maxResources {
        return Some(LimitExceeded(maxResources));
      }
      resources := resources + [x];
      return None;
    }

    /** `writeBundle`: one entry per buffered resource, in order, and the
        total. */
    method WriteBundle(sinkOk: bool) returns (ok: bool)
      modifies this`output
      ensures ok == sinkOk
      ensures output == if sinkOk then old(output) + [BundleDoc(resources, |resources|)] else old(output)
    {
      var entries: seq<T> := [];
      for i := 0 to |resources|
        invariant entries == resources[..i]
      {
        entries := entries + [resources[i]];
      }
      assert resources[..|resources|] == resources;
      var total := |entries|;
      if !sinkOk {
        return false;
      }
      output := output + [BundleDoc(entries, total)];
      return true;
    }

    method Close(sinkOk: bool, fileCloseOk: bool) returns (err: Option<CloseError>)
      modifies this
      ensures (State(), err) == CloseStep(old(State()), sinkOk, fileCloseOk)
    {
      if closed {
        return None;
      }
      closed := true;
      var bundleErr := false;
      if format == Bundle && |resources| > 0 {
        var ok := WriteBundle(sinkOk);
        bundleErr := !ok;
      }
      var closeErr := false;
      if hasFile {
        closeErr := !fileCloseOk;
        hasFile := false;
      }
      if bundleErr {
        return Some(BundleFailed);
      }
      if closeErr {
        return Some(FileCloseFailed);
      }
      return None;
    }
  }

  // ---------------------------------------------------------------------
  // Properties of the state machine
  // ---------------------------------------------------------------------

  lemma InitialInv<T>(outputPath: string, format: Format, maxResources: int)
    ensures Inv(Initial<T>(outputPath, format, maxResources))
    ensures Initial<T>(outputPath, format, maxResources).maxResources == EffectiveLimit(maxResources)
  {
  }

  /** Writing and closing keep the invariant: the buffer never exceeds the
      ceiling. */
  lemma WriteKeepsInv<T>(s: WriterState<T>, x: T, sinkOk: bool)
    requires Inv(s)
    ensures Inv(WriteStep(s, x, sinkOk).0)
  {
    var s' := WriteStep(s, x, sinkOk).0;
    assert forall k :: 0 <= k < |s.output| ==> s'.output[k] == s.output[k];
  }

  lemma CloseKeepsInv<T>(s: WriterState<T>, sinkOk: bool, fileCloseOk: bool)
    requires Inv(s)
    ensures Inv(CloseStep(s, sinkOk, fileCloseOk).0)
  {
    var s' := CloseStep(s, sinkOk, fileCloseOk).0;
    assert forall k :: 0 <= k < |s.output| ==> s'.output[k] == s.output[k];
  }

  /** In bundle mode a write fails, storing nothing, exactly when the buffer
      is full, and otherwise appends; nothing reaches the sink. */
  lemma BundleWrite<T>(s: WriterState<T>, x: T, sinkOk: bool)
    requires s.maxResources > 0 && s.format == Bundle
    ensures var (s', err) := WriteStep(s, x, sinkOk);
      (err.Some? <==> |s.resources| >= s.maxResources) &&
      (err.Some? ==> err.value == LimitExceeded(s.maxResources) && s'.resources == s.resources) &&
      (err.None? ==> s'.resources == s.resources + [x]) &&
      s'.output == s.output
  {
  }

  /** In NDJSON mode a write emits the resource as one line, never buffers
      and is never refused for the ceiling. */
  lemma NdjsonWrite<T>(s: WriterState<T>, x: T, sinkOk: bool)
    requires s.maxResources > 0 && s.format == Ndjson
    ensures var (s', err) := WriteStep(s, x, sinkOk);
      s'.resources == s.resources && s'.warnedLimit == s.warnedLimit &&
      (err.None? <==> sinkOk) && (err.Some? ==> err.value == SinkFailed) &&
      s'.output == (if sinkOk then s.output + [Line(x)] else s.output)
  {
  }

  /** The near-limit warning is given at most once: the flag only goes from
      false to true, and it goes there on a bundle write with the buffer at
      the threshold or above. */
  lemma WarningOnce<T>(s: WriterState<T>, x: T, sinkOk: bool, closeOk: bool, fileCloseOk: bool)
    requires s.maxResources > 0
    ensures s.warnedLimit ==> WriteStep(s, x, sinkOk).0.warnedLimit
    ensures s.warnedLimit ==> CloseStep(s, closeOk, fileCloseOk).0.warnedLimit
    ensures !s.warnedLimit ==>
      (WriteStep(s, x, sinkOk).0.warnedLimit <==> s.format == Bundle && |s.resources| >= WarnThreshold(s.maxResources))
  {
  }

  /** `Close` is idempotent: a second call succeeds and changes nothing. */
  lemma CloseIdempotent<T>(s: WriterState<T>, ok1: bool, fc1: bool, ok2: bool, fc2: bool)
    ensures var s1 := CloseStep(s, ok1, fc1).0;
      s1.closed && CloseStep(s1, ok2, fc2) == (s1, None)
  {
  }

  /** Closing a bundle writer emits one bundle exactly when resources are
      buffered and the sink accepts it; its entries are the buffered
      resources in write order and its total is their number. */
  lemma CloseEmitsBundle<T>(s: WriterState<T>, sinkOk: bool, fileCloseOk: bool)
    requires !s.closed && s.format == Bundle
    ensures var (s', err) := CloseStep(s, sinkOk, fileCloseOk);
      (|s.resources| > 0 && sinkOk ==> s'.output == s.output + [BundleDoc(s.resources, |s.resources|)]) &&
      (|s.resources| == 0 || !sinkOk ==> s'.output == s.output) &&
      (err == Some(BundleFailed) <==> |s.resources| > 0 && !sinkOk)
  {
  }

  /** Closing a writer whose file does not close reports that failure, unless
      the bundle failed first. */
  lemma CloseReportsFileError<T>(s: WriterState<T>, sinkOk: bool)
    requires !s.closed && s.hasFile
    requires s.format == Ndjson || |s.resources| == 0 || sinkOk
    ensures CloseStep(s, sinkOk, false).1 == Some(FileCloseFailed)
    ensures !CloseStep(s, sinkOk, false).0.hasFile
  {
  }

  /** A run of bundle writes. */
  function WriteMany<T>(s: WriterState<T>, xs: seq<T>): (r: WriterState<T>)
    requires s.maxResources > 0
    ensures r.maxResources == s.maxResources && r.format == s.format
  {
    if |xs| == 0 then s else WriteStep(WriteMany(s, xs[..|xs| - 1]), xs[|xs| - 1], true).0
  }

  function Min(a: int, b: int): int {
    if a <= b then a else b
  }

  /** A bundle writer keeps the first resources written, in order, up to its
      ceiling, and refuses every write after that. */
  lemma {:induction false} BundleKeepsFirst<T>(s: WriterState<T>, xs: seq<T>)
    requires s.maxResources > 0 && s.format == Bundle && |s.resources| <= s.maxResources
    ensures WriteMany(s, xs).resources == (s.resources + xs)[..Min(|s.resources| + |xs|, s.maxResources)]
  {
    if |xs| > 0 {
      var n := |xs| - 1;
      BundleKeepsFirst(s, xs[..n]);
      var all := s.resources + xs;
      assert (s.resources + xs[..n]) == all[..|s.resources| + n];
      var prev := WriteMany(s, xs[..n]).resources;
      if |s.resources| + n < s.maxResources {
        assert prev + [xs[n]] == all[..|s.resources| + n + 1];
      }
    }
  }

  /** With a ceiling of two, the third write to a bundle fails and the
      bundle holds the first two. */
  lemma LimitOfTwo(a: int, b: int, c: int)
    ensures var s0 := Initial<int>("out.json", Bundle, 2);
      var w1 := WriteStep(s0, a, true);
      var w2 := WriteStep(w1.0, b, true);
      var w3 := WriteStep(w2.0, c, true);
      w1.1.None? && w2.1.None? && w3.1 == Some(LimitExceeded(2)) && w3.0.resources == [a, b] &&
      CloseStep(w3.0, true, true).0.output == [BundleDoc([a, b], 2)] && CloseStep(w3.0, true, true).1.None?
  {
    var s0 := Initial<int>("out.json", Bundle, 2);
    assert s0.maxResources == 2 && s0.resources == [] && s0.output == [];
    var s1 := WriteStep(s0, a, true).0;
    assert s1.resources == [a];
    var s2 := WriteStep(s1, b, true).0;
    assert s2.resources == [a, b];
  }
}
