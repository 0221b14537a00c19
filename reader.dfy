/** The row reader: the first record of a tabular source gives the column
    names, and every later record becomes a map from column name to value
    with a row number counting the header as row 1. The tokenising record
    source is abstract: a sequence of outcomes, each a record or an error,
    and end-of-data once it is exhausted. */
module CsvReader {
  import opened Wrappers

  datatype ReadError = Eof | Failed(message: string)

  /** What one read of the record source gives. */
  datatype Outcome = Record(fields: seq<string>) | Error(err: ReadError)

  datatype Row = Row(data: map<string, string>, rowNumber: int)

  /** The next outcome of the source and what remains; an exhausted source
      keeps reporting end-of-data. */
  function Next(pending: seq<Outcome>): (r: (Outcome, seq<Outcome>))
    ensures |pending| > 0 ==> r == (pending[0], pending[1..])
    ensures |pending| == 0 ==> r == (Error(Eof), [])
  {
    if |pending| == 0 then (Error(Eof), []) else (pending[0], pending[1..])
  }

  /** The value of column `i`: the record's field, or `""` when the record
      is shorter than the header. */
  function Cell(record: seq<string>, i: int): string {
    if 0 <= i < |record| then record[i] else ""
  }

  /** The row map the header loop builds, one header at a time; a repeated
      header keeps the value of its last column. */
  function RowData(headers: seq<string>, record: seq<string>): (m: map<string, string>)
    ensures m.Keys == set h | h in headers
  {
    if |headers| == 0 then map[]
    else RowData(headers[..|headers| - 1], record)[headers[|headers| - 1] := Cell(record, |headers| - 1)]
  }

  /** The column a header names is its last occurrence. */
  predicate LastOccurrence(headers: seq<string>, i: int) {
    0 <= i < |headers| && forall j :: i < j < |headers| ==> headers[j] != headers[i]
  }

  /** Each header maps to the field of its (last) column, or `""`. */
  lemma {:induction false} RowDataAt(headers: seq<string>, record: seq<string>, i: int)
    requires LastOccurrence(headers, i)
    ensures RowData(headers, record)[headers[i]] == Cell(record, i)
  {
    var n := |headers| - 1;
    if i < n {
      assert LastOccurrence(headers[..n], i) by {
        assert forall j :: i < j < n ==> headers[..n][j] == headers[j];
      }
      RowDataAt(headers[..n], record, i);
      assert headers[..n][i] == headers[i];
    }
  }

  /** With distinct column names, header `i` maps to field `i`, or to `""`
      when the record is shorter. */
  lemma DistinctHeaders(headers: seq<string>, record: seq<string>)
    requires forall i, j :: 0 <= i < j < |headers| ==> headers[i] != headers[j]
    ensures RowData(headers, record).Keys == set h | h in headers
    ensures forall i :: 0 <= i < |headers| ==>
      RowData(headers, record)[headers[i]] == (if i < |record| then record[i] else "")
  {
    forall i | 0 <= i < |headers|
      ensures RowData(headers, record)[headers[i]] == Cell(record, i)
    {
      RowDataAt(headers, record, i);
    }
  }

  /** The reader's observable state: the column names, the number of the
      row last read, and what the record source has still to give. */
  datatype ReaderState = ReaderState(headers: seq<string>, rowNumber: int, pending: seq<Outcome>)

  /** `NewReader` after opening: the first record is the header, and row 1. */
  function Open(source: seq<Outcome>): (r: Result<ReaderState, ReadError>)
    ensures r.Success? <==> |source| > 0 && source[0].Record?
    ensures r.Success? ==> r.value == ReaderState(source[0].fields, 1, source[1..])
    ensures |source| == 0 ==> r == Failure(Eof)
  {
    match Next(source).0
    case Record(h) => Success(ReaderState(h, 1, Next(source).1))
    case Error(e) => Failure(e)
  }

  /** `Read`: an error of the source is returned unchanged and does not
      advance the row number; a record becomes the next row. */
  function ReadStep(s: ReaderState): (ReaderState, Result<Row, ReadError>) {
    var (o, rest) := Next(s.pending);
    match o
    case Error(e) => (s.(pending := rest), Failure(e))
    case Record(fields) =>
      (s.(rowNumber := s.rowNumber + 1, pending := rest), Success(Row(RowData(s.headers, fields), s.rowNumber + 1)))
  }

  /** `ReadAll`: rows up to end-of-data, or, on any other error, that error
      and no rows. */
  function ReadAllFrom(s: ReaderState): (ReaderState, Result<seq<Row>, ReadError>)
    decreases |s.pending|
  {
    var (s1, r) := ReadStep(s);
    if r.Failure? then (s1, if r.error == Eof then Success([]) else Failure(r.error))
    else
      var (s2, rest) := ReadAllFrom(s1);
      (s2, if rest.Success? then Success([r.value] + rest.value) else rest)
  }

  /** The rows a list of records gives, numbered from `n`. */
  function Rows(headers: seq<string>, records: seq<seq<string>>, n: int): (rows: seq<Row>)
    ensures |rows| == |records|
    ensures forall k :: 0 <= k < |records| ==> rows[k] == Row(RowData(headers, records[k]), n + k)
  {
    seq(|records|, k requires 0 <= k < |records| => Row(RowData(headers, records[k]), n + k))
  }

  function AsOutcomes(records: seq<seq<string>>): (os: seq<Outcome>)
    ensures |os| == |records| && forall k :: 0 <= k < |records| ==> os[k] == Record(records[k])
  {
    seq(|records|, k requires 0 <= k < |records| => Record(records[k]))
  }

  /** A source of records followed by end-of-data, or by an error: `ReadAll`
      gives one row per record, in order, numbered on from the current row;
      an error other than end-of-data gives that error instead. */
  lemma {:induction false} ReadAllRecords(s: ReaderState, records: seq<seq<string>>, tail: seq<Outcome>)
    requires s.pending == AsOutcomes(records) + tail
    requires tail == [] || tail[0].Error?
    decreases |records|
    ensures ReadAllFrom(s).1 ==
      if tail == [] || tail[0].err == Eof then Success(Rows(s.headers, records, s.rowNumber + 1))
      else Failure(tail[0].err)
  {
    if |records| == 0 {
      assert s.pending == tail;
    } else {
      var s1 := ReadStep(s).0;
      assert s.pending[0] == Record(records[0]);
      assert s1.pending == AsOutcomes(records[1..]) + tail by {
        assert s.pending[1..] == AsOutcomes(records[1..]) + tail;
      }
      ReadAllRecords(s1, records[1..], tail);
      var rows := Rows(s.headers, records, s.rowNumber + 1);
      assert rows == [rows[0]] + Rows(s.headers, records[1..], s.rowNumber + 2);
    }
  }

  /** The header alone: reading gives end-of-data at once. */
  lemma HeaderOnly(h: seq<string>)
    ensures Open([Record(h)]).Success?
    ensures ReadStep(Open([Record(h)]).value).1 == Failure(Eof)
  {
  }

  /** Row numbers: the first data row is row 2, the next row 3. */
  lemma FirstRowsNumbered(h: seq<string>, a: seq<string>, b: seq<string>)
    ensures var s0 := Open([Record(h), Record(a), Record(b)]).value;
      var (s1, r1) := ReadStep(s0);
      var (s2, r2) := ReadStep(s1);
      r1 == Success(Row(RowData(h, a), 2)) && r2 == Success(Row(RowData(h, b), 3)) &&
      ReadStep(s2).1 == Failure(Eof)
  {
    var s0 := Open([Record(h), Record(a), Record(b)]).value;
    assert s0.pending == [Record(a), Record(b)];
    var s1 := ReadStep(s0).0;
    assert s1.pending == [Record(b)];
  }

  class Reader {
    var headers: seq<string>
    var rowNumber: int
    var pending: seq<Outcome>

    function State(): ReaderState
      reads this
    {
      ReaderState(headers, rowNumber, pending)
    }

    constructor (h: seq<string>, rest: seq<Outcome>)
      ensures State() == ReaderState(h, 1, rest)
    {
      headers := h;
      rowNumber := 1;
      pending := rest;
    }

    /** `Headers`. */
    function Headers(): (h: seq<string>)
      reads this
      ensures h == State().headers
    {
      headers
    }

    method NextOutcome() returns (o: Outcome)
      modifies this`pending
      ensures (o, pending) == Next(old(pending))
    {
      if |pending| == 0 {
        return Error(Eof);
      }
      o := pending[0];
      pending := pending[1..];
    }

    method Read() returns (r: Result<Row, ReadError>)
      modifies this
      ensures (State(), r) == ReadStep(old(State()))
    {
      var record := NextOutcome();
      if record.Error? {
        return Failure(record.err);
      }
      rowNumber := rowNumber + 1;
      var rowData: map<string, string> := map[];
      for i := 0 to |headers|
        invariant rowData == RowData(headers[..i], record.fields)
      {
        assert headers[..i + 1][..i] == headers[..i];
        if i < |record.fields| {
          rowData := rowData[headers[i] := record.fields[i]];
        } else {
          rowData := rowData[headers[i] := ""];
        }
      }
      assert headers[..|headers|] == headers;
      return Success(Row(rowData, rowNumber));
    }

    method ReadAll() returns (r: Result<seq<Row>, ReadError>)
      modifies this
      ensures (State(), r) == ReadAllFrom(old(State()))
    {
      var rows: seq<Row> := [];
      PrefixedNone(ReadAllFrom(State()));
      while true
        invariant ReadAllFrom(old(State())) == Prefixed(rows, ReadAllFrom(State()))
        decreases |pending|
      {
        ghost var before := State();
        var row := Read();
        if row.Failure? && row.error == Eof {
          assert Prefixed(rows, ReadAllFrom(before)) == (State(), Success(rows + []));
          assert rows + [] == rows;
          return Success(rows);
        }
        if row.Failure? {
          return Failure(row.error);
        }
        PrefixedStep(rows, before);
        rows := rows + [row.value];
      }
    }
  }

  /** `NewReader` on an opened source: the header record is read first; a
      source that fails or ends before it gives no reader. */
  method NewReader(source: seq<Outcome>) returns (reader: Reader?, err: Option<ReadError>)
    ensures err.None? <==> Open(source).Success?
    ensures err.None? ==> reader != null && fresh(reader) && reader.State() == Open(source).value
    ensures err.Some? ==> reader == null && err.value == Open(source).error
  {
    if |source| == 0 {
      return null, Some(Eof);
    }
    var first := source[0];
    if first.Error? {
      return null, Some(first.err);
    }
    reader := new Reader(first.fields, source[1..]);
    err := None;
  }

  /** `rows` read before the rest of a `ReadAll` run. */
  function Prefixed(rows: seq<Row>, run: (ReaderState, Result<seq<Row>, ReadError>)): (ReaderState, Result<seq<Row>, ReadError>) {
    (run.0, if run.1.Success? then Success(rows + run.1.value) else run.1)
  }

  lemma PrefixedNone(run: (ReaderState, Result<seq<Row>, ReadError>))
    ensures Prefixed([], run) == run
  {
    if run.1.Success? {
      assert [] + run.1.value == run.1.value;
    }
  }

  /** One more row read moves from the rest of the run to the prefix. */
  lemma PrefixedStep(rows: seq<Row>, s: ReaderState)
    requires ReadStep(s).1.Success?
    ensures Prefixed(rows, ReadAllFrom(s)) == Prefixed(rows + [ReadStep(s).1.value], ReadAllFrom(ReadStep(s).0))
  {
    var rest := ReadAllFrom(ReadStep(s).0);
    if rest.1.Success? {
      assert rows + ([ReadStep(s).1.value] + rest.1.value) == rows + [ReadStep(s).1.value] + rest.1.value;
    }
  }
}
