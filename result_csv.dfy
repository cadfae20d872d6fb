/** The output file's text (src/index.ts:126-129): the header line
    `address,response`, then one `address,response` line per record, each
    ended by a line feed. Fields are written as they are, without quoting. */
module ResultCsv {
  import opened Lines
  import opened SendLoop

  /** First line of every output file. */
  const OutputHeader: string := "address,response"

  /** The line written for one record, without its line feed: the address,
      a comma and the response, unquoted (`ParseRowOfRow` reads it back). It
      stays on one line exactly when neither field holds a line feed. */
  function Row(r: Record): (line: string)
    ensures |line| == |r.address| + 1 + |r.response|
    ensures '\n' in line <==> '\n' in r.address || '\n' in r.response
  {
    r.address + "," + r.response
  }

  /** The record lines, each followed by a line feed: empty exactly when
      there are no records, otherwise ending in a line feed. */
  function Rows(records: seq<Record>): (text: string)
    ensures text == [] <==> records == []
    ensures text == [] || text[|text| - 1] == '\n'
  {
    if records == [] then "" else Row(records[0]) + "\n" + Rows(records[1..])
  }

  /** When no field holds a line feed, the record lines hold exactly one
      line feed per record. */
  lemma {:induction false} RowsLineFeeds(records: seq<Record>)
    requires SingleLine(records)
    ensures multiset(Rows(records))['\n'] == |records|
    decreases |records|
  {
    if records != [] {
      assert SingleLine(records[1..]);
      RowsLineFeeds(records[1..]);
      assert '\n' !in Row(records[0]);
      assert multiset(Row(records[0]))['\n'] == 0;
      assert Rows(records) == Row(records[0]) + "\n" + Rows(records[1..]);
    }
  }

  /** The complete output text: it starts with the header line and always
      ends with a line feed. */
  function Serialize(records: seq<Record>): (csv: string)
    ensures |csv| > |OutputHeader| && csv[..|OutputHeader| + 1] == OutputHeader + "\n"
    ensures csv[|csv| - 1] == '\n'
  {
    OutputHeader + "\n" + Rows(records)
  }

  /** The record lines, in record order. */
  function RowLines(records: seq<Record>): (lines: seq<string>)
    ensures |lines| == |records|
    ensures forall i :: 0 <= i < |records| ==> lines[i] == Row(records[i])
  {
    if records == [] then [] else [Row(records[0])] + RowLines(records[1..])
  }

  /** No field holds a line feed, so every record stays on one line. */
  predicate SingleLine(records: seq<Record>) {
    forall i :: 0 <= i < |records| ==>
      '\n' !in records[i].address && '\n' !in records[i].response
  }

  /** The loop that grows `csvContent`, one record at a time. */
  method BuildCsv(records: seq<Record>) returns (csv: string)
    ensures csv == Serialize(records)
  {
    csv := OutputHeader + "\n";
    for i := 0 to |records|
      invariant csv == OutputHeader + "\n" + Rows(records[..i])
    {
      RowsAppend(records[..i], records[i]);
      assert records[..i + 1] == records[..i] + [records[i]];
      csv := csv + records[i].address + "," + records[i].response + "\n";
    }
    assert records[..|records|] == records;
  }

  /** Appending a record appends its line. */
  lemma {:induction false} RowsAppend(records: seq<Record>, r: Record)
    ensures Rows(records + [r]) == Rows(records) + Row(r) + "\n"
    decreases |records|
  {
    if records == [] {
      assert [r][1..] == [];
    } else {
      assert (records + [r])[1..] == records[1..] + [r];
      RowsAppend(records[1..], r);
    }
  }

  /** Splitting the record lines on line feeds gives one line per record, in
      order, then the empty piece after the last line feed. */
  lemma {:induction false} SplitRows(records: seq<Record>)
    requires SingleLine(records)
    ensures Split(Rows(records)) == RowLines(records) + [""]
    decreases |records|
  {
    if records != [] {
      assert '\n' !in Row(records[0]);
      SplitNoLineFeed(Row(records[0]));
      SplitAppend(Row(records[0]), Rows(records[1..]));
      assert SingleLine(records[1..]);
      SplitRows(records[1..]);
    }
  }

  /** Splitting the output on line feeds gives the header, the n record lines
      in order and a final empty piece. */
  lemma SerializeLines(records: seq<Record>)
    requires SingleLine(records)
    ensures Split(Serialize(records)) == [OutputHeader] + RowLines(records) + [""]
  {
    var rows := Rows(records);
    var csv := OutputHeader + "\n" + rows;
    assert Serialize(records) == csv;
    SplitNoLineFeed(OutputHeader);
    SplitAppend(OutputHeader, rows);
    SplitRows(records);
    assert Split(csv) == [OutputHeader] + (RowLines(records) + [""]);
  }

  /** Reading one line back: the address is everything before the first
      comma and the response everything after it. */
  function ParseRow(line: string): (r: Record)
    ensures ',' !in r.address
    ensures ',' in line ==> line == r.address + "," + r.response
  {
    if line == [] then Record("", "")
    else if line[0] == ',' then Record("", line[1..])
    else
      var rest := ParseRow(line[1..]);
      assert ',' in line ==> ',' in line[1..];
      Record([line[0]] + rest.address, rest.response)
  }

  /** A record whose address holds no comma reads back as itself; the
      response may hold commas. */
  lemma {:induction false} ParseRowOfRow(r: Record)
    requires ',' !in r.address
    ensures ParseRow(Row(r)) == r
    decreases |r.address|
  {
    if r.address != [] {
      var rest := Record(r.address[1..], r.response);
      assert Row(r)[1..] == Row(rest);
      ParseRowOfRow(rest);
    }
  }

  /** Reads every line back into a record. */
  function ParseRows(lines: seq<string>): (records: seq<Record>)
    ensures |records| == |lines|
    ensures forall i :: 0 <= i < |lines| ==> records[i] == ParseRow(lines[i])
  {
    if lines == [] then [] else [ParseRow(lines[0])] + ParseRows(lines[1..])
  }

  /** The outcome of reading an output file back. */
  datatype Parsed = Parsed(records: seq<Record>) | Unparseable

  /** Reads an output file: the header line, one line per record, and
      nothing after the final line feed. */
  function ParseCsv(csv: string): (p: Parsed)
    ensures p.Parsed? ==> Split(csv)[0] == OutputHeader && |p.records| == |Split(csv)| - 2
  {
    var lines := Split(csv);
    if |lines| >= 2 && lines[0] == OutputHeader && lines[|lines| - 1] == "" then
      Parsed(ParseRows(lines[1..|lines| - 1]))
    else Unparseable
  }

  /** The output reads back as the records that were written, as long as no
      field holds a line feed and no address holds a comma. */
  lemma ParseSerialize(records: seq<Record>)
    requires SingleLine(records)
    requires forall i :: 0 <= i < |records| ==> ',' !in records[i].address
    ensures ParseCsv(Serialize(records)) == Parsed(records)
  {
    SerializeLines(records);
    var lines := Split(Serialize(records));
    assert lines[1..|lines| - 1] == RowLines(records);
    var back := ParseRows(RowLines(records));
    forall i | 0 <= i < |records| ensures back[i] == records[i] {
      ParseRowOfRow(records[i]);
    }
  }
}
