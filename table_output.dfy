/** Writing the merged records as a separated table (tools/parse_csv.py:8-19, 146-178):
  * the columns are the first record's keys, or the header line of the file being
  * appended to; a record's missing fields become empty cells. */
module TableOutput {
  import opened Wrappers
  import opened Strings
  import opened DataModel
  import opened Grouping

  /** `str(v)`: a string field as it is; a number as rendered by `showNum`, which stands for
    * Python's float formatting. */
  function Show(v: Value, showNum: real -> string): (text: string) {
    match v
    case Num(x) => showNum(x)
    case Text(s) => s
  }

  /** The cells of a row: one per header, the field's text or `''` when the record lacks it. */
  function RowCells(r: Record, headers: seq<string>, showNum: real -> string): (cells: seq<string>)
    ensures |cells| == |headers|
    ensures forall i :: 0 <= i < |headers| ==>
      cells[i] == if headers[i] in r.fields then Show(r.fields[headers[i]], showNum) else ""
    decreases |headers|
  {
    if headers == [] then []
    else
      var h := Last(headers);
      RowCells(r, headers[..|headers| - 1], showNum) + [if h in r.fields then Show(r.fields[h], showNum) else ""]
  }

  /** `output_row`: the cells collected one header at a time, then joined by the separator. */
  method OutputRow(values: Record, headers: seq<string>, sep: string, showNum: real -> string) returns (line: string)
    ensures line == Join(RowCells(values, headers, showNum), sep)
  {
    var vals: seq<string> := [];
    for i := 0 to |headers|
      invariant vals == RowCells(values, headers[..i], showNum)
    {
      var h := headers[i];
      if h in values.fields {
        vals := vals + [Show(values.fields[h], showNum)];
      } else {
        vals := vals + [""];
      }
      assert headers[..i + 1][..i] == headers[..i];
    }
    assert headers[..|headers|] == headers;
    line := Join(vals, sep);
  }

  /** A row written with a one-character separator that occurs in no cell splits back into
    * exactly its cells, one per column. */
  lemma RowRoundTrip(r: Record, headers: seq<string>, c: char, showNum: real -> string)
    requires |headers| > 0
    requires forall i :: 0 <= i < |headers| ==> c !in RowCells(r, headers, showNum)[i]
    ensures Split(Join(RowCells(r, headers, showNum), [c]), [c]) == RowCells(r, headers, showNum)
  {
    SplitJoin(RowCells(r, headers, showNum), c);
  }

  /** The columns to write and whether a header line goes first. */
  datatype Layout = Layout(columns: seq<string>, needsHeader: bool)

  /** The column choice (tools/parse_csv.py:147-159): `existing` is the content of the
    * output file when appending to a file that exists, `None` otherwise. A non-empty first
    * line of that file, split by `sep`, fixes the columns and suppresses the header;
    * otherwise the columns are the first record's keys. Splitting by an empty separator
    * raises a ValueError. */
  function SelectColumns(first: Record, existing: Option<string>, sep: string): (r: Result<Layout, Crash>)
    ensures r.Ok? ==> (r.value.needsHeader <==> existing.None? || FirstLine(existing.value) == "")
    ensures r.Ok? && r.value.needsHeader ==> r.value.columns == first.keys
    ensures r.Ok? && !r.value.needsHeader ==> Join(r.value.columns, sep) == FirstLine(existing.value)
    ensures r.Ok? && !r.value.needsHeader ==>
      |r.value.columns| >= 1 && Leftmost(r.value.columns, sep)
      && forall k, j :: 0 <= k < |r.value.columns| ==> !OccursAt(r.value.columns[k], sep, j)
    ensures r.Err? <==> existing.Some? && FirstLine(existing.value) != "" && sep == ""
  {
    if existing.Some? && FirstLine(existing.value) != "" then
      if sep == "" then Err(ValueError)
      else
        SplitLeftmost(FirstLine(existing.value), sep);
        Ok(Layout(Split(FirstLine(existing.value), sep), false))
    else Ok(Layout(first.keys, true))
  }

  /** The contract of `SelectColumns` alone pins the columns read from an existing header:
    * they are `header.split(sep)`, for separators of any length. */
  lemma ChosenColumnsAreSplit(first: Record, existing: Option<string>, sep: string)
    requires SelectColumns(first, existing, sep).Ok? && !SelectColumns(first, existing, sep).value.needsHeader
    ensures existing.Some? && sep != ""
    ensures SelectColumns(first, existing, sep).value.columns == Split(FirstLine(existing.value), sep)
  {
    SplitUnique(SelectColumns(first, existing, sep).value.columns, sep);
  }

  /** All output lines: the header (when needed) and one row per record. Taking the first
    * record's keys raises an IndexError when there are no records. */
  function Table(values: seq<Record>, existing: Option<string>, sep: string, showNum: real -> string): (r: Result<seq<string>, Crash>)
    ensures values == [] ==> r == Err(IndexError)
    ensures values != [] ==> (r.Err? <==> existing.Some? && FirstLine(existing.value) != "" && sep == "")
    ensures values != [] && r.Err? ==> r == Err(ValueError)
  {
    if values == [] then Err(IndexError)
    else
      match SelectColumns(values[0], existing, sep)
      case Err(e) => Err(e)
      case Ok(layout) =>
        Ok(HeaderLines(layout, sep) + Rows(values, layout.columns, sep, showNum))
  }

  /** `output_headers`, when the layout asks for a header: the columns joined by the separator. */
  function HeaderLines(layout: Layout, sep: string): (lines: seq<string>)
    ensures |lines| == if layout.needsHeader then 1 else 0
  {
    if layout.needsHeader then [Join(layout.columns, sep)] else []
  }

  /** The row lines of the records, in order. */
  function Rows(values: seq<Record>, columns: seq<string>, sep: string, showNum: real -> string): (rows: seq<string>)
    ensures |rows| == |values|
    decreases |values|
  {
    if values == [] then []
    else Rows(values[..|values| - 1], columns, sep, showNum) + [Join(RowCells(Last(values), columns, showNum), sep)]
  }

  /** Row `k` is record `k`'s cells joined by the separator. */
  lemma {:induction false} RowsAt(values: seq<Record>, columns: seq<string>, sep: string, showNum: real -> string, k: int)
    requires 0 <= k < |values|
    ensures Rows(values, columns, sep, showNum)[k] == Join(RowCells(values[k], columns, showNum), sep)
    decreases |values|
  {
    if k < |values| - 1 {
      RowsAt(values[..|values| - 1], columns, sep, showNum, k);
    }
  }

  /** One more record adds its row. */
  lemma RowsSnoc(values: seq<Record>, columns: seq<string>, sep: string, showNum: real -> string, k: int)
    requires 0 <= k < |values|
    ensures Rows(values[..k + 1], columns, sep, showNum) ==
      Rows(values[..k], columns, sep, showNum) + [Join(RowCells(values[k], columns, showNum), sep)]
  {
    assert values[..k + 1][..k] == values[..k];
  }

  /** The column choice as the source writes it: start from the first record's keys and
    * let a non-empty header line of the appended file override them. */
  method ChooseColumns(first: Record, existing: Option<string>, sep: string) returns (r: Result<Layout, Crash>)
    ensures r == SelectColumns(first, existing, sep)
  {
    var columns := first.keys;
    var needsHeader := true;
    if existing.Some? {
      var header := FirstLine(existing.value);
      if |header| != 0 {
        if sep == "" {
          return Err(ValueError);
        }
        columns := Split(header, sep);
        needsHeader := false;
      }
    }
    return Ok(Layout(columns, needsHeader));
  }

  /** The output step (tools/parse_csv.py:147-178) with the file plumbing left out: the
    * columns, the header line when needed, then `output_row` for every record. */
  method WriteTable(values: seq<Record>, existing: Option<string>, sep: string, showNum: real -> string)
    returns (r: Result<seq<string>, Crash>)
    ensures r == Table(values, existing, sep, showNum)
  {
    if values == [] {
      return Err(IndexError);
    }
    var layout := ChooseColumns(values[0], existing, sep);
    if layout.Err? {
      return Err(layout.error);
    }
    var columns := layout.value.columns;
    var header: seq<string> := [];
    if layout.value.needsHeader {
      header := [Join(columns, sep)];
    }
    var rows := OutputRows(values, columns, sep, showNum);
    return Ok(header + rows);
  }

  /** The row loop (tools/parse_csv.py:177-178): `output_row` for every record, in order. */
  method OutputRows(values: seq<Record>, columns: seq<string>, sep: string, showNum: real -> string)
    returns (rows: seq<string>)
    ensures rows == Rows(values, columns, sep, showNum)
  {
    rows := [];
    for k := 0 to |values|
      invariant rows == Rows(values[..k], columns, sep, showNum)
    {
      var line := OutputRow(values[k], columns, sep, showNum);
      RowsSnoc(values, columns, sep, showNum, k);
      rows := rows + [line];
    }
    assert values[..|values|] == values;
  }

  /** The table has a header line exactly when one is needed, then one row per record, and
    * every row has one cell per column. */
  lemma {:induction false} TableShape(values: seq<Record>, existing: Option<string>, sep: string, showNum: real -> string)
    requires Table(values, existing, sep, showNum).Ok?
    ensures values != [] && SelectColumns(values[0], existing, sep).Ok?
    ensures var layout := SelectColumns(values[0], existing, sep).value;
      var lines := Table(values, existing, sep, showNum).value;
      |lines| == |values| + (if layout.needsHeader then 1 else 0)
      && (layout.needsHeader ==> lines[0] == Join(values[0].keys, sep))
      && forall k :: 0 <= k < |values| ==>
           lines[k + |lines| - |values|] == Join(RowCells(values[k], layout.columns, showNum), sep)
  {
    var layout := SelectColumns(values[0], existing, sep).value;
    LinesShape(values, layout, sep, showNum);
  }

  /** The shape of the header lines followed by the rows, for any layout. */
  lemma {:induction false} LinesShape(values: seq<Record>, layout: Layout, sep: string, showNum: real -> string)
    ensures var lines := HeaderLines(layout, sep) + Rows(values, layout.columns, sep, showNum);
      |lines| == |values| + (if layout.needsHeader then 1 else 0)
      && (layout.needsHeader ==> lines[0] == Join(layout.columns, sep))
      && forall k :: 0 <= k < |values| ==>
           lines[k + |lines| - |values|] == Join(RowCells(values[k], layout.columns, showNum), sep)
  {
    var head, rows := HeaderLines(layout, sep), Rows(values, layout.columns, sep, showNum);
    forall k | 0 <= k < |values|
      ensures (head + rows)[k + |head|] == Join(RowCells(values[k], layout.columns, showNum), sep)
    {
      RowsAt(values, layout.columns, sep, showNum, k);
      assert (head + rows)[k + |head|] == rows[k];
    }
  }

  /** Appending to a file this program wrote: its header line (the first record's keys) is
    * read back as exactly those columns, and no second header is written. */
  lemma AppendReadsHeaderBack(keys: seq<string>, rest: string, other: Record, c: char)
    requires |keys| > 0 && c != '\n' && Join(keys, [c]) != ""
    requires forall k :: 0 <= k < |keys| ==> c !in keys[k] && '\n' !in keys[k]
    ensures SelectColumns(other, Some(Join(keys, [c]) + "\n" + rest), [c]) == Ok(Layout(keys, false))
  {
    JoinAvoids(keys, [c], '\n');
    FirstLineOf(Join(keys, [c]), rest);
    SplitJoin(keys, c);
  }

  /** Writing a record under an appended file's columns: a field the file has no column
    * for is not written, a column the record lacks gets `''`, and the row keeps the file's
    * column order. */
  lemma AppendedRowExample(showNum: real -> string)
    ensures RowCells(Record(["b", "a", "c"], map["a" := Text("1"), "b" := Text("2"), "c" := Text("3")]), ["a", "b", "d"], showNum)
            == ["1", "2", ""]
  {
  }
}
