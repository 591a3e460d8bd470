/** The single-stream counter parser (parse_csv.py): one merged record per run of lines
  * with one timestamp, later readings of a name overwriting earlier ones, printed as a
  * `;`-separated table behind the four context columns. */
module SingleStream {
  import opened Wrappers
  import opened Strings
  import opened DataModel
  import opened LogLines
  import opened Grouping
  import opened TableOutput

  /** Every line is stripped before it is looked at (parse_csv.py:22). */
  function Stripped(lines: seq<string>): (r: seq<string>)
    ensures |r| == |lines| && forall i :: 0 <= i < |lines| ==> r[i] == Strip(lines[i])
  {
    seq(|lines|, i requires 0 <= i < |lines| => Strip(lines[i]))
  }

  /** Every stripped data line has the four fields the parser reads. */
  predicate Readable(lines: seq<string>) {
    forall i :: 0 <= i < |lines| ==> Parsable(Strip(lines[i]))
  }

  /** The samples of the stripped data lines, in file order (parse_csv.py:21-35). */
  function Samples(lines: seq<string>, toReal: string -> real): (s: seq<Sample>)
    requires Readable(lines)
  {
    var st := Stripped(lines);
    assert forall l <- st :: Parsable(l);
    CounterSamples(st, toReal)
  }

  /** The loop's variables `values` and `last_ts`. */
  datatype Grouped = Grouped(values: seq<Record>, lastTs: Option<real>)

  predicate Coherent(g: Grouped) {
    g.lastTs.Some? ==> |g.values| > 0
  }

  /** One pass of the grouping loop (parse_csv.py:37-43): a new timestamp appends a record
    * holding `ts` and `t_diff`, and the reading is stored into the last record. */
  function GroupStep(g: Grouped, x: Sample): (g': Grouped)
    requires Coherent(g)
    ensures Coherent(g') && g'.lastTs == Some(x.ts) && |g.values| <= |g'.values| <= |g.values| + 1
  {
    var vs :=
      if g.lastTs.None? then g.values + [Opened(x.ts, x.ts, None)]
      else if x.ts != g.lastTs.value then g.values + [Opened(x.ts, x.ts - g.lastTs.value, None)]
      else g.values;
    Grouped(vs[|vs| - 1 := Store(vs[|vs| - 1], x.name, Text(x.value))], Some(x.ts))
  }

  /** The loop run over a whole stream of samples. */
  function GroupAll(s: seq<Sample>): (g: Grouped)
    ensures Coherent(g)
    ensures s == [] <==> g.lastTs.None?
    ensures s != [] ==> g.lastTs == Some(s[|s| - 1].ts) && 1 <= |g.values| <= |s|
    decreases |s|
  {
    if s == [] then Grouped([], None) else GroupStep(GroupAll(s[..|s| - 1]), Last(s))
  }

  /** One more sample is one more pass of the loop. */
  lemma GroupAllSnoc(s: seq<Sample>, x: Sample)
    ensures GroupAll(s + [x]) == GroupStep(GroupAll(s), x)
  {
    assert (s + [x])[..|s|] == s;
  }

  /** The records of runs 0 .. n-1. */
  function Records(rs: seq<seq<Sample>>, n: int): (r: seq<Record>)
    requires NonEmptyRuns(rs) && 0 <= n <= |rs|
    ensures |r| == n && forall k :: 0 <= k < n ==> r[k] == GroupRecord(rs, k, None)
  {
    if n == 0 then [] else Records(rs, n - 1) + [GroupRecord(rs, n - 1, None)]
  }

  lemma RecordsSnoc(rs: seq<seq<Sample>>, n: int)
    requires NonEmptyRuns(rs) && 0 < n <= |rs|
    ensures Records(rs, n) == Records(rs, n - 1) + [GroupRecord(rs, n - 1, None)]
  {
  }

  /** The state after the runs `rs`, the last timestamp being `t`. */
  function GroupedOf(rs: seq<seq<Sample>>, t: real): (g: Grouped)
    requires NonEmptyRuns(rs)
  {
    Grouped(Records(rs, |rs|), Some(t))
  }

  /** What grouping should leave behind, stated over the runs of the stream: one record
    * per run, and `last_ts` the last timestamp. */
  function Expected(s: seq<Sample>): (g: Grouped) {
    RunsShape(s);
    if s == [] then Grouped([], None) else GroupedOf(Runs(s), Last(s).ts)
  }

  /** A sample with the last run's timestamp is stored into the last record. */
  lemma {:induction false} StepJoins(rs: seq<seq<Sample>>, x: Sample)
    requires NonEmptyRuns(rs) && |rs| > 0 && Last(rs)[0].ts == x.ts
    ensures NonEmptyRuns(rs[..|rs| - 1] + [Last(rs) + [x]])
    ensures GroupStep(GroupedOf(rs, x.ts), x) == GroupedOf(rs[..|rs| - 1] + [Last(rs) + [x]], x.ts)
  {
    var n := |rs|;
    var rs' := rs[..n - 1] + [Last(rs) + [x]];
    assert forall k :: 0 <= k < n - 1 ==> rs'[k] == rs[k];
    assert rs'[n - 1] == Last(rs) + [x];
    var recs := Records(rs, n - 1);
    var o := GroupRecord(rs, n - 1, None);
    var g := Store(o, x.name, Text(x.value));
    assert GroupStep(GroupedOf(rs, x.ts), x) == Grouped((recs + [o])[|recs| := g], Some(x.ts));
    UpdateLast(recs, o, g);
    RecordsFrame(rs, rs', n - 1);
    JoinedGroupRecord(rs, rs', n - 1, x, None);
    RecordsSnoc(rs', n);
  }

  /** A sample with another timestamp appends the record of a run of that sample alone. */
  lemma {:induction false} StepOpens(rs: seq<seq<Sample>>, t: real, x: Sample)
    requires NonEmptyRuns(rs) && |rs| > 0 && Last(rs)[0].ts == t && t != x.ts
    ensures NonEmptyRuns(rs + [[x]])
    ensures GroupStep(GroupedOf(rs, t), x) == GroupedOf(rs + [[x]], x.ts)
  {
    var n := |rs|;
    var rs' := rs + [[x]];
    var recs := Records(rs, n);
    var o := Opened(x.ts, x.ts - t, None);
    var g := Store(o, x.name, Text(x.value));
    assert GroupStep(GroupedOf(rs, t), x) == Grouped((recs + [o])[|recs| := g], Some(x.ts));
    UpdateLast(recs, o, g);
    RecordsFrame(rs, rs', n);
    assert rs'[n] == [x] && rs'[n - 1] == Last(rs);
    SingleGroupRecord(rs', n, x, t, None);
    RecordsSnoc(rs', n + 1);
  }

  /** Assigning to the last element of `a + [o]` replaces `o`. */
  lemma UpdateLast<T>(a: seq<T>, o: T, v: T)
    ensures (a + [o])[|a| := v] == a + [v]
  {
  }

  /** The records of the first `n` runs depend only on those runs. */
  lemma {:induction false} RecordsFrame(rs: seq<seq<Sample>>, rs': seq<seq<Sample>>, n: int)
    requires NonEmptyRuns(rs) && NonEmptyRuns(rs') && 0 <= n <= |rs| && n <= |rs'|
    requires forall k :: 0 <= k < n ==> rs[k] == rs'[k]
    ensures Records(rs, n) == Records(rs', n)
  {
    if n > 0 {
      RecordsFrame(rs, rs', n - 1);
      GroupRecordFrame(rs, rs', n - 1, None);
    }
  }

  /** The first sample opens the first record. */
  lemma {:induction false} StepFirst(x: Sample)
    ensures GroupAll([x]) == Expected([x])
  {
    assert [x][..0] == [];
    assert Runs([x]) == [[x]];
    FillSnoc(Opened(x.ts, x.ts, None), [], x);
    assert [] + [x] == [x];
  }

  /** One more sample moves the expected state on by one pass of the loop. */
  lemma ExpectedSnoc(init: seq<Sample>, x: Sample)
    requires init != []
    ensures Coherent(Expected(init))
    ensures GroupStep(Expected(init), x) == Expected(init + [x])
  {
    RunsShape(init);
    RunsShape(init + [x]);
    assert Last(init + [x]) == x;
    if Last(init).ts == x.ts {
      RunsJoin(init, x);
      StepJoins(Runs(init), x);
    } else {
      RunsOpen(init, x);
      StepOpens(Runs(init), Last(init).ts, x);
    }
  }

  /** The loop computes exactly one record per run of the stream. */
  lemma {:induction false} GroupMatchesRuns(s: seq<Sample>)
    ensures GroupAll(s) == Expected(s)
    decreases |s|
  {
    if s != [] {
      var init := s[..|s| - 1];
      var x := Last(s);
      assert s == init + [x];
      if init == [] {
        StepFirst(x);
      } else {
        GroupMatchesRuns(init);
        ExpectedSnoc(init, x);
      }
    }
  }

  /** The number of records is the number of runs: one more than the number of places
    * where the timestamp changes from the line before. */
  lemma RecordCount(s: seq<Sample>)
    ensures |GroupAll(s).values| == |Runs(s)| == if s == [] then 0 else Changes(s) + 1
  {
    GroupMatchesRuns(s);
    RunsCount(s);
  }

  /** The record of run `k` holds its timestamp and `t_diff` (the timestamp for the first
    * run, the distance to the run before otherwise) unless a counter is itself named so;
    * each counter has the reading of its last line in the run; and it has no other field. */
  lemma RunRecord(rs: seq<seq<Sample>>, k: int)
    requires NonEmptyRuns(rs) && 0 <= k < |rs|
    ensures var r := GroupRecord(rs, k, None);
      (!Mentions(rs[k], "ts") ==> "ts" in r.fields && r.fields["ts"] == Num(rs[k][0].ts))
      && (!Mentions(rs[k], "t_diff") ==>
            "t_diff" in r.fields && r.fields["t_diff"] == Num(if k == 0 then rs[0][0].ts else rs[k][0].ts - rs[k - 1][0].ts))
      && (forall j :: 0 <= j < |rs[k]| && LastOfName(rs[k], j) ==>
            rs[k][j].name in r.fields && r.fields[rs[k][j].name] == Text(rs[k][j].value))
      && (forall n :: n in r.fields <==> n == "ts" || n == "t_diff" || Mentions(rs[k], n))
  {
    GroupRecordSpec(rs, k, None);
    OpenedFields(rs[k][0].ts, TDiff(rs, k), None);
  }

  /** The records the loop leaves are those of the runs, so each has the contents
    * `RunRecord` states. */
  lemma RecordsAreRuns(s: seq<Sample>, k: int)
    requires 0 <= k < |Runs(s)|
    ensures WellGrouped(Runs(s)) && |GroupAll(s).values| == |Runs(s)|
    ensures GroupAll(s).values[k] == GroupRecord(Runs(s), k, None)
  {
    RunsShape(s);
    GroupMatchesRuns(s);
  }

  /** The loop body for one sample (parse_csv.py:37-43), on the loop's variables. */
  method GroupSample(values: seq<Record>, lastTs: Option<real>, x: Sample)
    returns (values': seq<Record>, lastTs': Option<real>)
    requires Coherent(Grouped(values, lastTs))
    ensures Grouped(values', lastTs') == GroupStep(Grouped(values, lastTs), x)
  {
    values' := values;
    if lastTs.None? {
      values' := values' + [Opened(x.ts, x.ts, None)];
    } else if x.ts != lastTs.value {
      values' := values' + [Opened(x.ts, x.ts - lastTs.value, None)];
    }
    lastTs' := Some(x.ts);
    values' := values'[|values'| - 1 := Store(values'[|values'| - 1], x.name, Text(x.value))];
  }

  /** The parsing loop (parse_csv.py:21-43): strip each line, skip comments and empty
    * lines, read the sample and group it; the result has one record per run. */
  method GroupLines(lines: seq<string>, toReal: string -> real) returns (g: Grouped)
    requires Readable(lines)
    ensures g == GroupAll(Samples(lines, toReal)) == Expected(Samples(lines, toReal))
  {
    var st := Stripped(lines);
    assert forall l <- st :: Parsable(l);
    var values: seq<Record> := [];
    var lastTs: Option<real> := None;
    for i := 0 to |lines|
      invariant Grouped(values, lastTs) == GroupAll(CounterSamples(st[..i], toReal))
    {
      var l := Strip(lines[i]);
      assert l == st[i];
      CounterSamplesSnoc(st, i, toReal);
      if |l| > 0 && l[0] == '#' {
        continue;
      }
      if |l| == 0 {
        continue;
      }
      var x := CounterSample(l, toReal);
      GroupAllSnoc(CounterSamples(st[..i], toReal), x);
      values, lastTs := GroupSample(values, lastTs, x);
    }
    assert st[..|lines|] == st;
    g := Grouped(values, lastTs);
    GroupMatchesRuns(Samples(lines, toReal));
  }

  /** The context columns printed in front of the counters. */
  const CONTEXT_COLUMNS: seq<string> := ["bench", "ht", "cpus", "freq"]

  function ContextCells(ctx: Context): (cells: seq<string>) {
    [ctx.bench, ctx.ht, ctx.cpus, ctx.freq]
  }

  /** The record has every key of `keys`. */
  predicate HasAll(r: Record, keys: seq<string>) {
    forall i :: 0 <= i < |keys| ==> keys[i] in r.fields
  }

  /** The printed table (parse_csv.py:45-53): the header of the context columns and the
    * first record's keys, then per record the context values and `str` of each of those
    * fields. No records raise an IndexError at `values[0]`; a record lacking one of the
    * first record's keys raises a KeyError. */
  function StreamTable(values: seq<Record>, ctx: Context, showNum: real -> string): (r: Result<seq<string>, Crash>)
    ensures values == [] ==> r == Err(IndexError)
    ensures values != [] ==> (r == Err(KeyError) <==> !AllHave(values, values[0].keys))
    ensures r.Err? ==> r == Err(IndexError) || r == Err(KeyError)
  {
    if values == [] then Err(IndexError)
    else if !AllHave(values, values[0].keys) then Err(KeyError)
    else
      var keys := values[0].keys;
      Ok([Join(CONTEXT_COLUMNS + keys, SEPARATOR)] + StreamRows(values, keys, ctx, showNum))
  }

  /** The printed row of each record. */
  function StreamRows(values: seq<Record>, keys: seq<string>, ctx: Context, showNum: real -> string): (rows: seq<string>)
    ensures |rows| == |values|
    decreases |values|
  {
    if values == [] then []
    else StreamRows(values[..|values| - 1], keys, ctx, showNum)
         + [Join(ContextCells(ctx) + RowCells(values[|values| - 1], keys, showNum), SEPARATOR)]
  }

  /** The cells of one row (parse_csv.py:49-51): the context values, then `str(val[c])` for
    * each counter `c`, or `None` where the record lacks `c`. */
  method StreamRow(val: Record, counters: seq<string>, ctx: Context, showNum: real -> string)
    returns (items: Option<seq<string>>)
    ensures items.Some? <==> HasAll(val, counters)
    ensures items.Some? ==> items.value == ContextCells(ctx) + RowCells(val, counters, showNum)
  {
    var cells := [ctx.bench, ctx.ht, ctx.cpus, ctx.freq];
    for i := 0 to |counters|
      invariant HasAll(val, counters[..i])
      invariant cells == ContextCells(ctx) + RowCells(val, counters[..i], showNum)
    {
      var c := counters[i];
      if c !in val.fields {
        return None;
      }
      assert counters[..i + 1][..i] == counters[..i];
      cells := cells + [Show(val.fields[c], showNum)];
    }
    assert counters[..|counters|] == counters;
    return Some(cells);
  }

  /** The row loop (parse_csv.py:48-53): the printed row of each record, or `None` at the
    * first record that lacks one of `counters`. */
  method EmitRows(values: seq<Record>, counters: seq<string>, ctx: Context, showNum: real -> string)
    returns (rows: Option<seq<string>>)
    ensures rows.Some? <==> AllHave(values, counters)
    ensures rows.Some? ==> rows.value == StreamRows(values, counters, ctx, showNum)
  {
    var done := [];
    for k := 0 to |values|
      invariant AllHave(values[..k], counters)
      invariant done == StreamRows(values[..k], counters, ctx, showNum)
    {
      var items := StreamRow(values[k], counters, ctx, showNum);
      if items.None? {
        return None;
      }
      assert values[..k + 1] == values[..k] + [values[k]];
      StreamRowsSnoc(values, counters, ctx, showNum, k);
      done := done + [Join(items.value, SEPARATOR)];
    }
    assert values[..|values|] == values;
    return Some(done);
  }

  /** The output step (parse_csv.py:45-53) with printing left out: the header line, then
    * one line per record, ending in the KeyError of the first record that lacks a counter. */
  method EmitStream(values: seq<Record>, ctx: Context, showNum: real -> string) returns (r: Result<seq<string>, Crash>)
    ensures r == StreamTable(values, ctx, showNum)
  {
    if |values| == 0 {
      return Err(IndexError);
    }
    var counters := values[0].keys;
    var header := Join(CONTEXT_COLUMNS + counters, SEPARATOR);
    var rows := EmitRows(values, counters, ctx, showNum);
    if rows.None? {
      return Err(KeyError);
    }
    return Ok([header] + rows.value);
  }

  /** Every record of `values` has every key of `keys`. */
  predicate AllHave(values: seq<Record>, keys: seq<string>) {
    forall k :: 0 <= k < |values| ==> HasAll(values[k], keys)
  }

  /** One more record adds its row. */
  lemma StreamRowsSnoc(values: seq<Record>, keys: seq<string>, ctx: Context, showNum: real -> string, k: int)
    requires 0 <= k < |values|
    ensures StreamRows(values[..k + 1], keys, ctx, showNum) ==
      StreamRows(values[..k], keys, ctx, showNum) + [Join(ContextCells(ctx) + RowCells(values[k], keys, showNum), SEPARATOR)]
  {
    assert values[..k + 1][..k] == values[..k];
  }

  /** The printed row of record `k` is its context values and its cells, joined. */
  lemma {:induction false} StreamRowsAt(values: seq<Record>, keys: seq<string>, ctx: Context, showNum: real -> string, k: int)
    requires 0 <= k < |values|
    ensures StreamRows(values, keys, ctx, showNum)[k] == Join(ContextCells(ctx) + RowCells(values[k], keys, showNum), SEPARATOR)
    decreases |values|
  {
    var n := |values|;
    if k < n - 1 {
      StreamRowsAt(values[..n - 1], keys, ctx, showNum, k);
    }
  }

  /** The record of run `k` has every key of the first run's record exactly when run `k`
    * mentions every counter name of the first run other than `ts` and `t_diff`. */
  lemma {:induction false} RunHasAll(rs: seq<seq<Sample>>, k: int)
    requires NonEmptyRuns(rs) && 0 <= k < |rs|
    ensures HasAll(GroupRecord(rs, k, None), GroupRecord(rs, 0, None).keys) <==>
      forall j :: 0 <= j < |rs[0]| && rs[0][j].name != "ts" && rs[0][j].name != "t_diff" ==> Mentions(rs[k], rs[0][j].name)
  {
    var r0, rk := GroupRecord(rs, 0, None), GroupRecord(rs, k, None);
    RunRecord(rs, 0);
    RunRecord(rs, k);
    GroupRecordSpec(rs, 0, None);
    if HasAll(rk, r0.keys) {
      forall j | 0 <= j < |rs[0]| && rs[0][j].name != "ts" && rs[0][j].name != "t_diff"
        ensures Mentions(rs[k], rs[0][j].name)
      {
        var n := rs[0][j].name;
        assert n in r0.fields;
        var i :| 0 <= i < |r0.keys| && r0.keys[i] == n;
        assert n in rk.fields;
      }
    } else {
      var i :| 0 <= i < |r0.keys| && r0.keys[i] !in rk.fields;
      var n := r0.keys[i];
      assert n in r0.fields;
      assert n != "ts" && n != "t_diff" && Mentions(rs[0], n);
      var j :| 0 <= j < |rs[0]| && rs[0][j].name == n;
    }
  }

  /** Every run's record has the keys of the first run's record exactly when every run
    * mentions every counter name of the first run other than `ts` and `t_diff`. */
  lemma RecordsHaveAll(rs: seq<seq<Sample>>)
    requires NonEmptyRuns(rs) && |rs| > 0
    ensures AllHave(Records(rs, |rs|), GroupRecord(rs, 0, None).keys) <==>
      forall k, j :: 0 <= k < |rs| && 0 <= j < |rs[0]| && rs[0][j].name != "ts" && rs[0][j].name != "t_diff"
        ==> Mentions(rs[k], rs[0][j].name)
  {
    var vs := Records(rs, |rs|);
    forall k | 0 <= k < |rs|
      ensures HasAll(vs[k], vs[0].keys) <==>
        forall j :: 0 <= j < |rs[0]| && rs[0][j].name != "ts" && rs[0][j].name != "t_diff" ==> Mentions(rs[k], rs[0][j].name)
    {
      RunHasAll(rs, k);
    }
  }

  /** The same over the records of the runs. */
  lemma RecordsKeyError(rs: seq<seq<Sample>>, ctx: Context, showNum: real -> string)
    requires NonEmptyRuns(rs) && |rs| > 0
    ensures StreamTable(Records(rs, |rs|), ctx, showNum) == Err(KeyError) <==>
      exists k, j :: 0 <= k < |rs| && 0 <= j < |rs[0]|
        && rs[0][j].name != "ts" && rs[0][j].name != "t_diff" && !Mentions(rs[k], rs[0][j].name)
  {
    RecordsHaveAll(rs);
  }

  /** The output of a grouped log fails with a KeyError exactly when some run misses a
    * counter name the first run has (other than `ts` and `t_diff`). */
  lemma StreamKeyError(s: seq<Sample>, ctx: Context, showNum: real -> string)
    requires s != []
    ensures WellGrouped(Runs(s)) && |Runs(s)| > 0
    ensures StreamTable(GroupAll(s).values, ctx, showNum) == Err(KeyError) <==>
      exists k, j :: 0 <= k < |Runs(s)| && 0 <= j < |Runs(s)[0]|
        && Runs(s)[0][j].name != "ts" && Runs(s)[0][j].name != "t_diff" && !Mentions(Runs(s)[k], Runs(s)[0][j].name)
  {
    RunsShape(s);
    GroupMatchesRuns(s);
    RecordsKeyError(Runs(s), ctx, showNum);
  }

  /** A printed table has the header of the context columns and the first record's keys,
    * and one line per record: that record's context values and one cell per key, which
    * splits back into exactly those cells when no cell holds a `;`. */
  lemma StreamShape(values: seq<Record>, ctx: Context, showNum: real -> string, k: int)
    requires StreamTable(values, ctx, showNum).Ok? && 0 <= k < |values|
    ensures var lines := StreamTable(values, ctx, showNum).value; var keys := values[0].keys;
      |lines| == |values| + 1 && lines[0] == Join(CONTEXT_COLUMNS + keys, SEPARATOR)
      && lines[k + 1] == Join(ContextCells(ctx) + RowCells(values[k], keys, showNum), SEPARATOR)
      && (forall i :: 0 <= i < |keys| ==> RowCells(values[k], keys, showNum)[i] == Show(values[k].fields[keys[i]], showNum))
    ensures var cells := ContextCells(ctx) + RowCells(values[k], values[0].keys, showNum);
      |cells| == 4 + |values[0].keys|
      && ((forall i :: 0 <= i < |cells| ==> ';' !in cells[i]) ==>
            Split(StreamTable(values, ctx, showNum).value[k + 1], SEPARATOR) == cells)
  {
    var cells := ContextCells(ctx) + RowCells(values[k], values[0].keys, showNum);
    StreamRowsAt(values, values[0].keys, ctx, showNum, k);
    assert HasAll(values[k], values[0].keys);
    if forall i :: 0 <= i < |cells| ==> ';' !in cells[i] {
      assert SEPARATOR == [';'];
      SplitJoin(cells, ';');
    }
  }
}
