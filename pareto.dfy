/** Pareto-front extraction over the rows of a CSV table (tools/pareto.py): a list of
  * objectives `<field` (minimise) or `>field` (maximise), a non-strict dominance
  * between rows, and a quadratic filter that keeps every row no other row dominates. */
module Pareto {
  import opened Wrappers
  import opened Strings
  import opened DataModel

  /** A row as `csv.DictReader` yields it: a dict from column names to the cells' text,
    * with `keys` its insertion order (the file's header order). */
  datatype Row = Row(keys: seq<string>, fields: map<string, string>)

  /** Python's `d == r` on dicts: the same keys with the same values, whatever the order. */
  predicate Same(d: Row, r: Row) {
    d.fields == r.fields
  }

  /** Why a run ends without a front: one of the two rejections of the objective list, or a
    * Python exception. */
  datatype Failure = TooFewObjectives | NoDirection | Crashed(error: Crash)

  /** The objective-list validation (tools/pareto.py:10-16). Fewer than two objectives are
    * rejected first. The direction test builds the whole list `[x[0] ... for x in fields]`
    * before `any` looks at it, so an empty objective raises an IndexError even when an
    * earlier one already lacks a direction. */
  function CheckObjectives(objs: seq<string>): (r: Option<Failure>)
    ensures r == Some(TooFewObjectives) <==> |objs| < 2
    ensures r == Some(Crashed(IndexError)) <==> |objs| >= 2 && exists i :: 0 <= i < |objs| && objs[i] == ""
    ensures r == Some(NoDirection) <==>
      |objs| >= 2 && (forall i :: 0 <= i < |objs| ==> objs[i] != "")
      && exists i :: 0 <= i < |objs| && objs[i][0] != '<' && objs[i][0] != '>'
    ensures r.None? <==> |objs| >= 2 && forall i :: 0 <= i < |objs| ==> Directed(objs[i])
  {
    if |objs| < 2 then Some(TooFewObjectives)
    else if exists i :: 0 <= i < |objs| && objs[i] == "" then Some(Crashed(IndexError))
    else if exists i :: 0 <= i < |objs| && objs[i][0] != '<' && objs[i][0] != '>' then Some(NoDirection)
    else None
  }

  /** A valid objective: a direction character followed by the field name. */
  predicate Directed(o: string) {
    |o| > 0 && (o[0] == '<' || o[0] == '>')
  }

  /** The row has every field the objectives name (otherwise the lookups raise a KeyError). */
  predicate Covers(r: Row, objs: seq<string>) {
    forall i :: 0 <= i < |objs| ==> |objs[i]| > 0 && objs[i][1..] in r.fields
  }

  /** `better_aspect(row1, row2, aspect)` (tools/pareto.py:18-21): at least as large for
    * `>`, at least as small for anything else; `toReal` stands for `float`. */
  predicate BetterAspect(r1: Row, r2: Row, aspect: string, toReal: string -> real): (b: bool)
    requires |aspect| > 0 && aspect[1..] in r1.fields && aspect[1..] in r2.fields
    ensures toReal(r1.fields[aspect[1..]]) == toReal(r2.fields[aspect[1..]]) ==> b
    ensures !b ==>
      if aspect[0] == '>' then toReal(r2.fields[aspect[1..]]) > toReal(r1.fields[aspect[1..]])
      else toReal(r2.fields[aspect[1..]]) < toReal(r1.fields[aspect[1..]])
  {
    var f := aspect[1..];
    if aspect[0] == '>' then toReal(r1.fields[f]) >= toReal(r2.fields[f])
    else toReal(r1.fields[f]) <= toReal(r2.fields[f])
  }

  /** `better(row1, row2)` (tools/pareto.py:23): at least as good on every objective. */
  predicate Better(r1: Row, r2: Row, objs: seq<string>, toReal: string -> real): (b: bool)
    requires Covers(r1, objs) && Covers(r2, objs)
    ensures (forall i :: 0 <= i < |objs| ==> toReal(r1.fields[objs[i][1..]]) == toReal(r2.fields[objs[i][1..]])) ==> b
  {
    forall i :: 0 <= i < |objs| ==> BetterAspect(r1, r2, objs[i], toReal)
  }

  /** Every row is at least as good as itself. */
  lemma BetterReflexive(r: Row, objs: seq<string>, toReal: string -> real)
    requires Covers(r, objs)
    ensures Better(r, r, objs, toReal)
  {
  }

  /** Being at least as good on every objective is transitive. */
  lemma BetterTransitive(a: Row, b: Row, c: Row, objs: seq<string>, toReal: string -> real)
    requires Covers(a, objs) && Covers(b, objs) && Covers(c, objs)
    requires Better(a, b, objs, toReal) && Better(b, c, objs, toReal)
    ensures Better(a, c, objs, toReal)
  {
    forall i | 0 <= i < |objs| ensures BetterAspect(a, c, objs[i], toReal) {
      assert BetterAspect(a, b, objs[i], toReal) && BetterAspect(b, c, objs[i], toReal);
    }
  }

  /** Every row of the data has every objective field. */
  predicate AllCover(data: seq<Row>, objs: seq<string>) {
    forall k :: 0 <= k < |data| ==> Covers(data[k], objs)
  }

  /** Some row of the data that is not equal to `r` is at least as good as `r`. */
  predicate Dominated(data: seq<Row>, r: Row, objs: seq<string>, toReal: string -> real)
    requires AllCover(data, objs) && Covers(r, objs)
  {
    exists k :: 0 <= k < |data| && !Same(data[k], r) && Better(data[k], r, objs, toReal)
  }

  /** The rows of `rows` that no row of `data` dominates, in order. */
  function Kept(rows: seq<Row>, data: seq<Row>, objs: seq<string>, toReal: string -> real): (ks: seq<Row>)
    requires AllCover(rows, objs) && AllCover(data, objs)
    ensures |ks| <= |rows|
    decreases |rows|
  {
    if rows == [] then []
    else
      var r := rows[|rows| - 1];
      Kept(rows[..|rows| - 1], data, objs, toReal) + (if Dominated(data, r, objs, toReal) then [] else [r])
  }

  /** The positions in `rows` of the kept rows, in increasing order. */
  function KeptAt(rows: seq<Row>, data: seq<Row>, objs: seq<string>, toReal: string -> real): (at: seq<int>)
    requires AllCover(rows, objs) && AllCover(data, objs)
    decreases |rows|
  {
    if rows == [] then []
    else
      var n := |rows| - 1;
      KeptAt(rows[..n], data, objs, toReal) + (if Dominated(data, rows[n], objs, toReal) then [] else [n])
  }

  /** `ks` is `rows` at the strictly increasing positions `at`. */
  predicate SubsequenceAt<T(==)>(ks: seq<T>, at: seq<int>, rows: seq<T>) {
    |ks| == |at|
    && (forall k :: 0 <= k < |at| ==> 0 <= at[k] < |rows| && ks[k] == rows[at[k]])
    && (forall k, m :: 0 <= k < m < |at| ==> at[k] < at[m])
  }

  /** The kept rows are a subsequence of the input: they sit at strictly increasing
    * positions, so no row is kept twice. */
  lemma {:induction false} KeptSubsequence(rows: seq<Row>, data: seq<Row>, objs: seq<string>, toReal: string -> real)
    requires AllCover(rows, objs) && AllCover(data, objs)
    ensures SubsequenceAt(Kept(rows, data, objs, toReal), KeptAt(rows, data, objs, toReal), rows)
    decreases |rows|
  {
    if rows != [] {
      var n := |rows| - 1;
      var init := rows[..n];
      assert AllCover(init, objs);
      KeptSubsequence(init, data, objs, toReal);
      SubsequenceSnoc(Kept(init, data, objs, toReal), KeptAt(init, data, objs, toReal), rows,
                      !Dominated(data, rows[n], objs, toReal));
    }
  }

  /** A subsequence of all but the last element, optionally extended by the last one. */
  lemma SubsequenceSnoc<T>(ks: seq<T>, at: seq<int>, rows: seq<T>, keep: bool)
    requires |rows| > 0 && SubsequenceAt(ks, at, rows[..|rows| - 1])
    ensures SubsequenceAt(ks + (if keep then [rows[|rows| - 1]] else []), at + (if keep then [|rows| - 1] else []), rows)
  {
    assert forall k :: 0 <= k < |at| ==> rows[..|rows| - 1][at[k]] == rows[at[k]];
  }

  /** A position is among the kept ones exactly when no row of the data dominates the row
    * there. */
  lemma {:induction false} KeptAtMember(rows: seq<Row>, data: seq<Row>, objs: seq<string>, toReal: string -> real, i: int)
    requires AllCover(rows, objs) && AllCover(data, objs) && 0 <= i < |rows|
    ensures i in KeptAt(rows, data, objs, toReal) <==> !Dominated(data, rows[i], objs, toReal)
    decreases |rows|
  {
    var n := |rows| - 1;
    var init := rows[..n];
    assert AllCover(init, objs);
    KeptAtBound(init, data, objs, toReal);
    if i < n {
      KeptAtMember(init, data, objs, toReal, i);
      assert init[i] == rows[i];
    }
  }

  /** Every kept position is a position of the rows. */
  lemma {:induction false} KeptAtBound(rows: seq<Row>, data: seq<Row>, objs: seq<string>, toReal: string -> real)
    requires AllCover(rows, objs) && AllCover(data, objs)
    ensures forall k :: 0 <= k < |KeptAt(rows, data, objs, toReal)| ==> 0 <= KeptAt(rows, data, objs, toReal)[k] < |rows|
    decreases |rows|
  {
    if rows != [] {
      var init := rows[..|rows| - 1];
      assert AllCover(init, objs);
      KeptAtBound(init, data, objs, toReal);
    }
  }

  /** The front the filter prints: the rows of the data no other row dominates. */
  function Front(data: seq<Row>, objs: seq<string>, toReal: string -> real): (front: seq<Row>)
    requires AllCover(data, objs)
    ensures |front| <= |data|
  {
    Kept(data, data, objs, toReal)
  }

  /** A row is in the front exactly when it is a row of the data and no row of the data
    * that differs from it in value is at least as good on every objective. */
  lemma {:induction false} FrontMember(data: seq<Row>, objs: seq<string>, toReal: string -> real, r: Row)
    requires AllCover(data, objs)
    ensures r in Front(data, objs, toReal) <==>
      r in data && Covers(r, objs) && !Dominated(data, r, objs, toReal)
  {
    KeptSubsequence(data, data, objs, toReal);
    var ks, at := Kept(data, data, objs, toReal), KeptAt(data, data, objs, toReal);
    if r in ks {
      var k :| 0 <= k < |ks| && ks[k] == r;
      KeptAtMember(data, data, objs, toReal, at[k]);
      assert data[at[k]] == r && at[k] in at;
    }
    if r in data && Covers(r, objs) && !Dominated(data, r, objs, toReal) {
      var i :| 0 <= i < |data| && data[i] == r;
      KeptAtMember(data, data, objs, toReal, i);
      assert i in at;
      var k :| 0 <= k < |at| && at[k] == i;
      assert ks[k] == r;
    }
  }

  /** A row equal in value to `r` never eliminates `r`, so rows with the same values are
    * kept or dropped together. */
  lemma DuplicatesTogether(data: seq<Row>, objs: seq<string>, toReal: string -> real, r1: Row, r2: Row)
    requires AllCover(data, objs) && Covers(r1, objs) && Covers(r2, objs) && Same(r1, r2)
    ensures Dominated(data, r1, objs, toReal) <==> Dominated(data, r2, objs, toReal)
  {
    if Dominated(data, r1, objs, toReal) {
      var k :| 0 <= k < |data| && !Same(data[k], r1) && Better(data[k], r1, objs, toReal);
      assert Better(data[k], r2, objs, toReal);
    }
    if Dominated(data, r2, objs, toReal) {
      var k :| 0 <= k < |data| && !Same(data[k], r2) && Better(data[k], r2, objs, toReal);
      assert Better(data[k], r1, objs, toReal);
    }
  }

  /** `r.values()`: the cells in key order (a key without a cell, which `csv.DictReader`
    * never produces, gives an empty cell). */
  function Values(keys: seq<string>, fields: map<string, string>): (cells: seq<string>)
    ensures |cells| == |keys|
    ensures forall k :: 0 <= k < |keys| && keys[k] in fields ==> cells[k] == fields[keys[k]]
    decreases |keys|
  {
    if keys == [] then []
    else
      var key := keys[|keys| - 1];
      Values(keys[..|keys| - 1], fields) + [if key in fields then fields[key] else ""]
  }

  /** The printed line of a row: its values joined by commas. */
  function RowLine(r: Row): (line: string) {
    Join(Values(r.keys, r.fields), ",")
  }

  /** The lines of the given rows, in order. */
  function Lines(rows: seq<Row>): (lines: seq<string>)
    ensures |lines| == |rows| && forall k :: 0 <= k < |rows| ==> lines[k] == RowLine(rows[k])
    decreases |rows|
  {
    if rows == [] then [] else Lines(rows[..|rows| - 1]) + [RowLine(rows[|rows| - 1])]
  }

  /** Once the objectives are accepted, every row has every objective field. */
  predicate Admissible(objs: seq<string>, data: seq<Row>) {
    CheckObjectives(objs).None? ==> AllCover(data, objs)
  }

  /** What the program prints (tools/pareto.py:10-34): a rejection of the objective list,
    * the IndexError of `data[0]` on a table without rows, or the first row's keys as
    * header followed by the front. */
  function Output(objs: seq<string>, data: seq<Row>, toReal: string -> real): (out: Result<seq<string>, Failure>)
    requires Admissible(objs, data)
    ensures CheckObjectives(objs).Some? ==> out == Err(CheckObjectives(objs).value)
    ensures CheckObjectives(objs).None? ==> (out.Err? <==> data == [])
    ensures CheckObjectives(objs).None? && out.Err? ==> out == Err(Crashed(IndexError))
    ensures out.Ok? ==> |out.value| >= 1 && out.value[0] == Join(data[0].keys, ",")
  {
    match CheckObjectives(objs)
    case Some(f) => Err(f)
    case None =>
      if data == [] then Err(Crashed(IndexError))
      else Ok([Join(data[0].keys, ",")] + Lines(Front(data, objs, toReal)))
  }

  /** The inner loop (tools/pareto.py:31-32): compare `row` with every row of the data in
    * turn and stop at the first one that differs from it and is at least as good. */
  method Eliminated(data: seq<Row>, row: Row, objs: seq<string>, toReal: string -> real) returns (beaten: bool)
    requires AllCover(data, objs) && Covers(row, objs)
    ensures beaten == Dominated(data, row, objs, toReal)
  {
    beaten := false;
    var j := 0;
    while j < |data|
      invariant 0 <= j <= |data|
      invariant forall k :: 0 <= k < j ==> !(!Same(data[k], row) && Better(data[k], row, objs, toReal))
    {
      var d := data[j];
      if !Same(d, row) && Better(d, row, objs, toReal) {
        beaten := true;
        break;
      }
      j := j + 1;
    }
  }

  /** The front of `rows[..i + 1]` is that of `rows[..i]`, then `rows[i]` unless it is eliminated. */
  lemma KeptSnoc(rows: seq<Row>, data: seq<Row>, objs: seq<string>, toReal: string -> real, i: int)
    requires AllCover(rows, objs) && AllCover(data, objs) && 0 <= i < |rows|
    ensures AllCover(rows[..i], objs) && AllCover(rows[..i + 1], objs)
    ensures Dominated(data, rows[i], objs, toReal) ==>
      Kept(rows[..i + 1], data, objs, toReal) == Kept(rows[..i], data, objs, toReal)
    ensures !Dominated(data, rows[i], objs, toReal) ==>
      Kept(rows[..i + 1], data, objs, toReal) == Kept(rows[..i], data, objs, toReal) + [rows[i]]
  {
    assert rows[..i + 1][..i] == rows[..i] && rows[..i + 1][i] == rows[i];
  }

  /** The filter run (tools/pareto.py:10-34) on rows already read: validate the
    * objectives, print the header, then print every row that no other row eliminates. */
  method Extract(objs: seq<string>, data: seq<Row>, toReal: string -> real)
    returns (r: Result<seq<string>, Failure>)
    requires Admissible(objs, data)
    ensures r == Output(objs, data, toReal)
  {
    var check := CheckObjectives(objs);
    if check.Some? {
      return Err(check.value);
    }
    if |data| == 0 {
      return Err(Crashed(IndexError));
    }
    var out := [Join(data[0].keys, ",")];
    ghost var head := out;
    for i := 0 to |data|
      invariant AllCover(data[..i], objs)
      invariant out == head + Lines(Kept(data[..i], data, objs, toReal))
    {
      var row := data[i];
      var beaten := Eliminated(data, row, objs, toReal);
      KeptSnoc(data, data, objs, toReal, i);
      if !beaten {
        out := out + [RowLine(row)];
      }
    }
    assert data[..|data|] == data;
    return Ok(out);
  }

  /** A rejected objective list is reported whatever the table holds: the check comes
    * before any row is looked at. */
  lemma RejectedBeforeData(objs: seq<string>, data1: seq<Row>, data2: seq<Row>, toReal: string -> real)
    requires Admissible(objs, data1) && Admissible(objs, data2)
    requires CheckObjectives(objs).Some?
    ensures Output(objs, data1, toReal) == Output(objs, data2, toReal) == Err(CheckObjectives(objs).value)
  {
  }

  /** A printed run has the header and then one line per row of the front, at most as many
    * as there are rows. */
  lemma OutputShape(objs: seq<string>, data: seq<Row>, toReal: string -> real)
    requires Admissible(objs, data)
    requires Output(objs, data, toReal).Ok?
    ensures CheckObjectives(objs).None? && data != []
    ensures var lines := Output(objs, data, toReal).value; var front := Front(data, objs, toReal);
      |lines| == |front| + 1 <= |data| + 1
      && lines[0] == Join(data[0].keys, ",")
      && forall k :: 0 <= k < |front| ==> lines[k + 1] == RowLine(front[k])
  {
  }

  /** Minimising `freq` and maximising `tps`, as in the worked example below. */
  const FREQ_TPS: seq<string> := ["<freq", ">tps"]

  /** Under `FREQ_TPS` a row is at least as good as another when its `freq` is at most
    * and its `tps` at least the other's. */
  lemma BetterFreqTps(r1: Row, r2: Row, toReal: string -> real)
    requires "freq" in r1.fields && "tps" in r1.fields && "freq" in r2.fields && "tps" in r2.fields
    ensures Covers(r1, FREQ_TPS) && Covers(r2, FREQ_TPS)
    ensures Better(r1, r2, FREQ_TPS, toReal) <==>
      toReal(r1.fields["freq"]) <= toReal(r2.fields["freq"]) && toReal(r1.fields["tps"]) >= toReal(r2.fields["tps"])
  {
    assert FREQ_TPS[0][1..] == "freq" && FREQ_TPS[1][1..] == "tps";
  }

  /** The three rows of the worked example. */
  function ExampleRow(freq: string, tps: string): (row: Row) {
    Row(["freq", "tps"], map["freq" := freq, "tps" := tps])
  }

  /** The worked example: minimising `freq` and maximising `tps` over A = (1000, 50),
    * B = (1000, 40) and C = (800, 45) prints A and C; A eliminates B. */
  lemma WorkedExample(toReal: string -> real)
    requires ExampleReals(toReal)
    ensures var a, b, c := ExampleRow("1000", "50"), ExampleRow("1000", "40"), ExampleRow("800", "45");
      Output(FREQ_TPS, [a, b, c], toReal) == Ok(["freq,tps", "1000,50", "800,45"])
  {
    var a, b, c := ExampleRow("1000", "50"), ExampleRow("1000", "40"), ExampleRow("800", "45");
    assert CheckObjectives(FREQ_TPS).None? by {
      assert Directed(FREQ_TPS[0]) && Directed(FREQ_TPS[1]);
    }
    WorkedExampleFront(toReal);
    WorkedExampleLines();
    assert Output(FREQ_TPS, [a, b, c], toReal) == Ok([Join(a.keys, ",")] + Lines([a, c]));
  }

  /** The printed lines of the worked example's header and front. */
  lemma WorkedExampleLines()
    ensures var a, c := ExampleRow("1000", "50"), ExampleRow("800", "45");
      [Join(a.keys, ",")] + Lines([a, c]) == ["freq,tps", "1000,50", "800,45"]
  {
    var a, c := ExampleRow("1000", "50"), ExampleRow("800", "45");
    assert Lines([a, c]) == [RowLine(a), RowLine(c)];
    assert Join(a.keys, ",") == "freq,tps";
    assert RowLine(a) == "1000,50" by {
      assert Values(a.keys, a.fields) == ["1000", "50"];
    }
    assert RowLine(c) == "800,45" by {
      assert Values(c.keys, c.fields) == ["800", "45"];
    }
  }

  /** The readings of the worked example convert to the numbers they spell. */
  predicate ExampleReals(toReal: string -> real) {
    toReal("1000") == 1000.0 && toReal("800") == 800.0
    && toReal("50") == 50.0 && toReal("40") == 40.0 && toReal("45") == 45.0
  }

  /** In the worked example only B is eliminated. */
  lemma WorkedExampleDominance(toReal: string -> real)
    requires ExampleReals(toReal)
    ensures var a, b, c := ExampleRow("1000", "50"), ExampleRow("1000", "40"), ExampleRow("800", "45");
      AllCover([a, b, c], FREQ_TPS)
      && !Dominated([a, b, c], a, FREQ_TPS, toReal)
      && Dominated([a, b, c], b, FREQ_TPS, toReal)
      && !Dominated([a, b, c], c, FREQ_TPS, toReal)
  {
    ExampleAKept(toReal);
    ExampleBEliminated(toReal);
    ExampleCKept(toReal);
  }

  /** Neither B nor C is as good as A on `tps`. */
  lemma ExampleAKept(toReal: string -> real)
    requires ExampleReals(toReal)
    ensures var a, b, c := ExampleRow("1000", "50"), ExampleRow("1000", "40"), ExampleRow("800", "45");
      AllCover([a, b, c], FREQ_TPS) && !Dominated([a, b, c], a, FREQ_TPS, toReal)
  {
    var a, b, c := ExampleRow("1000", "50"), ExampleRow("1000", "40"), ExampleRow("800", "45");
    BetterFreqTps(b, a, toReal);
    BetterFreqTps(c, a, toReal);
  }

  /** A, a different row, is at least as good as B on both objectives. */
  lemma ExampleBEliminated(toReal: string -> real)
    requires ExampleReals(toReal)
    ensures var a, b, c := ExampleRow("1000", "50"), ExampleRow("1000", "40"), ExampleRow("800", "45");
      Dominated([a, b, c], b, FREQ_TPS, toReal)
  {
    var a, b, c := ExampleRow("1000", "50"), ExampleRow("1000", "40"), ExampleRow("800", "45");
    var data := [a, b, c];
    BetterFreqTps(a, b, toReal);
    assert a.fields["tps"] != b.fields["tps"];
    assert !Same(data[0], b) && Better(data[0], b, FREQ_TPS, toReal);
  }

  /** Neither A nor B is as good as C on `freq`. */
  lemma ExampleCKept(toReal: string -> real)
    requires ExampleReals(toReal)
    ensures var a, b, c := ExampleRow("1000", "50"), ExampleRow("1000", "40"), ExampleRow("800", "45");
      !Dominated([a, b, c], c, FREQ_TPS, toReal)
  {
    var a, b, c := ExampleRow("1000", "50"), ExampleRow("1000", "40"), ExampleRow("800", "45");
    BetterFreqTps(a, c, toReal);
    BetterFreqTps(b, c, toReal);
  }

  /** The front of the worked example. */
  lemma WorkedExampleFront(toReal: string -> real)
    requires ExampleReals(toReal)
    ensures var a, b, c := ExampleRow("1000", "50"), ExampleRow("1000", "40"), ExampleRow("800", "45");
      AllCover([a, b, c], FREQ_TPS) && Front([a, b, c], FREQ_TPS, toReal) == [a, c]
  {
    var a, b, c := ExampleRow("1000", "50"), ExampleRow("1000", "40"), ExampleRow("800", "45");
    WorkedExampleDominance(toReal);
    KeptFirstAndLast([a, b, c], FREQ_TPS, toReal);
  }

  /** Of three rows where only the middle one is eliminated, the first and the last remain. */
  lemma KeptFirstAndLast(data: seq<Row>, objs: seq<string>, toReal: string -> real)
    requires |data| == 3 && AllCover(data, objs)
    requires !Dominated(data, data[0], objs, toReal) && Dominated(data, data[1], objs, toReal)
    requires !Dominated(data, data[2], objs, toReal)
    ensures Front(data, objs, toReal) == [data[0], data[2]]
  {
    assert data[..0] == [] && data[..3] == data;
    KeptSnoc(data, data, objs, toReal, 0);
    KeptSnoc(data, data, objs, toReal, 1);
    KeptSnoc(data, data, objs, toReal, 2);
  }

  /** Two rows that differ only outside the objectives and tie on every objective
    * eliminate each other, so a table of just those two prints a header and no row. */
  lemma TiedRowsEmptyFront(toReal: string -> real)
    ensures var a := Row(["id", "freq", "tps"], map["id" := "a", "freq" := "1", "tps" := "1"]);
      var b := Row(["id", "freq", "tps"], map["id" := "b", "freq" := "1", "tps" := "1"]);
      AllCover([a, b], FREQ_TPS) && Front([a, b], FREQ_TPS, toReal) == []
  {
    var a := Row(["id", "freq", "tps"], map["id" := "a", "freq" := "1", "tps" := "1"]);
    var b := Row(["id", "freq", "tps"], map["id" := "b", "freq" := "1", "tps" := "1"]);
    var data := [a, b];
    BetterFreqTps(a, b, toReal);
    BetterFreqTps(b, a, toReal);
    assert a.fields["id"] != b.fields["id"];
    assert !Same(data[1], a) && !Same(data[0], b);
    assert Dominated(data, a, FREQ_TPS, toReal) && Dominated(data, b, FREQ_TPS, toReal);
    KeptSnoc(data, data, FREQ_TPS, toReal, 0);
    KeptSnoc(data, data, FREQ_TPS, toReal, 1);
    assert data[..0] == [] && data[..2] == data;
  }
}
