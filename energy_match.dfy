/** Matching the energy log against the merged counter records (tools/parse_csv.py:25-35,
  * 111-143): a cursor into the records moves forward to the first record whose timestamp
  * is close enough to the energy reading, and the reading is stored into that record. */
module EnergyMatch {
  import opened Wrappers
  import opened DataModel
  import opened LogLines
  import opened Grouping

  /** The largest timestamp difference, in seconds, still counted as equal (exclusive). */
  const MAX_DIFF: real := 0.02

  function Abs(x: real): (y: real) {
    if x < 0.0 then -x else x
  }

  /** Every record carries a numeric timestamp, as the ingestion leaves them unless a
    * counter is itself named "ts". */
  predicate AllTimed(values: seq<Record>) {
    forall i :: 0 <= i < |values| ==> Timed(values[i])
  }

  /** Record `i` is close enough to time `ts`: the test is strict. */
  predicate Within(values: seq<Record>, i: int, ts: real, maxDiff: real)
    requires AllTimed(values) && 0 <= i < |values|
  {
    Abs(TsOf(values[i]) - ts) < maxDiff
  }

  /** The first index at or after `i` within tolerance of `ts`, if there is one. */
  function Scan(values: seq<Record>, i: nat, ts: real, maxDiff: real): (r: Option<nat>)
    requires AllTimed(values)
    ensures r.Some? ==> i <= r.value < |values| && Within(values, r.value, ts, maxDiff)
    ensures r.Some? ==> forall j :: i <= j < r.value ==> !Within(values, j, ts, maxDiff)
    ensures r.None? ==> forall j :: i <= j < |values| ==> !Within(values, j, ts, maxDiff)
    decreases |values| - i
  {
    if i >= |values| then None
    else if Within(values, i, ts, maxDiff) then Some(i)
    else Scan(values, i + 1, ts, maxDiff)
  }

  /** `find_perf_counter`: keep the last index while it is still within tolerance (unless
    * told to move on), otherwise the first later index within tolerance; `None` stands
    * for the MatchError. The last index is only read when the search is not forced. */
  function Find(values: seq<Record>, lastBest: nat, ts: real, maxDiff: real, forceNext: bool): (r: Option<nat>)
    requires AllTimed(values) && (!forceNext ==> lastBest < |values|)
    ensures r.Some? ==> r.value < |values| && Within(values, r.value, ts, maxDiff)
    ensures !forceNext && Within(values, lastBest, ts, maxDiff) ==> r == Some(lastBest)
    ensures (forceNext || !Within(values, lastBest, ts, maxDiff)) ==>
      (r.Some? ==> lastBest < r.value && forall j :: lastBest < j < r.value ==> !Within(values, j, ts, maxDiff))
      && (r.None? <==> forall j :: lastBest < j < |values| ==> !Within(values, j, ts, maxDiff))
  {
    if !forceNext && Within(values, lastBest, ts, maxDiff) then Some(lastBest)
    else Scan(values, lastBest + 1, ts, maxDiff)
  }

  /** The search as the source writes it: an early return, then a scan upwards. */
  method FindPerfCounter(values: seq<Record>, lastBest: nat, ts: real, maxDiff: real, forceNext: bool)
    returns (r: Option<nat>)
    requires AllTimed(values) && (!forceNext ==> lastBest < |values|)
    ensures r == Find(values, lastBest, ts, maxDiff, forceNext)
  {
    if !forceNext && Abs(values[lastBest].fields["ts"].x - ts) < maxDiff {
      return Some(lastBest);
    }
    var i := lastBest + 1;
    while i < |values|
      invariant lastBest + 1 <= i
      invariant Scan(values, i, ts, maxDiff) == Scan(values, lastBest + 1, ts, maxDiff)
      decreases |values| - i
    {
      if Abs(values[i].fields["ts"].x - ts) < maxDiff {
        return Some(i);
      }
      i := i + 1;
    }
    return None;
  }

  /** The loop's variables: the records, the cursor `last_val`, and the warnings so far. */
  datatype Merged = Merged(values: seq<Record>, cursor: nat, warnings: seq<Warning>)

  /** The records are timed and, when there are any, the cursor points at one of them. */
  predicate Ready(st: Merged) {
    AllTimed(st.values) && (|st.values| > 0 ==> st.cursor < |st.values|)
  }

  /** Adding the reading into a field that already holds a number; a string field raises
    * a TypeError. */
  function AddInto(r: Record, name: string, v: real): (res: Result<Record, Crash>)
    requires name in r.fields
    ensures res.Ok? <==> r.fields[name].Num?
    ensures res.Err? ==> res.error == TypeError
    ensures res.Ok? ==> res.value.keys == r.keys && res.value.fields == r.fields[name := Num(r.fields[name].x + v)]
  {
    match r.fields[name]
    case Num(x) => Ok(Store(r, name, Num(x + v)))
    case Text(_) => Err(TypeError)
  }

  /** One pass of the energy loop body on a parsed reading (tools/parse_csv.py:129-143). */
  function Match(st: Merged, e: Reading, maxDiff: real): (r: Result<Merged, Crash>)
    requires Ready(st)
    ensures st.values == [] ==> r == Err(IndexError)
    ensures r.Err? && st.values != [] ==> r == Err(TypeError)
  {
    if st.values == [] then Err(IndexError)
    else
      match Find(st.values, st.cursor, e.ts, maxDiff, false)
      case None => Ok(Merged(st.values, st.cursor, st.warnings + [NoMatch(e.ts)]))
      case Some(c) =>
        if e.name in st.values[c].fields then
          match Find(st.values, c, e.ts, maxDiff, true)
          case Some(c2) => Ok(Merged(st.values, c2, st.warnings))
          case None =>
            match AddInto(st.values[c], e.name, e.value)
            case Ok(rec) => Ok(Merged(st.values[c := rec], c, st.warnings + [SummedDuplicate(TsOf(st.values[c]), e.ts)]))
            case Err(err) => Err(err)
        else Ok(Merged(st.values[c := Store(st.values[c], e.name, Num(e.value))], c, st.warnings))
  }

  /** Storing a number never takes a record's timestamp away. */
  lemma StoreNumTimed(r: Record, name: string, v: real)
    requires Timed(r)
    ensures Timed(Store(r, name, Num(v)))
  {
  }

  /** A successful pass keeps the state ready, keeps the number of records, moves the
    * cursor only forward, and changes at most the record under the new cursor. */
  lemma MatchFrame(st: Merged, e: Reading, maxDiff: real)
    requires Ready(st)
    ensures Match(st, e, maxDiff).Ok? ==>
      var st' := Match(st, e, maxDiff).value;
      Ready(st') && |st'.values| == |st.values| && st.cursor <= st'.cursor && |st.warnings| <= |st'.warnings|
      && forall i :: 0 <= i < |st.values| && i != st'.cursor ==> st'.values[i] == st.values[i]
  {
    if st.values != [] {
      match Find(st.values, st.cursor, e.ts, maxDiff, false)
      case None =>
      case Some(c) =>
        if e.name in st.values[c].fields {
          match Find(st.values, c, e.ts, maxDiff, true)
          case Some(c2) =>
          case None =>
            var x := st.values[c].fields[e.name];
            if x.Num? {
              StoreNumTimed(st.values[c], e.name, x.x + e.value);
            }
        } else {
          StoreNumTimed(st.values[c], e.name, e.value);
        }
    }
  }

  /** An energy reading no record is close to changes nothing but the warnings. */
  lemma MatchUnmatched(st: Merged, e: Reading, maxDiff: real)
    requires Ready(st) && st.values != []
    requires forall j :: st.cursor <= j < |st.values| ==> !Within(st.values, j, e.ts, maxDiff)
    ensures Match(st, e, maxDiff) == Ok(Merged(st.values, st.cursor, st.warnings + [NoMatch(e.ts)]))
  {
  }

  /** A reading whose name is new to the matched record sets exactly that one field, and
    * nothing else of that record or of any other record changes. */
  lemma MatchNewName(st: Merged, e: Reading, maxDiff: real)
    requires Ready(st) && st.values != []
    requires var f := Find(st.values, st.cursor, e.ts, maxDiff, false);
      f.Some? && e.name !in st.values[f.value].fields
    ensures Match(st, e, maxDiff).Ok?
    ensures var c := Find(st.values, st.cursor, e.ts, maxDiff, false).value;
      var st' := Match(st, e, maxDiff).value;
      st'.cursor == c && st'.warnings == st.warnings
      && st'.values[c].fields == st.values[c].fields[e.name := Num(e.value)]
      && st'.values[c].keys == st.values[c].keys + [e.name]
      && forall i :: 0 <= i < |st.values| && i != c ==> st'.values[i] == st.values[i]
  {
  }

  /** A reading whose name the matched record already holds, with a later record also
    * within tolerance: the cursor moves on to the first such record (the forced search of
    * `Find`) and no value is stored. */
  lemma MatchForcedMove(st: Merged, e: Reading, maxDiff: real)
    requires Ready(st) && st.values != []
    requires var f := Find(st.values, st.cursor, e.ts, maxDiff, false);
      f.Some? && e.name in st.values[f.value].fields && Find(st.values, f.value, e.ts, maxDiff, true).Some?
    ensures Match(st, e, maxDiff).Ok?
    ensures var c := Find(st.values, st.cursor, e.ts, maxDiff, false).value;
      var st' := Match(st, e, maxDiff).value;
      st'.values == st.values && st'.warnings == st.warnings && c < st'.cursor
      && st'.cursor == Find(st.values, c, e.ts, maxDiff, true).value
      && Within(st.values, st'.cursor, e.ts, maxDiff)
      && forall j :: c < j < st'.cursor ==> !Within(st.values, j, e.ts, maxDiff)
  {
  }

  /** A reading whose name the matched record already holds, with no later record within
    * tolerance: the reading is added into that field at the unchanged cursor, or a
    * TypeError is raised when the field holds a string. */
  lemma MatchSummed(st: Merged, e: Reading, maxDiff: real)
    requires Ready(st) && st.values != []
    requires var f := Find(st.values, st.cursor, e.ts, maxDiff, false);
      f.Some? && e.name in st.values[f.value].fields && Find(st.values, f.value, e.ts, maxDiff, true).None?
    ensures var c := Find(st.values, st.cursor, e.ts, maxDiff, false).value;
      var prior := st.values[c].fields[e.name];
      match prior
      case Text(_) => Match(st, e, maxDiff) == Err(TypeError)
      case Num(x) =>
        Match(st, e, maxDiff).Ok?
        && var st' := Match(st, e, maxDiff).value;
        st'.cursor == c && st'.warnings == st.warnings + [SummedDuplicate(TsOf(st.values[c]), e.ts)]
        && st'.values[c].fields == st.values[c].fields[e.name := Num(x + e.value)]
        && st'.values[c].keys == st.values[c].keys
        && forall i :: 0 <= i < |st.values| && i != c ==> st'.values[i] == st.values[i]
  {
  }

  /** A pass changes no field of any record except the one named like the reading, and
    * never reorders a record's keys; so `ts` and `t_diff` stay as they were unless the
    * reading carries one of those names. */
  lemma MatchOtherFields(st: Merged, e: Reading, maxDiff: real, i: int, n: string)
    requires Ready(st) && 0 <= i < |st.values| && n != e.name
    ensures Match(st, e, maxDiff).Ok? ==>
      var r := Match(st, e, maxDiff).value.values[i];
      (n in r.fields <==> n in st.values[i].fields)
      && (n in r.fields ==> r.fields[n] == st.values[i].fields[n])
      && |st.values[i].keys| <= |r.keys| && r.keys[..|st.values[i].keys|] == st.values[i].keys
  {
    MatchFrame(st, e, maxDiff);
  }

  /** The energy loop over a stream of readings, up to the first exception. */
  function MergeAll(st: Merged, es: seq<Reading>, maxDiff: real): (r: Result<Merged, Crash>)
    requires Ready(st)
    ensures r.Ok? ==> Ready(r.value) && |r.value.values| == |st.values| && st.cursor <= r.value.cursor
    decreases |es|
  {
    if es == [] then Ok(st)
    else
      var prev := MergeAll(st, es[..|es| - 1], maxDiff);
      if prev.Err? then prev
      else
        MatchFrame(prev.value, Last(es), maxDiff);
        Match(prev.value, Last(es), maxDiff)
  }

  lemma MergeAllSnoc(st: Merged, es: seq<Reading>, e: Reading, maxDiff: real)
    requires Ready(st)
    ensures MergeAll(st, es, maxDiff).Err? ==> MergeAll(st, es + [e], maxDiff) == MergeAll(st, es, maxDiff)
    ensures MergeAll(st, es, maxDiff).Ok? ==> MergeAll(st, es + [e], maxDiff) == Match(MergeAll(st, es, maxDiff).value, e, maxDiff)
  {
    assert (es + [e])[..|es|] == es;
  }

  /** Over the whole energy log no field of any record changes unless some reading carries
    * its name; in particular every record keeps its `ts` and `t_diff`. */
  lemma {:induction false} MergeAllOtherFields(st: Merged, es: seq<Reading>, maxDiff: real, i: int, n: string)
    requires Ready(st) && 0 <= i < |st.values|
    requires forall j :: 0 <= j < |es| ==> es[j].name != n
    ensures MergeAll(st, es, maxDiff).Ok? ==>
      var r := MergeAll(st, es, maxDiff).value.values[i];
      (n in r.fields <==> n in st.values[i].fields)
      && (n in r.fields ==> r.fields[n] == st.values[i].fields[n])
    decreases |es|
  {
    if es != [] {
      var init := es[..|es| - 1];
      MergeAllOtherFields(st, init, maxDiff, i, n);
      var prev := MergeAll(st, init, maxDiff);
      if prev.Ok? {
        MatchOtherFields(prev.value, Last(es), maxDiff, i, n);
      }
    }
  }

  /** The body of the energy loop for one reading, on the loop's variables; the two
    * searches raise MatchError, rendered here as `None`. */
  method MatchReading(values: seq<Record>, lastVal: nat, warnings: seq<Warning>, e: Reading, maxDiff: real)
    returns (r: Result<Merged, Crash>)
    requires Ready(Merged(values, lastVal, warnings))
    ensures r == Match(Merged(values, lastVal, warnings), e, maxDiff)
  {
    if values == [] {
      return Err(IndexError);
    }
    var found := FindPerfCounter(values, lastVal, e.ts, maxDiff, false);
    if found.None? {
      return Ok(Merged(values, lastVal, warnings + [NoMatch(e.ts)]));
    }
    var c := found.value;
    if e.name in values[c].fields {
      var next := FindPerfCounter(values, c, e.ts, maxDiff, true);
      if next.Some? {
        return Ok(Merged(values, next.value, warnings));
      }
      var prior := values[c].fields[e.name];
      if prior.Text? {
        return Err(TypeError);
      }
      var warned := warnings + [SummedDuplicate(values[c].fields["ts"].x, e.ts)];
      return Ok(Merged(values[c := Store(values[c], e.name, Num(prior.x + e.value))], c, warned));
    }
    return Ok(Merged(values[c := Store(values[c], e.name, Num(e.value))], c, warnings));
  }

  /** The energy loop (tools/parse_csv.py:113-143) over the lines of the energy log: the
    * cursor starts at 0 and the result is the fold of the loop body over the readings. */
  method MergeEnergy(values: seq<Record>, lines: seq<string>, toReal: string -> real)
    returns (r: Result<Merged, Crash>)
    requires AllTimed(values) && forall l <- lines :: Parsable(l)
    ensures r == MergeAll(Merged(values, 0, []), EnergyReadings(lines, toReal), MAX_DIFF)
  {
    var st := Merged(values, 0, []);
    for i := 0 to |lines|
      invariant MergeAll(Merged(values, 0, []), EnergyReadings(lines[..i], toReal), MAX_DIFF) == Ok(st)
    {
      var l := lines[i];
      EnergyReadingsSnoc(lines, i, toReal);
      if Skipped(l) {
        continue;
      }
      var e := EnergyReading(l, toReal);
      MergeAllSnoc(Merged(values, 0, []), EnergyReadings(lines[..i], toReal), e, MAX_DIFF);
      var next := MatchReading(st.values, st.cursor, st.warnings, e, MAX_DIFF);
      if next.Err? {
        MergeAllStops(Merged(values, 0, []), lines, i + 1, toReal, MAX_DIFF);
        return next;
      }
      st := next.value;
    }
    assert lines[..|lines|] == lines;
    return Ok(st);
  }

  /** An exception ends the loop: later readings do not matter. */
  lemma {:induction false} MergeAllErr(st: Merged, a: seq<Reading>, b: seq<Reading>, maxDiff: real)
    requires Ready(st) && MergeAll(st, a, maxDiff).Err?
    ensures MergeAll(st, a + b, maxDiff) == MergeAll(st, a, maxDiff)
    decreases |b|
  {
    if b == [] {
      assert a + b == a;
    } else {
      var b' := b[..|b| - 1];
      MergeAllErr(st, a, b', maxDiff);
      assert (a + b)[..|a + b| - 1] == a + b';
    }
  }

  /** The same, on the lines of the log: an exception at line `i - 1` is the result. */
  lemma {:induction false} MergeAllStops(st: Merged, lines: seq<string>, i: int, toReal: string -> real, maxDiff: real)
    requires Ready(st) && 0 <= i <= |lines| && forall l <- lines :: Parsable(l)
    requires MergeAll(st, EnergyReadings(lines[..i], toReal), maxDiff).Err?
    ensures MergeAll(st, EnergyReadings(lines, toReal), maxDiff) == MergeAll(st, EnergyReadings(lines[..i], toReal), maxDiff)
  {
    EnergyReadingsAt(lines, i, toReal);
    MergeAllErrAt(st, EnergyReadings(lines[..i], toReal), EnergyReadings(lines[i..], toReal), EnergyReadings(lines, toReal), maxDiff);
  }

  /** `MergeAllErr` for a stream given as the concatenation `all`. */
  lemma MergeAllErrAt(st: Merged, a: seq<Reading>, b: seq<Reading>, all: seq<Reading>, maxDiff: real)
    requires Ready(st) && MergeAll(st, a, maxDiff).Err? && all == a + b
    ensures MergeAll(st, all, maxDiff) == MergeAll(st, a, maxDiff)
  {
    MergeAllErr(st, a, b, maxDiff);
  }

  /** The command-line context of the example records. */
  const EXAMPLE_CONTEXT := Context("bench", "1", "4", "2000")

  /** With the 0.02 s tolerance, a record at 10 s matches a reading at 10.019 s but not one
    * at 10.021 s. The test is strict: a record at 0 s does not match a reading at 0.02 s,
    * exactly the tolerance away (as also in IEEE doubles, where `abs(0.0 - 0.02)` is 0.02). */
  lemma ToleranceBoundaryExample()
    ensures var values := [Opened(10.0, 10.0, Some(EXAMPLE_CONTEXT))];
      AllTimed(values) && Find(values, 0, 10.019, MAX_DIFF, false) == Some(0)
      && Find(values, 0, 10.021, MAX_DIFF, false) == None
    ensures var values := [Opened(0.0, 0.0, Some(EXAMPLE_CONTEXT))];
      AllTimed(values) && Find(values, 0, 0.02, MAX_DIFF, false) == None
  {
    var values := [Opened(10.0, 10.0, Some(EXAMPLE_CONTEXT))];
    assert Scan(values, 1, 10.021, MAX_DIFF) == None;
    var zero := [Opened(0.0, 0.0, Some(EXAMPLE_CONTEXT))];
    assert Scan(zero, 1, 0.02, MAX_DIFF) == None;
  }

  /** A second reading of a name that no later record is close to is summed into the
    * field (3 + 4 = 7), with a warning naming the record's and the reading's times. */
  lemma SummedDuplicateExample()
    ensures var rec := Store(Opened(1.0, 1.0, Some(EXAMPLE_CONTEXT)), "energy", Num(3.0));
      Ready(Merged([rec], 0, []))
      && Match(Merged([rec], 0, []), Reading(1.0, "energy", 4.0), MAX_DIFF)
         == Ok(Merged([Store(rec, "energy", Num(7.0))], 0, [SummedDuplicate(1.0, 1.0)]))
  {
    var rec := Store(Opened(1.0, 1.0, Some(EXAMPLE_CONTEXT)), "energy", Num(3.0));
    assert Scan([rec], 1, 1.0, MAX_DIFF) == None;
    assert TsOf(rec) == 1.0;
    assert Find([rec], 0, 1.0, MAX_DIFF, false) == Some(0);
    assert Find([rec], 0, 1.0, MAX_DIFF, true) == None;
    var none: seq<Warning> := [];
    assert none + [SummedDuplicate(1.0, 1.0)] == [SummedDuplicate(1.0, 1.0)];
    assert "energy" in rec.fields && rec.fields["energy"] == Num(3.0);
    assert AddInto(rec, "energy", 4.0) == Ok(Store(rec, "energy", Num(7.0)));
    assert [rec][0 := Store(rec, "energy", Num(7.0))] == [Store(rec, "energy", Num(7.0))];
  }

  /** A second reading of a name, with the next record also close enough: the cursor moves
    * to that record and the reading itself is stored nowhere. */
  lemma ForcedMoveExample()
    ensures var r0 := Store(Opened(1.0, 1.0, Some(EXAMPLE_CONTEXT)), "energy", Num(3.0));
      var r1 := Opened(1.01, 0.01, Some(EXAMPLE_CONTEXT));
      Ready(Merged([r0, r1], 0, []))
      && Match(Merged([r0, r1], 0, []), Reading(1.005, "energy", 4.0), MAX_DIFF) == Ok(Merged([r0, r1], 1, []))
  {
    var r0 := Store(Opened(1.0, 1.0, Some(EXAMPLE_CONTEXT)), "energy", Num(3.0));
    var r1 := Opened(1.01, 0.01, Some(EXAMPLE_CONTEXT));
    assert TsOf(r0) == 1.0 && TsOf(r1) == 1.01;
    assert Scan([r0, r1], 1, 1.005, MAX_DIFF) == Some(1);
  }
}
