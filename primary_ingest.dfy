/** Reading the counter log into one merged record per group of lines with one
  * timestamp, dropping a group that holds an uncounted reading once the next
  * timestamp arrives (tools/parse_csv.py:77-109). */
module PrimaryIngest {
  import opened Wrappers
  import opened Strings
  import opened DataModel
  import opened LogLines
  import opened Grouping

  /** The loop's variables `values`, `last_ts` and `err_names`, and the warnings printed so far. */
  datatype Ingested = Ingested(values: seq<Record>, lastTs: Option<real>, errNames: seq<string>, warnings: seq<Warning>)

  /** Once a timestamp was seen there is an open record to store into. */
  predicate Coherent(st: Ingested) {
    st.lastTs.Some? ==> |st.values| > 0
  }

  /** The first half of the loop body (tools/parse_csv.py:96-105): at a new timestamp, discard
    * the open record if it collected uncounted names, then open a record for `ts`. */
  function Advance(st: Ingested, ts: real, ctx: Context): (st': Ingested)
    requires Coherent(st)
    ensures |st'.values| > 0 && st'.lastTs == Some(ts)
  {
    if st.lastTs.None? then
      Ingested(st.values + [Opened(ts, ts, Some(ctx))], Some(ts), st.errNames, st.warnings)
    else if ts != st.lastTs.value then
      var closed :=
        if st.errNames != [] then
          Ingested(st.values[..|st.values| - 1], st.lastTs, [], st.warnings + [Uncounted(st.errNames, st.lastTs.value)])
        else st;
      Ingested(closed.values + [Opened(ts, ts - st.lastTs.value, Some(ctx))], Some(ts), closed.errNames, closed.warnings)
    else st
  }

  /** The second half of the loop body (tools/parse_csv.py:106-109): note an uncounted
    * reading and store the reading into the open record. */
  function Put(st: Ingested, x: Sample): (st': Ingested)
    requires |st.values| > 0
    ensures |st'.values| == |st.values| && st'.lastTs == st.lastTs
  {
    var n := |st.values|;
    Ingested(st.values[n - 1 := Store(st.values[n - 1], x.name, Text(x.value))], st.lastTs,
             if x.value == NOT_COUNTED then st.errNames + [x.name] else st.errNames, st.warnings)
  }

  /** One pass of the loop body on a parsed line. */
  function Step(st: Ingested, x: Sample, ctx: Context): (st': Ingested)
    requires Coherent(st)
    ensures Coherent(st') && st'.lastTs == Some(x.ts)
  {
    Put(Advance(st, x.ts, ctx), x)
  }

  /** The loop run over a whole stream of samples. */
  function IngestAll(s: seq<Sample>, ctx: Context): (st: Ingested)
    ensures Coherent(st)
    ensures s == [] <==> st.lastTs.None?
    ensures s != [] ==> st.lastTs == Some(s[|s| - 1].ts)
    ensures |st.values| <= |s|
    decreases |s|
  {
    if s == [] then Ingested([], None, [], []) else Step(IngestAll(s[..|s| - 1], ctx), Last(s), ctx)
  }

  /** The names of the run's samples that read `<not counted>`, in order. */
  function UncountedNames(run: seq<Sample>): (names: seq<string>) {
    if run == [] then []
    else UncountedNames(run[..|run| - 1]) + (if Last(run).value == NOT_COUNTED then [Last(run).name] else [])
  }

  /** The records of groups 0 .. n-1 once closed: those without uncounted readings. */
  function Closed(rs: seq<seq<Sample>>, n: int, ctx: Context): (kept: seq<Record>)
    requires NonEmptyRuns(rs) && 0 <= n <= |rs|
  {
    if n == 0 then []
    else Closed(rs, n - 1, ctx) + (if UncountedNames(rs[n - 1]) == [] then [GroupRecord(rs, n - 1, Some(ctx))] else [])
  }

  /** The warnings for groups 0 .. n-1 once closed: one per group with uncounted readings. */
  function Dropped(rs: seq<seq<Sample>>, n: int): (ws: seq<Warning>)
    requires NonEmptyRuns(rs) && 0 <= n <= |rs|
  {
    if n == 0 then []
    else Dropped(rs, n - 1) + (if UncountedNames(rs[n - 1]) != [] then [Uncounted(UncountedNames(rs[n - 1]), rs[n - 1][0].ts)] else [])
  }

  /** What ingestion should leave behind, stated over the runs of the stream: the records
    * of the closed groups without uncounted readings, then the last group's record (its
    * uncounted readings are never checked); a warning per dropped group; `last_ts` the last
    * timestamp; and `err_names` the uncounted names of the last group. */
  function Expected(s: seq<Sample>, ctx: Context): (e: Ingested) {
    RunsShape(s);
    var rs := Runs(s);
    if rs == [] then Ingested([], None, [], [])
    else Ingested(Closed(rs, |rs| - 1, ctx) + [GroupRecord(rs, |rs| - 1, Some(ctx))],
                  Some(Last(s).ts), UncountedNames(Last(rs)), Dropped(rs, |rs| - 1))
  }

  /** Closed groups depend only on the runs they cover. */
  lemma {:induction false} ClosedFrame(rs: seq<seq<Sample>>, rs': seq<seq<Sample>>, n: int, ctx: Context)
    requires NonEmptyRuns(rs) && NonEmptyRuns(rs') && 0 <= n <= |rs| && n <= |rs'| && rs[..n] == rs'[..n]
    ensures Closed(rs, n, ctx) == Closed(rs', n, ctx) && Dropped(rs, n) == Dropped(rs', n)
  {
    if n > 0 {
      assert rs[..n - 1] == rs[..n][..n - 1] && rs'[..n - 1] == rs'[..n][..n - 1];
      ClosedFrame(rs, rs', n - 1, ctx);
      assert rs[n - 1] == rs[..n][n - 1] && rs'[n - 1] == rs'[..n][n - 1];
      if n > 1 {
        assert rs[n - 2] == rs[..n][n - 2] && rs'[n - 2] == rs'[..n][n - 2];
      }
      GroupRecordFrame(rs, rs', n - 1, Some(ctx));
    }
  }

  /** One more sample of the same timestamp: its name is noted when it is uncounted. */
  lemma {:induction false} UncountedSnoc(run: seq<Sample>, x: Sample)
    ensures UncountedNames(run + [x]) == UncountedNames(run) + (if x.value == NOT_COUNTED then [x.name] else [])
  {
    assert (run + [x])[..|run|] == run;
  }

  /** The loop body on a line that continues the open group. */
  lemma {:induction false} StepContinues(st: Ingested, x: Sample, ctx: Context)
    requires Coherent(st) && st.lastTs == Some(x.ts)
    ensures Step(st, x, ctx) ==
      Ingested(st.values[..|st.values| - 1] + [Store(Last(st.values), x.name, Text(x.value))], Some(x.ts),
               st.errNames + (if x.value == NOT_COUNTED then [x.name] else []), st.warnings)
  {
  }

  /** The loop body on a line that opens a new group after an earlier one. */
  lemma {:induction false} StepOpens(st: Ingested, x: Sample, ctx: Context)
    requires Coherent(st) && st.lastTs.Some? && st.lastTs.value != x.ts
    ensures Step(st, x, ctx) ==
      Ingested((if st.errNames != [] then st.values[..|st.values| - 1] else st.values)
                 + [Store(Opened(x.ts, x.ts - st.lastTs.value, Some(ctx)), x.name, Text(x.value))],
               Some(x.ts), if x.value == NOT_COUNTED then [x.name] else [],
               st.warnings + (if st.errNames != [] then [Uncounted(st.errNames, st.lastTs.value)] else []))
  {
  }

  lemma {:induction false} IngestAllSnoc(init: seq<Sample>, x: Sample, ctx: Context)
    ensures IngestAll(init + [x], ctx) == Step(IngestAll(init, ctx), x, ctx)
  {
    var s := init + [x];
    assert s[..|s| - 1] == init && Last(s) == x;
  }

  /** The expected result after a sample that continues the last group. */
  lemma {:induction false} ExpectedSameGroup(init: seq<Sample>, x: Sample, ctx: Context)
    requires init != [] && Last(init).ts == x.ts
    ensures NonEmptyRuns(Runs(init))
    ensures var rs := Runs(init);
      Expected(init + [x], ctx) ==
        Ingested(Closed(rs, |rs| - 1, ctx) + [Store(GroupRecord(rs, |rs| - 1, Some(ctx)), x.name, Text(x.value))],
                 Some(x.ts), UncountedNames(Last(rs)) + (if x.value == NOT_COUNTED then [x.name] else []),
                 Dropped(rs, |rs| - 1))
  {
    var s := init + [x];
    assert s[..|s| - 1] == init && Last(s) == x;
    RunsShape(init);
    RunsShape(s);
    var rs := Runs(init);
    var n := |rs|;
    var rs' := Runs(s);
    assert rs' == rs[..n - 1] + [Last(rs) + [x]];
    assert rs'[..n - 1] == rs[..n - 1];
    ClosedFrame(rs, rs', n - 1, ctx);
    var o := Opened(rs[n - 1][0].ts, TDiff(rs, n - 1), Some(ctx));
    FillSnoc(o, Last(rs), x);
    UncountedSnoc(Last(rs), x);
    assert rs'[n - 1][0] == rs[n - 1][0];
    assert TDiff(rs', n - 1) == TDiff(rs, n - 1);
  }

  /** The expected state of a non-empty stream, spelled out. */
  function ExpectedOf(rs: seq<seq<Sample>>, t: real, ctx: Context): (e: Ingested)
    requires NonEmptyRuns(rs) && |rs| > 0
  {
    Ingested(Closed(rs, |rs| - 1, ctx) + [GroupRecord(rs, |rs| - 1, Some(ctx))], Some(t),
             UncountedNames(Last(rs)), Dropped(rs, |rs| - 1))
  }

  lemma {:induction false} ExpectedNonEmpty(s: seq<Sample>, ctx: Context)
    requires s != []
    ensures NonEmptyRuns(Runs(s)) && |Runs(s)| > 0
    ensures Expected(s, ctx) == ExpectedOf(Runs(s), Last(s).ts, ctx)
  {
    RunsShape(s);
  }

  /** Closing one more group keeps its record or adds its warning. */
  lemma {:induction false} ClosedSnoc(rs: seq<seq<Sample>>, n: int, ctx: Context)
    requires NonEmptyRuns(rs) && 0 < n <= |rs|
    ensures UncountedNames(rs[n - 1]) == [] ==>
      Closed(rs, n, ctx) == Closed(rs, n - 1, ctx) + [GroupRecord(rs, n - 1, Some(ctx))] && Dropped(rs, n) == Dropped(rs, n - 1)
    ensures UncountedNames(rs[n - 1]) != [] ==>
      Closed(rs, n, ctx) == Closed(rs, n - 1, ctx) && Dropped(rs, n) == Dropped(rs, n - 1) + [Uncounted(UncountedNames(rs[n - 1]), rs[n - 1][0].ts)]
  {
  }

  /** The closed records and warnings once runs `rs` are followed by a run of one sample. */
  lemma {:induction false} ClosedOpen(rs: seq<seq<Sample>>, x: Sample, ctx: Context)
    requires NonEmptyRuns(rs) && |rs| > 0
    ensures NonEmptyRuns(rs + [[x]])
    ensures var n := |rs|;
      UncountedNames(Last(rs)) == [] ==>
        Closed(rs + [[x]], n, ctx) == Closed(rs, n - 1, ctx) + [GroupRecord(rs, n - 1, Some(ctx))]
        && Dropped(rs + [[x]], n) == Dropped(rs, n - 1)
    ensures var n := |rs|;
      UncountedNames(Last(rs)) != [] ==>
        Closed(rs + [[x]], n, ctx) == Closed(rs, n - 1, ctx)
        && Dropped(rs + [[x]], n) == Dropped(rs, n - 1) + [Uncounted(UncountedNames(Last(rs)), Last(rs)[0].ts)]
  {
    var n := |rs|;
    var rs' := rs + [[x]];
    assert rs'[..n - 1] == rs[..n - 1] && rs'[n - 1] == Last(rs);
    ClosedFrame(rs, rs', n - 1, ctx);
    GroupRecordFrame(rs, rs', n - 1, Some(ctx));
    ClosedSnoc(rs', n, ctx);
  }

  /** The expected state of runs `rs` followed by a run of one sample, whose record is `first`. */
  lemma {:induction false} ExpectedOfOpen(rs: seq<seq<Sample>>, x: Sample, t: real, ctx: Context)
    requires NonEmptyRuns(rs) && |rs| > 0 && Last(rs)[0].ts == t
    ensures NonEmptyRuns(rs + [[x]])
    ensures ExpectedOf(rs + [[x]], x.ts, ctx) ==
      AfterOpen(Closed(rs, |rs| - 1, ctx), GroupRecord(rs, |rs| - 1, Some(ctx)), UncountedNames(Last(rs)),
                Dropped(rs, |rs| - 1), t, GroupRecord(rs + [[x]], |rs|, Some(ctx)), x)
  {
    var rs' := rs + [[x]];
    var n := |rs|;
    ClosedOpen(rs, x, ctx);
    assert Last(rs') == [x];
    UncountedSnoc([], x);
    assert [] + [x] == [x];
    var g, first := GroupRecord(rs, n - 1, Some(ctx)), GroupRecord(rs', n, Some(ctx));
    if UncountedNames(Last(rs)) == [] {
      assert Closed(rs', n, ctx) + [first] == Closed(rs, n - 1, ctx) + [g] + [first];
    } else {
      assert Closed(rs', n, ctx) + [first] == Closed(rs, n - 1, ctx) + [] + [first];
    }
  }

  /** A sample with a new timestamp: the expected state is that of the earlier runs
    * followed by a run of that sample alone. */
  lemma {:induction false} ExpectedOpens(init: seq<Sample>, x: Sample, ctx: Context)
    requires init != [] && Last(init).ts != x.ts
    ensures NonEmptyRuns(Runs(init)) && |Runs(init)| > 0 && Last(Runs(init))[0].ts == Last(init).ts
    ensures NonEmptyRuns(Runs(init) + [[x]])
    ensures Expected(init + [x], ctx) == ExpectedOf(Runs(init) + [[x]], x.ts, ctx)
  {
    var s := init + [x];
    RunsShape(init);
    RunsOpen(init, x);
    ExpectedNonEmpty(s, ctx);
    assert Last(s) == x;
  }

  /** The loop body on a state of the expected shape, for a sample that continues the last group. */
  lemma {:induction false} StepSameGroup(init: seq<Sample>, x: Sample, ctx: Context)
    requires init != [] && Last(init).ts == x.ts
    ensures NonEmptyRuns(Runs(init)) && |Runs(init)| > 0
    ensures Step(ExpectedOf(Runs(init), Last(init).ts, ctx), x, ctx) == Expected(init + [x], ctx)
  {
    ExpectedSameGroup(init, x, ctx);
    var rs := Runs(init);
    StepContinuesAfter(Closed(rs, |rs| - 1, ctx), GroupRecord(rs, |rs| - 1, Some(ctx)), UncountedNames(Last(rs)),
                       Dropped(rs, |rs| - 1), x, ctx);
  }

  /** The loop body on a line that continues the open group, with that group's record last. */
  lemma {:induction false} StepContinuesAfter(closed: seq<Record>, g: Record, u: seq<string>, d: seq<Warning>, x: Sample, ctx: Context)
    ensures Step(Ingested(closed + [g], Some(x.ts), u, d), x, ctx) ==
      Ingested(closed + [Store(g, x.name, Text(x.value))], Some(x.ts), u + (if x.value == NOT_COUNTED then [x.name] else []), d)
  {
    var st := Ingested(closed + [g], Some(x.ts), u, d);
    StepContinues(st, x, ctx);
    assert st.values[..|st.values| - 1] == closed;
  }

  /** The state after a line that opens a new group, given the state's parts before it and
    * the new group's record `first`. */
  function AfterOpen(closed: seq<Record>, g: Record, u: seq<string>, d: seq<Warning>, t: real, first: Record, x: Sample): (st: Ingested) {
    Ingested(closed + (if u == [] then [g] else []) + [first],
             Some(x.ts), if x.value == NOT_COUNTED then [x.name] else [],
             d + (if u != [] then [Uncounted(u, t)] else []))
  }

  /** The loop body on a line that opens a new group, with the open group's record last. */
  lemma {:induction false} StepOpensAfter(closed: seq<Record>, g: Record, u: seq<string>, d: seq<Warning>, t: real, x: Sample, ctx: Context)
    requires t != x.ts
    ensures Step(Ingested(closed + [g], Some(t), u, d), x, ctx) ==
      AfterOpen(closed, g, u, d, t, Store(Opened(x.ts, x.ts - t, Some(ctx)), x.name, Text(x.value)), x)
  {
    var st := Ingested(closed + [g], Some(t), u, d);
    StepOpens(st, x, ctx);
    if u != [] {
      assert st.values[..|st.values| - 1] == closed;
    }
  }

  lemma {:induction false} StepOpensExpected(rs: seq<seq<Sample>>, t: real, x: Sample, ctx: Context)
    requires NonEmptyRuns(rs) && |rs| > 0 && t != x.ts
    ensures Step(ExpectedOf(rs, t, ctx), x, ctx) ==
      AfterOpen(Closed(rs, |rs| - 1, ctx), GroupRecord(rs, |rs| - 1, Some(ctx)), UncountedNames(Last(rs)),
                Dropped(rs, |rs| - 1), t, Store(Opened(x.ts, x.ts - t, Some(ctx)), x.name, Text(x.value)), x)
  {
    StepOpensAfter(Closed(rs, |rs| - 1, ctx), GroupRecord(rs, |rs| - 1, Some(ctx)), UncountedNames(Last(rs)),
                   Dropped(rs, |rs| - 1), t, x, ctx);
  }

  /** The loop body on the expected state of runs `rs`, for a sample with a new timestamp:
    * the expected state of `rs` followed by a run of that sample alone. */
  lemma {:induction false} StepOpensRun(rs: seq<seq<Sample>>, t: real, x: Sample, ctx: Context)
    requires NonEmptyRuns(rs) && |rs| > 0 && Last(rs)[0].ts == t && t != x.ts
    ensures NonEmptyRuns(rs + [[x]])
    ensures Step(ExpectedOf(rs, t, ctx), x, ctx) == ExpectedOf(rs + [[x]], x.ts, ctx)
  {
    StepOpensExpected(rs, t, x, ctx);
    ExpectedOfOpen(rs, x, t, ctx);
    assert (rs + [[x]])[|rs| - 1] == Last(rs);
    SingleGroupRecord(rs + [[x]], |rs|, x, t, Some(ctx));
  }

  /** The loop body on a state of the expected shape, for a sample that opens a new group. */
  lemma {:induction false} StepNewGroup(init: seq<Sample>, x: Sample, ctx: Context)
    requires init != [] && Last(init).ts != x.ts
    ensures NonEmptyRuns(Runs(init)) && |Runs(init)| > 0
    ensures Step(ExpectedOf(Runs(init), Last(init).ts, ctx), x, ctx) == Expected(init + [x], ctx)
  {
    ExpectedOpens(init, x, ctx);
    StepOpensRun(Runs(init), Last(init).ts, x, ctx);
  }

  /** The first sample of the stream opens the first group. */
  lemma {:induction false} StepFirst(x: Sample, ctx: Context)
    ensures IngestAll([x], ctx) == Expected([x], ctx)
  {
    assert [x][..0] == [];
    RunsShape([x]);
    assert Runs([x]) == [[x]];
    FillSnoc(Opened(x.ts, x.ts, Some(ctx)), [], x);
    UncountedSnoc([], x);
    assert [] + [x] == [x];
  }

  /** The loop computes exactly the run-based description of its result. */
  lemma {:induction false} IngestMatchesRuns(s: seq<Sample>, ctx: Context)
    ensures IngestAll(s, ctx) == Expected(s, ctx)
    decreases |s|
  {
    if s != [] {
      var init := s[..|s| - 1];
      var x := Last(s);
      assert s == init + [x];
      if init == [] {
        StepFirst(x, ctx);
      } else {
        IngestMatchesRuns(init, ctx);
        IngestAllSnoc(init, x, ctx);
        ExpectedNonEmpty(init, ctx);
        if Last(init).ts == x.ts {
          StepSameGroup(init, x, ctx);
        } else {
          StepNewGroup(init, x, ctx);
        }
      }
    }
  }

  /** Every closed group either keeps its record or gives one warning. */
  lemma {:induction false} ClosedDroppedCount(rs: seq<seq<Sample>>, n: int, ctx: Context)
    requires NonEmptyRuns(rs) && 0 <= n <= |rs|
    ensures |Closed(rs, n, ctx)| + |Dropped(rs, n)| == n
  {
    if n > 0 {
      ClosedDroppedCount(rs, n - 1, ctx);
    }
  }

  /** Closed groups without uncounted readings are all kept, in order, with no warning. */
  lemma {:induction false} ClosedClean(rs: seq<seq<Sample>>, n: int, ctx: Context)
    requires NonEmptyRuns(rs) && 0 <= n <= |rs|
    requires forall k :: 0 <= k < n ==> UncountedNames(rs[k]) == []
    ensures |Closed(rs, n, ctx)| == n
    ensures forall k :: 0 <= k < n ==> Closed(rs, n, ctx)[k] == GroupRecord(rs, k, Some(ctx))
  {
    if n > 0 {
      ClosedClean(rs, n - 1, ctx);
      assert UncountedNames(rs[n - 1]) == [];
      RecordsAppend(Closed(rs, n - 1, ctx), rs, n, ctx);
    }
  }

  /** Closed groups without uncounted readings give no warning. */
  lemma {:induction false} DroppedClean(rs: seq<seq<Sample>>, n: int)
    requires NonEmptyRuns(rs) && 0 <= n <= |rs|
    requires forall k :: 0 <= k < n ==> UncountedNames(rs[k]) == []
    ensures Dropped(rs, n) == []
  {
    if n > 0 {
      DroppedClean(rs, n - 1);
      assert UncountedNames(rs[n - 1]) == [];
    }
  }

  /** A run has no uncounted names exactly when none of its readings is `<not counted>`. */
  lemma {:induction false} UncountedNamesEmpty(run: seq<Sample>)
    ensures UncountedNames(run) == [] <==> forall j :: 0 <= j < |run| ==> run[j].value != NOT_COUNTED
    decreases |run|
  {
    if run != [] {
      var init := run[..|run| - 1];
      UncountedNamesEmpty(init);
      assert forall j :: 0 <= j < |init| ==> init[j] == run[j];
    }
  }

  /** Every sample of a run is a sample of the stream. */
  lemma {:induction false} ConcatMember(rs: seq<seq<Sample>>, k: int, j: int)
    requires 0 <= k < |rs| && 0 <= j < |rs[k]|
    ensures rs[k][j] in Concat(rs)
    decreases |rs|
  {
    if k < |rs| - 1 {
      ConcatMember(rs[..|rs| - 1], k, j);
    }
  }

  /** The shape of what ingestion leaves behind: every group is either kept or warned
    * about, the last group is always kept (its uncounted readings are never checked and
    * stay in `err_names`), and `last_ts` is the last timestamp. */
  lemma {:induction false} IngestShape(s: seq<Sample>, ctx: Context)
    requires s != []
    ensures NonEmptyRuns(Runs(s)) && |Runs(s)| > 0
    ensures var e := Expected(s, ctx); var rs := Runs(s);
      |e.values| + |e.warnings| == |rs| && |e.values| > 0
      && Last(e.values) == GroupRecord(rs, |rs| - 1, Some(ctx))
      && e.errNames == UncountedNames(Last(rs)) && e.lastTs == Some(Last(s).ts)
  {
    ExpectedNonEmpty(s, ctx);
    var rs := Runs(s);
    ClosedDroppedCount(rs, |rs| - 1, ctx);
  }

  /** A stream without uncounted readings gives one record per run, each the run's record,
    * and no warning. */
  lemma {:induction false} IngestClean(s: seq<Sample>, ctx: Context)
    requires forall j :: 0 <= j < |s| ==> s[j].value != NOT_COUNTED
    ensures NonEmptyRuns(Runs(s))
    ensures var e := Expected(s, ctx);
      |e.values| == |Runs(s)| && e.warnings == [] && e.errNames == []
      && forall k :: 0 <= k < |Runs(s)| ==> e.values[k] == GroupRecord(Runs(s), k, Some(ctx))
  {
    RunsShape(s);
    if s != [] {
      ExpectedNonEmpty(s, ctx);
      RunsClean(s);
      ExpectedOfClean(Runs(s), Last(s).ts, ctx);
    }
  }

  /** A stream without uncounted readings has runs without uncounted names. */
  lemma {:induction false} RunsClean(s: seq<Sample>)
    requires forall j :: 0 <= j < |s| ==> s[j].value != NOT_COUNTED
    ensures NonEmptyRuns(Runs(s))
    ensures forall k :: 0 <= k < |Runs(s)| ==> UncountedNames(Runs(s)[k]) == []
  {
    RunsShape(s);
    var rs := Runs(s);
    RunsConcat(s);
    forall k | 0 <= k < |rs| ensures UncountedNames(rs[k]) == [] {
      forall j | 0 <= j < |rs[k]| ensures rs[k][j].value != NOT_COUNTED {
        ConcatMember(rs, k, j);
      }
      UncountedNamesEmpty(rs[k]);
    }
  }

  /** With no uncounted names in any run, the expected state keeps every run's record. */
  lemma {:induction false} ExpectedOfClean(rs: seq<seq<Sample>>, t: real, ctx: Context)
    requires NonEmptyRuns(rs) && |rs| > 0
    requires forall k :: 0 <= k < |rs| ==> UncountedNames(rs[k]) == []
    ensures var e := ExpectedOf(rs, t, ctx);
      |e.values| == |rs| && e.warnings == [] && e.errNames == []
      && forall k :: 0 <= k < |rs| ==> e.values[k] == GroupRecord(rs, k, Some(ctx))
  {
    var n := |rs|;
    ClosedClean(rs, n - 1, ctx);
    DroppedClean(rs, n - 1);
    assert UncountedNames(rs[n - 1]) == [];
    CleanParts(Closed(rs, n - 1, ctx), rs, Dropped(rs, n - 1), UncountedNames(Last(rs)), t, ctx);
  }

  /** The expected state put together from its parts, when no group was dropped. */
  lemma {:induction false} CleanParts(closed: seq<Record>, rs: seq<seq<Sample>>, d: seq<Warning>, u: seq<string>, t: real, ctx: Context)
    requires NonEmptyRuns(rs) && |rs| > 0 && |closed| == |rs| - 1 && d == [] && u == UncountedNames(rs[|rs| - 1]) == []
    requires forall k :: 0 <= k < |rs| - 1 ==> closed[k] == GroupRecord(rs, k, Some(ctx))
    ensures var e := Ingested(closed + [GroupRecord(rs, |rs| - 1, Some(ctx))], Some(t), u, d);
      |e.values| == |rs| && e.warnings == [] && e.errNames == []
      && forall k :: 0 <= k < |rs| ==> e.values[k] == GroupRecord(rs, k, Some(ctx))
  {
    RecordsAppend(closed, rs, |rs|, ctx);
  }

  /** The records of runs 0 .. n-2, followed by the record of run n-1. */
  lemma {:induction false} RecordsAppend(closed: seq<Record>, rs: seq<seq<Sample>>, n: int, ctx: Context)
    requires NonEmptyRuns(rs) && 0 < n <= |rs| && |closed| == n - 1
    requires forall k :: 0 <= k < n - 1 ==> closed[k] == GroupRecord(rs, k, Some(ctx))
    ensures forall k :: 0 <= k < n ==> (closed + [GroupRecord(rs, n - 1, Some(ctx))])[k] == GroupRecord(rs, k, Some(ctx))
  {
  }

  /** The stream of the example below falls into three runs of one sample each. */
  lemma {:induction false} ExampleRuns(s0: Sample, s1: Sample, s2: Sample)
    requires s0.ts != s1.ts && s1.ts != s2.ts
    ensures Runs([s0, s1, s2]) == [[s0], [s1], [s2]]
  {
    assert [s0, s1][..1] == [s0] && [s0][..0] == [];
    assert Runs([s0]) == [[s0]];
    assert Runs([s0, s1]) == [[s0], [s1]];
    assert [s0, s1, s2][..2] == [s0, s1];
  }

  /** Three one-sample groups at 1, 2 and 3 seconds where the middle reading is uncounted:
    * the middle group is dropped with one warning, and the surviving third record's
    * `t_diff` is measured from the dropped group (3 - 2), not from the kept one. */
  lemma {:induction false} DroppedGroupExample(ctx: Context)
    ensures var s := [Sample(1.0, "a", "5"), Sample(2.0, "a", NOT_COUNTED), Sample(3.0, "a", "7")];
      var e := Expected(s, ctx);
      |e.values| == 2 && e.warnings == [Uncounted(["a"], 2.0)] && e.errNames == []
      && "t_diff" in e.values[1].fields && e.values[1].fields["t_diff"] == Num(1.0)
  {
    var s0, s1, s2 := Sample(1.0, "a", "5"), Sample(2.0, "a", NOT_COUNTED), Sample(3.0, "a", "7");
    var s := [s0, s1, s2];
    ExampleRuns(s0, s1, s2);
    ExpectedNonEmpty(s, ctx);
    DroppedGroupRuns(s0, s1, s2, ctx);
  }

  /** The expected state of the example's three runs. */
  lemma {:induction false} DroppedGroupRuns(s0: Sample, s1: Sample, s2: Sample, ctx: Context)
    requires s0 == Sample(1.0, "a", "5") && s1 == Sample(2.0, "a", NOT_COUNTED) && s2 == Sample(3.0, "a", "7")
    ensures var e := ExpectedOf([[s0], [s1], [s2]], 3.0, ctx);
      |e.values| == 2 && e.warnings == [Uncounted(["a"], 2.0)] && e.errNames == []
      && "t_diff" in e.values[1].fields && e.values[1].fields["t_diff"] == Num(1.0)
  {
    var rs := [[s0], [s1], [s2]];
    assert [s2][..0] == [] && [s1][..0] == [] && [s0][..0] == [];
    assert |"5"| != |NOT_COUNTED| && |"7"| != |NOT_COUNTED|;
    assert s0.value != NOT_COUNTED && s2.value != NOT_COUNTED;
    assert UncountedNames([s0]) == [];
    assert UncountedNames([s2]) == [];
    assert UncountedNames([s1]) == ["a"];
    MiddleRunDropped(rs, 3.0, ctx);
    assert |"a"| != |"ts"| && |"a"| != |"t_diff"|;
    assert !Mentions(rs[2], "ts") && !Mentions(rs[2], "t_diff");
    GroupRecordTimes(rs, 2, Some(ctx));
    assert TDiff(rs, 2) == 1.0;
  }

  /** Of three runs, a middle one with uncounted readings is dropped with a warning while
    * the first and the last keep their records. */
  lemma {:induction false} MiddleRunDropped(rs: seq<seq<Sample>>, t: real, ctx: Context)
    requires NonEmptyRuns(rs) && |rs| == 3 && UncountedNames(rs[0]) == [] && UncountedNames(rs[1]) != []
    ensures var e := ExpectedOf(rs, t, ctx);
      e.values == [GroupRecord(rs, 0, Some(ctx)), GroupRecord(rs, 2, Some(ctx))]
      && e.warnings == [Uncounted(UncountedNames(rs[1]), rs[1][0].ts)] && e.errNames == UncountedNames(rs[2])
  {
    ClosedSnoc(rs, 1, ctx);
    ClosedSnoc(rs, 2, ctx);
    assert Last(rs) == rs[2];
  }

  /** The body of the counter loop for one data line (tools/parse_csv.py:96-109), on the
    * loop's variables. */
  method IngestSample(values: seq<Record>, lastTs: Option<real>, errNames: seq<string>, warnings: seq<Warning>,
                      x: Sample, ctx: Context)
    returns (values': seq<Record>, lastTs': Option<real>, errNames': seq<string>, warnings': seq<Warning>)
    requires Coherent(Ingested(values, lastTs, errNames, warnings))
    ensures Ingested(values', lastTs', errNames', warnings') == Step(Ingested(values, lastTs, errNames, warnings), x, ctx)
  {
    values', lastTs', errNames', warnings' := values, lastTs, errNames, warnings;
    if lastTs'.None? {
      values' := values' + [Opened(x.ts, x.ts, Some(ctx))];
      lastTs' := Some(x.ts);
    } else if x.ts != lastTs'.value {
      if errNames' != [] {
        warnings' := warnings' + [Uncounted(errNames', lastTs'.value)];
        errNames' := [];
        values' := values'[..|values'| - 1];
      }
      values' := values' + [Opened(x.ts, x.ts - lastTs'.value, Some(ctx))];
      lastTs' := Some(x.ts);
    }
    assert Ingested(values', lastTs', errNames', warnings') == Advance(Ingested(values, lastTs, errNames, warnings), x.ts, ctx);
    if x.value == NOT_COUNTED {
      errNames' := errNames' + [x.name];
    }
    values' := values'[|values'| - 1 := Store(values'[|values'| - 1], x.name, Text(x.value))];
  }

  /** The counter loop (tools/parse_csv.py:78-109): runs over the lines of the counter log
    * and leaves behind exactly the loop fold over its samples, which is the run-based
    * description `Expected`. */
  method IngestCounters(lines: seq<string>, ctx: Context, toReal: string -> real) returns (st: Ingested)
    requires forall l <- lines :: Parsable(l)
    ensures st == IngestAll(CounterSamples(lines, toReal), ctx)
    ensures st == Expected(CounterSamples(lines, toReal), ctx)
  {
    var values: seq<Record> := [];
    var lastTs: Option<real> := None;
    var errNames: seq<string> := [];
    var warnings: seq<Warning> := [];
    for i := 0 to |lines|
      invariant Ingested(values, lastTs, errNames, warnings) == IngestAll(CounterSamples(lines[..i], toReal), ctx)
    {
      var l := lines[i];
      CounterSamplesSnoc(lines, i, toReal);
      if Skipped(l) {
        continue;
      }
      var x := CounterSample(l, toReal);
      IngestAllSnoc(CounterSamples(lines[..i], toReal), x, ctx);
      values, lastTs, errNames, warnings := IngestSample(values, lastTs, errNames, warnings, x, ctx);
    }
    assert lines[..|lines|] == lines;
    st := Ingested(values, lastTs, errNames, warnings);
    IngestMatchesRuns(CounterSamples(lines, toReal), ctx);
  }
}
