/** Grouping of counter samples into runs of equal consecutive timestamps, and the
  * record each run becomes. Both log parsers build their records this way. */
module Grouping {
  import opened Wrappers
  import opened DataModel

  function Last<T>(s: seq<T>): (x: T)
    requires |s| > 0
  {
    s[|s| - 1]
  }

  predicate NonEmptyRuns(rs: seq<seq<Sample>>) {
    forall k :: 0 <= k < |rs| ==> |rs[k]| > 0
  }

  /** The maximal runs of consecutive samples with one timestamp, in stream order
    * (their shape is stated by RunsShape and RunsConcat). */
  function Runs(s: seq<Sample>): (rs: seq<seq<Sample>>)
    ensures |rs| == 0 <==> |s| == 0
    decreases |s|
  {
    if s == [] then []
    else
      var init := s[..|s| - 1];
      var x := Last(s);
      var rs := Runs(init);
      if init != [] && Last(init).ts == x.ts then rs[..|rs| - 1] + [Last(rs) + [x]]
      else rs + [[x]]
  }

  /** All samples of run `k` share that run's timestamp. */
  predicate SameTs(rs: seq<seq<Sample>>)
    requires NonEmptyRuns(rs)
  {
    forall k, j :: 0 <= k < |rs| && 0 <= j < |rs[k]| ==> rs[k][j].ts == rs[k][0].ts
  }

  /** Neighbouring runs have different timestamps, so no run can be extended. */
  predicate Maximal(rs: seq<seq<Sample>>)
    requires NonEmptyRuns(rs)
  {
    forall k :: 0 < k < |rs| ==> rs[k - 1][0].ts != rs[k][0].ts
  }

  predicate WellGrouped(rs: seq<seq<Sample>>) {
    NonEmptyRuns(rs) && SameTs(rs) && Maximal(rs)
  }

  /** A sample with the last run's timestamp joins that run. */
  lemma JoinLastRun(rs: seq<seq<Sample>>, x: Sample)
    requires WellGrouped(rs) && |rs| > 0 && Last(rs)[0].ts == x.ts
    ensures WellGrouped(rs[..|rs| - 1] + [Last(rs) + [x]])
  {
    var rs' := rs[..|rs| - 1] + [Last(rs) + [x]];
    assert forall k :: 0 <= k < |rs| - 1 ==> rs'[k] == rs[k];
    assert rs'[|rs| - 1][0] == rs[|rs| - 1][0];
  }

  /** A sample with another timestamp opens a new run. */
  lemma OpenRun(rs: seq<seq<Sample>>, x: Sample)
    requires WellGrouped(rs) && (|rs| > 0 ==> Last(rs)[0].ts != x.ts)
    ensures WellGrouped(rs + [[x]])
  {
    var rs' := rs + [[x]];
    assert forall k :: 0 <= k < |rs| ==> rs'[k] == rs[k];
  }

  /** No run is empty, a run shares one timestamp, neighbouring runs differ in it,
    * and the last sample of the stream closes the last run. */
  lemma {:induction false} RunsShape(s: seq<Sample>)
    ensures WellGrouped(Runs(s))
    ensures s != [] ==> Last(Last(Runs(s))) == Last(s)
    decreases |s|
  {
    if s != [] {
      var init := s[..|s| - 1];
      var x := Last(s);
      var rs := Runs(init);
      RunsShape(init);
      if init != [] && Last(init).ts == x.ts {
        JoinLastRun(rs, x);
      } else {
        OpenRun(rs, x);
      }
    }
  }

  /** A sample with the last sample's timestamp joins the last run. */
  lemma {:induction false} RunsJoin(init: seq<Sample>, x: Sample)
    requires init != [] && Last(init).ts == x.ts
    ensures |Runs(init)| > 0
    ensures Runs(init + [x]) == Runs(init)[..|Runs(init)| - 1] + [Last(Runs(init)) + [x]]
  {
    var s := init + [x];
    assert s[..|s| - 1] == init && Last(s) == x;
  }

  /** A sample with another timestamp than the last sample's opens a run of its own. */
  lemma {:induction false} RunsOpen(init: seq<Sample>, x: Sample)
    requires init != [] && Last(init).ts != x.ts
    ensures Runs(init + [x]) == Runs(init) + [[x]]
  {
    var s := init + [x];
    assert s[..|s| - 1] == init && Last(s) == x;
  }

  /** The number of places where a sample's timestamp differs from the one before it. */
  function Changes(s: seq<Sample>): (n: nat)
    decreases |s|
  {
    if |s| < 2 then 0
    else Changes(s[..|s| - 1]) + (if s[|s| - 2].ts != Last(s).ts then 1 else 0)
  }

  /** A new run starts exactly where the timestamp changes from the previous sample's:
    * a non-empty stream has one run more than it has such changes. */
  lemma {:induction false} RunsCount(s: seq<Sample>)
    ensures |Runs(s)| == if s == [] then 0 else Changes(s) + 1
    decreases |s|
  {
    if s != [] {
      var init := s[..|s| - 1];
      RunsCount(init);
      if init != [] {
        assert Last(init) == s[|s| - 2];
      }
    }
  }

  function Concat(rs: seq<seq<Sample>>): (s: seq<Sample>) {
    if rs == [] then [] else Concat(rs[..|rs| - 1]) + Last(rs)
  }

  lemma ConcatJoin(rs: seq<seq<Sample>>, x: Sample)
    requires |rs| > 0
    ensures Concat(rs[..|rs| - 1] + [Last(rs) + [x]]) == Concat(rs) + [x]
  {
    var init := rs[..|rs| - 1];
    var rs' := init + [Last(rs) + [x]];
    assert rs'[..|rs'| - 1] == init && Last(rs') == Last(rs) + [x];
    AppendAssoc(Concat(init), Last(rs), [x]);
  }

  lemma ConcatOpen(rs: seq<seq<Sample>>, x: Sample)
    ensures Concat(rs + [[x]]) == Concat(rs) + [x]
  {
    assert (rs + [[x]])[..|rs|] == rs;
  }

  /** The runs partition the stream: laid end to end they give it back. */
  lemma {:induction false} RunsConcat(s: seq<Sample>)
    ensures Concat(Runs(s)) == s
    decreases |s|
  {
    if s != [] {
      var init := s[..|s| - 1];
      var x := Last(s);
      RunsConcat(init);
      assert s == init + [x];
      if init != [] && Last(init).ts == x.ts {
        ConcatJoin(Runs(init), x);
      } else {
        ConcatOpen(Runs(init), x);
      }
    }
  }

  /** The record after each sample of `run` was stored into it in order (`values[-1][name] = value`). */
  function Fill(r: Record, run: seq<Sample>): (filled: Record)
    decreases |run|
  {
    if run == [] then r else Store(Fill(r, run[..|run| - 1]), Last(run).name, Text(Last(run).value))
  }

  /** Storing one more sample after a run. */
  lemma {:induction false} FillSnoc(r: Record, run: seq<Sample>, x: Sample)
    ensures Fill(r, run + [x]) == Store(Fill(r, run), x.name, Text(x.value))
  {
    assert (run + [x])[..|run|] == run;
  }

  predicate Mentions(run: seq<Sample>, n: string) {
    exists j :: 0 <= j < |run| && run[j].name == n
  }

  /** Sample `j` is the last one of `run` with its name. */
  predicate LastOfName(run: seq<Sample>, j: int)
    requires 0 <= j < |run|
  {
    forall j' :: j < j' < |run| ==> run[j'].name != run[j].name
  }

  /** Storing a run keeps the dict well formed and does not reorder the keys it had. */
  lemma {:induction false} FillValid(r: Record, run: seq<Sample>)
    requires Valid(r)
    ensures Valid(Fill(r, run))
    ensures |r.keys| <= |Fill(r, run).keys| && Fill(r, run).keys[..|r.keys|] == r.keys
    decreases |run|
  {
    if run != [] {
      var f := Fill(r, run[..|run| - 1]);
      FillValid(r, run[..|run| - 1]);
      StoreSpec(f, Last(run).name, Text(Last(run).value));
      assert Fill(r, run).keys[..|r.keys|] == Fill(r, run).keys[..|f.keys|][..|r.keys|];
    }
  }

  /** Storing a run adds exactly the names the run mentions. */
  lemma {:induction false} FillDomain(r: Record, run: seq<Sample>, n: string)
    ensures n in Fill(r, run).fields <==> n in r.fields || Mentions(run, n)
    decreases |run|
  {
    if run != [] {
      var init := run[..|run| - 1];
      FillDomain(r, init, n);
      if Mentions(run, n) && n != Last(run).name {
        var j :| 0 <= j < |run| && run[j].name == n;
        assert init[j] == run[j];
      }
      if Mentions(init, n) {
        var j :| 0 <= j < |init| && init[j].name == n;
        assert run[j] == init[j];
      }
    }
  }

  /** A name ends up with the reading of its last sample: later samples overwrite earlier ones. */
  lemma {:induction false} FillLast(r: Record, run: seq<Sample>, j: int)
    requires 0 <= j < |run| && LastOfName(run, j)
    ensures run[j].name in Fill(r, run).fields && Fill(r, run).fields[run[j].name] == Text(run[j].value)
    decreases |run|
  {
    var init := run[..|run| - 1];
    if j < |run| - 1 {
      assert init[j] == run[j];
      forall j' | j < j' < |init| ensures init[j'].name != init[j].name {
        assert init[j'] == run[j'];
      }
      FillLast(r, init, j);
      assert Last(run).name != run[j].name;
    }
  }

  /** A name the run does not mention keeps the value it had. */
  lemma {:induction false} FillUntouched(r: Record, run: seq<Sample>, n: string)
    requires n in r.fields && !Mentions(run, n)
    ensures n in Fill(r, run).fields && Fill(r, run).fields[n] == r.fields[n]
    decreases |run|
  {
    if run != [] {
      var init := run[..|run| - 1];
      forall j | 0 <= j < |init| ensures init[j].name != n {
        assert init[j] == run[j];
      }
      FillUntouched(r, init, n);
      assert run[|run| - 1].name != n;
    }
  }

  /** `t_diff` of group `k`: its timestamp for the first group, otherwise the distance to
    * the previous group's timestamp (`ts - last_ts`), whether or not that group was kept. */
  function TDiff(rs: seq<seq<Sample>>, k: int): (d: real)
    requires NonEmptyRuns(rs) && 0 <= k < |rs|
  {
    if k == 0 then rs[0][0].ts else rs[k][0].ts - rs[k - 1][0].ts
  }

  /** The record run `k` becomes: opened with its timestamp and `t_diff`, then filled. */
  function GroupRecord(rs: seq<seq<Sample>>, k: int, ctx: Option<Context>): (rec: Record)
    requires NonEmptyRuns(rs) && 0 <= k < |rs|
  {
    Fill(Opened(rs[k][0].ts, TDiff(rs, k), ctx), rs[k])
  }

  /** One more sample in run `k` is stored into that run's record. */
  lemma {:induction false} JoinedGroupRecord(rs: seq<seq<Sample>>, rs': seq<seq<Sample>>, k: int, x: Sample, ctx: Option<Context>)
    requires NonEmptyRuns(rs) && NonEmptyRuns(rs') && 0 <= k < |rs| && k < |rs'|
    requires rs'[k] == rs[k] + [x] && (k > 0 ==> rs'[k - 1] == rs[k - 1])
    ensures GroupRecord(rs', k, ctx) == Store(GroupRecord(rs, k, ctx), x.name, Text(x.value))
  {
    assert rs'[k][0] == rs[k][0];
    assert TDiff(rs', k) == TDiff(rs, k);
    FillSnoc(Opened(rs[k][0].ts, TDiff(rs, k), ctx), rs[k], x);
  }

  /** The record of a later group of one sample. */
  lemma {:induction false} SingleGroupRecord(rs: seq<seq<Sample>>, k: int, x: Sample, t: real, ctx: Option<Context>)
    requires NonEmptyRuns(rs) && 0 < k < |rs| && rs[k] == [x] && rs[k - 1][0].ts == t
    ensures GroupRecord(rs, k, ctx) == Store(Opened(x.ts, x.ts - t, ctx), x.name, Text(x.value))
  {
    assert rs[k][0] == x && Last(rs[k]) == x && rs[k][..0] == [];
    var o := Opened(x.ts, x.ts - t, ctx);
    assert Fill(o, rs[k]) == Store(Fill(o, []), x.name, Text(x.value));
  }

  /** A group's record depends only on its run and the run before it. */
  lemma GroupRecordFrame(rs: seq<seq<Sample>>, rs': seq<seq<Sample>>, k: int, ctx: Option<Context>)
    requires NonEmptyRuns(rs) && NonEmptyRuns(rs') && 0 <= k < |rs| && k < |rs'|
    requires rs[k] == rs'[k] && (k > 0 ==> rs[k - 1] == rs'[k - 1])
    ensures GroupRecord(rs, k, ctx) == GroupRecord(rs', k, ctx)
  {
    assert TDiff(rs, k) == TDiff(rs', k);
  }

  /** What a group's record holds: the opening fields (`ts`, `t_diff` and the context)
    * in front of the key order, each with its opening value unless a counter of the run
    * carries that name; each counter of the run with its last reading; and nothing beyond
    * the opening fields and the run's names. */
  lemma GroupRecordSpec(rs: seq<seq<Sample>>, k: int, ctx: Option<Context>)
    requires NonEmptyRuns(rs) && 0 <= k < |rs|
    ensures var o := Opened(rs[k][0].ts, TDiff(rs, k), ctx);
      var r := GroupRecord(rs, k, ctx);
      Valid(r) && |o.keys| <= |r.keys| && r.keys[..|o.keys|] == o.keys
      && (forall n :: n in o.fields && !Mentions(rs[k], n) ==> n in r.fields && r.fields[n] == o.fields[n])
    ensures forall j :: 0 <= j < |rs[k]| && LastOfName(rs[k], j) ==>
      rs[k][j].name in GroupRecord(rs, k, ctx).fields && GroupRecord(rs, k, ctx).fields[rs[k][j].name] == Text(rs[k][j].value)
    ensures forall n :: n in GroupRecord(rs, k, ctx).fields <==> n in Opened(rs[k][0].ts, TDiff(rs, k), ctx).fields || Mentions(rs[k], n)
  {
    var o := Opened(rs[k][0].ts, TDiff(rs, k), ctx);
    OpenedValid(rs[k][0].ts, TDiff(rs, k), ctx);
    FillValid(o, rs[k]);
    forall n | n in o.fields && !Mentions(rs[k], n)
      ensures n in GroupRecord(rs, k, ctx).fields && GroupRecord(rs, k, ctx).fields[n] == o.fields[n]
    {
      FillUntouched(o, rs[k], n);
    }
    forall j | 0 <= j < |rs[k]| && LastOfName(rs[k], j)
      ensures rs[k][j].name in GroupRecord(rs, k, ctx).fields && GroupRecord(rs, k, ctx).fields[rs[k][j].name] == Text(rs[k][j].value)
    {
      FillLast(o, rs[k], j);
    }
    forall n ensures n in GroupRecord(rs, k, ctx).fields <==> n in o.fields || Mentions(rs[k], n) {
      FillDomain(o, rs[k], n);
    }
  }

  /** In particular the record carries its run's timestamp and `t_diff` when no counter of
    * the run is itself named `ts` or `t_diff`. */
  lemma GroupRecordTimes(rs: seq<seq<Sample>>, k: int, ctx: Option<Context>)
    requires NonEmptyRuns(rs) && 0 <= k < |rs|
    requires !Mentions(rs[k], "ts") && !Mentions(rs[k], "t_diff")
    ensures var r := GroupRecord(rs, k, ctx);
      "ts" in r.fields && r.fields["ts"] == Num(rs[k][0].ts) && "t_diff" in r.fields && r.fields["t_diff"] == Num(TDiff(rs, k))
  {
    GroupRecordSpec(rs, k, ctx);
    OpenedFields(rs[k][0].ts, TDiff(rs, k), ctx);
  }
}
