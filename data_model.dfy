/** The values the log mergers pass around: merged records (Python dicts), parsed
  * counter and energy samples, diagnostics, and the exceptions that abort a run. */
module DataModel {
  import opened Wrappers

  /** A field of a merged record: a Python float (timestamps, energy readings) or a
    * string (counter readings as written in the log, the context arguments). */
  datatype Value = Num(x: real) | Text(s: string)

  /** A Python dict: `keys` is its insertion order, `fields` the mapping itself. */
  datatype Record = Record(keys: seq<string>, fields: map<string, Value>)

  /** Every key is listed once, and the listed keys are exactly the mapped ones. */
  ghost predicate Valid(r: Record) {
    (forall i, j :: 0 <= i < j < |r.keys| ==> r.keys[i] != r.keys[j])
    && (forall k :: k in r.fields <==> k in r.keys)
  }

  /** `d[k] = v`: an existing key keeps its place in the order, a new key goes last. */
  function Store(r: Record, k: string, v: Value): (stored: Record) {
    Record(if k in r.fields then r.keys else r.keys + [k], r.fields[k := v])
  }

  /** Assignment keeps a dict well formed, maps `k` to `v`, leaves every other key
    * alone and never reorders the keys already present. */
  lemma StoreSpec(r: Record, k: string, v: Value)
    requires Valid(r)
    ensures Valid(Store(r, k, v))
    ensures Store(r, k, v).fields[k] == v
    ensures forall k' :: k' != k ==> (k' in Store(r, k, v).fields <==> k' in r.fields)
    ensures forall k' :: k' != k && k' in r.fields ==> Store(r, k, v).fields[k'] == r.fields[k']
    ensures Store(r, k, v).keys[..|r.keys|] == r.keys
    ensures |Store(r, k, v).keys| == |r.keys| + (if k in r.fields then 0 else 1)
  {
  }

  /** The record carries a numeric "ts" field, as every record the ingestion creates. */
  predicate Timed(r: Record) {
    "ts" in r.fields && r.fields["ts"].Num?
  }

  function TsOf(r: Record): (ts: real)
    requires Timed(r)
  {
    r.fields["ts"].x
  }

  /** The benchmark, hyper-threading mode, cpu count and frequency given on the command line. */
  datatype Context = Context(bench: string, ht: string, cpus: string, freq: string)

  /** The dict that opens a new timestamp group: `ts` and `t_diff`, followed by the
    * context fields when the caller supplies them. */
  function Opened(ts: real, tdiff: real, ctx: Option<Context>): (r: Record)
    ensures Timed(r) && TsOf(r) == ts
  {
    match ctx
    case None =>
      Record(["ts", "t_diff"], map["ts" := Num(ts), "t_diff" := Num(tdiff)])
    case Some(c) =>
      Record(["ts", "t_diff", "bench", "ht", "cpus", "freq"],
             map["ts" := Num(ts), "t_diff" := Num(tdiff), "bench" := Text(c.bench),
                 "ht" := Text(c.ht), "cpus" := Text(c.cpus), "freq" := Text(c.freq)])
  }

  /** The names of the opening fields, in order. */
  const OPENING_KEYS: seq<string> := ["ts", "t_diff", "bench", "ht", "cpus", "freq"]

  /** The opening names are pairwise different. */
  lemma OpeningKeysDistinct()
    ensures forall i, j :: 0 <= i < j < |OPENING_KEYS| ==> OPENING_KEYS[i] != OPENING_KEYS[j]
  {
    assert |"ts"| == 2 && |"t_diff"| == 6 && |"bench"| == 5 && |"ht"| == 2 && |"cpus"| == 4 && |"freq"| == 4;
    assert "ts"[0] != "ht"[0] && "cpus"[0] != "freq"[0];
  }

  /** The opening dict is well formed and lists `ts` and `t_diff` first, then the four
    * context fields when there is a context. */
  lemma OpenedValid(ts: real, tdiff: real, ctx: Option<Context>)
    ensures Valid(Opened(ts, tdiff, ctx))
    ensures Opened(ts, tdiff, ctx).keys == if ctx.None? then OPENING_KEYS[..2] else OPENING_KEYS
  {
    OpeningKeysDistinct();
    assert OPENING_KEYS[..2] == ["ts", "t_diff"];
  }

  /** The opening dict maps `ts` and `t_diff` to the timestamp and the difference, and the
    * context fields to the context's strings. */
  lemma OpenedFields(ts: real, tdiff: real, ctx: Option<Context>)
    ensures var r := Opened(ts, tdiff, ctx);
      "t_diff" in r.fields && r.fields["ts"] == Num(ts) && r.fields["t_diff"] == Num(tdiff)
    ensures ctx.Some? ==>
      var r := Opened(ts, tdiff, ctx);
      r.fields["bench"] == Text(ctx.value.bench) && r.fields["ht"] == Text(ctx.value.ht)
      && r.fields["cpus"] == Text(ctx.value.cpus) && r.fields["freq"] == Text(ctx.value.freq)
  {
    OpeningKeysDistinct();
  }

  /** One counter line: timestamp, counter name and the reading as text. */
  datatype Sample = Sample(ts: real, name: string, value: string)

  /** One energy line: timestamp, counter name and the reading as a number. */
  datatype Reading = Reading(ts: real, name: string, value: real)

  /** The reading perf writes when a counter was not scheduled in an interval. */
  const NOT_COUNTED: string := "<not counted>"

  /** Diagnostics written to standard error; the message text is not modelled. */
  datatype Warning =
    | Uncounted(names: seq<string>, ts: real)       // a group dropped for uncounted values
    | NoMatch(ts: real)                             // an energy reading no record matches
    | SummedDuplicate(recordTs: real, ts: real)     // an energy reading added to an existing field

  /** The Python exceptions that end a run of the merger. */
  datatype Crash = IndexError | KeyError | TypeError | ValueError
}
