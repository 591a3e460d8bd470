/** Line filtering and field extraction for perf's `-x;` output, shared by both parsers. */
module LogLines {
  import opened Wrappers
  import opened Strings
  import opened DataModel

  const SEPARATOR: string := ";"

  /** Comment lines (starting with '#') and empty lines carry no sample. */
  predicate Skipped(l: string) {
    (|l| > 0 && l[0] == '#') || |l| == 0
  }

  /** A data line must have at least four fields, or the parser raises an IndexError. */
  predicate Parsable(l: string) {
    Skipped(l) || |Split(l, SEPARATOR)| >= 4
  }

  /** `f` is the line cut at every `;`: at least four fields, none holding a `;`. */
  ghost predicate FieldsOf(l: string, f: seq<string>) {
    |f| >= 4 && Join(f, SEPARATOR) == l && forall k :: 0 <= k < |f| ==> forall j :: !OccursAt(f[k], SEPARATOR, j)
  }

  /** A data line's `split(";")` is its layout into fields. */
  lemma LineFields(l: string)
    requires Parsable(l) && !Skipped(l)
    ensures FieldsOf(l, Split(l, SEPARATOR))
  {
  }

  /** A counter line: timestamp from field 0, reading from field 1 (both stripped), name from field 3. */
  function CounterSample(l: string, toReal: string -> real): (x: Sample)
    requires Parsable(l) && !Skipped(l)
    ensures exists f :: FieldsOf(l, f) && x == Sample(toReal(Strip(f[0])), f[3], Strip(f[1]))
  {
    var eles := Split(l, SEPARATOR);
    LineFields(l);
    Sample(toReal(Strip(eles[0])), eles[3], Strip(eles[1]))
  }

  /** An energy line: as a counter line, with the reading converted to a number. */
  function EnergyReading(l: string, toReal: string -> real): (e: Reading)
    requires Parsable(l) && !Skipped(l)
    ensures exists f :: FieldsOf(l, f) && e == Reading(toReal(Strip(f[0])), f[3], toReal(Strip(f[1])))
  {
    var eles := Split(l, SEPARATOR);
    LineFields(l);
    Reading(toReal(Strip(eles[0])), eles[3], toReal(Strip(eles[1])))
  }

  /** The samples of the data lines, in file order. */
  function CounterSamples(lines: seq<string>, toReal: string -> real): (s: seq<Sample>)
    requires forall l <- lines :: Parsable(l)
    ensures |s| <= |lines|
  {
    if lines == [] then []
    else
      var l := lines[|lines| - 1];
      CounterSamples(lines[..|lines| - 1], toReal) + (if Skipped(l) then [] else [CounterSample(l, toReal)])
  }

  /** The readings of the data lines, in file order. */
  function EnergyReadings(lines: seq<string>, toReal: string -> real): (s: seq<Reading>)
    requires forall l <- lines :: Parsable(l)
    ensures |s| <= |lines|
  {
    if lines == [] then []
    else
      var l := lines[|lines| - 1];
      EnergyReadings(lines[..|lines| - 1], toReal) + (if Skipped(l) then [] else [EnergyReading(l, toReal)])
  }

  /** Parsing works line by line: the samples of two pieces of a file are those of the
    * whole file, and exactly the data lines contribute one sample each. */
  lemma {:induction false} CounterSamplesAppend(a: seq<string>, b: seq<string>, toReal: string -> real)
    requires forall l <- a + b :: Parsable(l)
    ensures CounterSamples(a + b, toReal) == CounterSamples(a, toReal) + CounterSamples(b, toReal)
    decreases |b|
  {
    if b == [] {
      assert a + b == a;
    } else {
      var b', l := b[..|b| - 1], b[|b| - 1];
      var t := if Skipped(l) then [] else [CounterSample(l, toReal)];
      assert CounterSamples(a + b, toReal) == CounterSamples(a + b', toReal) + t by {
        assert (a + b)[..|a + b| - 1] == a + b';
        assert (a + b)[|a + b| - 1] == l;
      }
      assert CounterSamples(b, toReal) == CounterSamples(b', toReal) + t;
      CounterSamplesAppend(a, b', toReal);
      AppendAssoc(CounterSamples(a, toReal), CounterSamples(b', toReal), t);
    }
  }

  /** The same for energy lines. */
  lemma {:induction false} EnergyReadingsAppend(a: seq<string>, b: seq<string>, toReal: string -> real)
    requires forall l <- a + b :: Parsable(l)
    ensures EnergyReadings(a + b, toReal) == EnergyReadings(a, toReal) + EnergyReadings(b, toReal)
    decreases |b|
  {
    if b == [] {
      assert a + b == a;
    } else {
      var b', l := b[..|b| - 1], b[|b| - 1];
      var t := if Skipped(l) then [] else [EnergyReading(l, toReal)];
      assert EnergyReadings(a + b, toReal) == EnergyReadings(a + b', toReal) + t by {
        assert (a + b)[..|a + b| - 1] == a + b';
        assert (a + b)[|a + b| - 1] == l;
      }
      assert EnergyReadings(b, toReal) == EnergyReadings(b', toReal) + t;
      EnergyReadingsAppend(a, b', toReal);
      AppendAssoc(EnergyReadings(a, toReal), EnergyReadings(b', toReal), t);
    }
  }

  /** The readings of a file are those of its first `i` lines followed by those of the rest. */
  lemma {:induction false} EnergyReadingsAt(lines: seq<string>, i: int, toReal: string -> real)
    requires 0 <= i <= |lines| && forall l <- lines :: Parsable(l)
    ensures forall l <- lines[i..] :: Parsable(l)
    ensures EnergyReadings(lines, toReal) == EnergyReadings(lines[..i], toReal) + EnergyReadings(lines[i..], toReal)
  {
    assert lines[..i] + lines[i..] == lines;
    EnergyReadingsAppend(lines[..i], lines[i..], toReal);
  }

  /** One more line of the counter log adds its sample, unless it is skipped. */
  lemma CounterSamplesSnoc(lines: seq<string>, i: int, toReal: string -> real)
    requires 0 <= i < |lines| && forall l <- lines :: Parsable(l)
    ensures Skipped(lines[i]) ==> CounterSamples(lines[..i + 1], toReal) == CounterSamples(lines[..i], toReal)
    ensures !Skipped(lines[i]) ==> CounterSamples(lines[..i + 1], toReal) == CounterSamples(lines[..i], toReal) + [CounterSample(lines[i], toReal)]
  {
    assert lines[..i + 1][..i] == lines[..i];
  }

  /** One more line of the energy log adds its reading, unless it is skipped. */
  lemma EnergyReadingsSnoc(lines: seq<string>, i: int, toReal: string -> real)
    requires 0 <= i < |lines| && forall l <- lines :: Parsable(l)
    ensures Skipped(lines[i]) ==> EnergyReadings(lines[..i + 1], toReal) == EnergyReadings(lines[..i], toReal)
    ensures !Skipped(lines[i]) ==> EnergyReadings(lines[..i + 1], toReal) == EnergyReadings(lines[..i], toReal) + [EnergyReading(lines[i], toReal)]
  {
    assert lines[..i + 1][..i] == lines[..i];
  }
}
