/** The parts of Python's string API the log parsers rely on:
  * `str.isspace`, `str.strip`, `str.split(sep)` and `sep.join(parts)`. */
module Strings {
  import opened Wrappers

  /** Python's `str.isspace()` on a single character. */
  predicate IsSpace(c: char) {
    c == ' ' || '\t' <= c <= '\r' || '\U{1C}' <= c <= '\U{1F}'
    || c == '\U{85}' || c == '\U{A0}' || c == '\U{1680}'
    || '\U{2000}' <= c <= '\U{200A}' || c == '\U{2028}' || c == '\U{2029}'
    || c == '\U{202F}' || c == '\U{205F}' || c == '\U{3000}'
  }

  /** `s.lstrip()`: what is left after the leading whitespace. */
  function TrimStart(s: string): (r: string)
    ensures |r| <= |s| && r == s[|s| - |r|..]
    ensures r == [] || !IsSpace(r[0])
    ensures forall i :: 0 <= i < |s| - |r| ==> IsSpace(s[i])
  {
    if s != [] && IsSpace(s[0]) then TrimStart(s[1..]) else s
  }

  /** `s.rstrip()`: what is left after the trailing whitespace. */
  function TrimEnd(s: string): (r: string)
    ensures |r| <= |s| && r == s[..|r|]
    ensures r == [] || !IsSpace(r[|r| - 1])
    ensures forall i :: |r| <= i < |s| ==> IsSpace(s[i])
  {
    if s != [] && IsSpace(s[|s| - 1]) then TrimEnd(s[..|s| - 1]) else s
  }

  /** `s.strip()`: the slice of `s` left once its leading and trailing whitespace is cut
    * off, so neither end of the result is whitespace and a string without whitespace
    * is returned unchanged. */
  function Strip(s: string): (r: string)
    ensures |r| <= |s|
    ensures r == [] || (!IsSpace(r[0]) && !IsSpace(r[|r| - 1]))
    ensures exists a, b ::
      0 <= a <= b <= |s| && r == s[a..b]
      && (forall i :: 0 <= i < a ==> IsSpace(s[i])) && (forall i :: b <= i < |s| ==> IsSpace(s[i]))
    ensures (forall i :: 0 <= i < |s| ==> !IsSpace(s[i])) ==> r == s
  {
    var t := TrimStart(s);
    var r := TrimEnd(t);
    TrimmedSlice(s, t, r);
    r
  }

  /** Cutting whitespace off the front and then off the back leaves a slice. */
  lemma TrimmedSlice(s: string, t: string, r: string)
    requires |t| <= |s| && t == s[|s| - |t|..] && forall i :: 0 <= i < |s| - |t| ==> IsSpace(s[i])
    requires |r| <= |t| && r == t[..|r|] && forall i :: |r| <= i < |t| ==> IsSpace(t[i])
    ensures exists a, b ::
      0 <= a <= b <= |s| && r == s[a..b]
      && (forall i :: 0 <= i < a ==> IsSpace(s[i])) && (forall i :: b <= i < |s| ==> IsSpace(s[i]))
  {
    var a := |s| - |t|;
    var b := a + |r|;
    assert r == s[a..b];
    assert forall i :: b <= i < |s| ==> s[i] == t[i - a];
  }

  /** True when `sep` occurs in `s` starting at index `i`. */
  predicate OccursAt(s: string, sep: string, i: nat) {
    i + |sep| <= |s| && s[i..i + |sep|] == sep
  }

  /** The first index at or after `from` where `sep` occurs in `s`, as `s.find(sep, from)`. */
  function FindFrom(s: string, sep: string, from: nat): (r: Option<nat>)
    requires |sep| > 0
    ensures r.Some? ==> from <= r.value && OccursAt(s, sep, r.value)
    ensures r.Some? ==> forall i :: from <= i < r.value ==> !OccursAt(s, sep, i)
    ensures r.None? ==> forall i :: from <= i ==> !OccursAt(s, sep, i)
    decreases |s| - from
  {
    if from + |sep| > |s| then None
    else if s[from..from + |sep|] == sep then Some(from)
    else FindFrom(s, sep, from + 1)
  }

  /** `sep.join(parts)`. */
  function Join(parts: seq<string>, sep: string): (joined: string)
  {
    if |parts| == 0 then ""
    else if |parts| == 1 then parts[0]
    else parts[0] + sep + Join(parts[1..], sep)
  }

  /** A piece of `s` in front of the first occurrence of `sep` holds no occurrence of `sep`. */
  lemma PrefixBeforeFirst(s: string, sep: string, i: nat)
    requires |sep| > 0 && i <= |s|
    requires forall j :: 0 <= j < i ==> !OccursAt(s, sep, j)
    ensures forall j :: !OccursAt(s[..i], sep, j)
  {
    forall j: nat | OccursAt(s[..i], sep, j)
      ensures OccursAt(s, sep, j)
    {
      assert s[..i][j..j + |sep|] == s[j..j + |sep|];
    }
  }

  /** `s.split(sep)`: the pieces between the occurrences of `sep`, scanning left to right.
    * Joining them again gives back `s`, and no piece holds `sep`. */
  function Split(s: string, sep: string): (parts: seq<string>)
    requires |sep| > 0
    ensures |parts| >= 1
    ensures Join(parts, sep) == s
    ensures forall k :: 0 <= k < |parts| ==> forall j :: !OccursAt(parts[k], sep, j)
    decreases |s|
  {
    match FindFrom(s, sep, 0)
    case None => [s]
    case Some(i) =>
      var rest := Split(s[i + |sep|..], sep);
      PrefixBeforeFirst(s, sep, i);
      assert s == s[..i] + sep + s[i + |sep|..] by {
        assert s == s[..i] + s[i..i + |sep|] + s[i + |sep|..];
      }
      assert ([s[..i]] + rest)[1..] == rest;
      [s[..i]] + rest
  }

  /** Each part but the last ends at the first occurrence of `sep` from the part's start
    * on: no occurrence of `sep` in the joined string starts inside the part. */
  predicate Leftmost(parts: seq<string>, sep: string)
    decreases |parts|
  {
    |parts| <= 1
    || ((forall i :: 0 <= i < |parts[0]| ==> !OccursAt(Join(parts, sep), sep, i)) && Leftmost(parts[1..], sep))
  }

  /** `split` cuts at the leftmost occurrence each time, as Python's `str.split` does. */
  lemma {:induction false} SplitLeftmost(s: string, sep: string)
    requires |sep| > 0
    ensures Leftmost(Split(s, sep), sep)
    decreases |s|
  {
    match FindFrom(s, sep, 0)
    case None =>
    case Some(i) =>
      var rest := Split(s[i + |sep|..], sep);
      SplitLeftmost(s[i + |sep|..], sep);
      var parts := Split(s, sep);
      assert parts == [s[..i]] + rest;
      assert parts[1..] == rest;
  }

  /** The pieces of `s` are the only way to write `s` as a join of pieces that hold no
    * `sep` and are cut at the leftmost occurrence each time. */
  lemma {:induction false} SplitUnique(parts: seq<string>, sep: string)
    requires |sep| > 0 && |parts| >= 1 && Leftmost(parts, sep)
    requires forall k :: 0 <= k < |parts| ==> forall j :: !OccursAt(parts[k], sep, j)
    ensures Split(Join(parts, sep), sep) == parts
    decreases |parts|
  {
    var s := Join(parts, sep);
    if |parts| == 1 {
      assert FindFrom(s, sep, 0) == None;
    } else {
      var p := parts[0];
      var tail := Join(parts[1..], sep);
      assert s == p + sep + tail;
      assert s[|p|..|p| + |sep|] == sep;
      assert OccursAt(s, sep, |p|);
      assert FindFrom(s, sep, 0) == Some(|p|);
      assert s[..|p|] == p;
      assert s[|p| + |sep|..] == tail;
      SplitUnique(parts[1..], sep);
      assert parts == [p] + parts[1..];
    }
  }

  /** Occurrences are taken from the left and do not overlap: `"aaa".split("aa")` is
    * `["", "a"]`. */
  lemma SplitOverlapExample()
    ensures Split("aaa", "aa") == ["", "a"]
  {
    assert OccursAt("aaa", "aa", 0);
    assert FindFrom("aaa", "aa", 0) == Some(0);
    assert FindFrom("a", "aa", 0) == None;
  }

  /** A one-character separator occurs exactly where that character stands. */
  lemma OccursAtChar(s: string, c: char, i: nat)
    ensures OccursAt(s, [c], i) <==> i < |s| && s[i] == c
  {
    if i < |s| {
      assert s[i..i + 1] == [s[i]];
    }
  }

  /** Splitting what was joined with a one-character separator that no part contains
    * gives the parts back. */
  lemma {:induction false} SplitJoin(parts: seq<string>, c: char)
    requires |parts| >= 1
    requires forall k :: 0 <= k < |parts| ==> c !in parts[k]
    ensures Split(Join(parts, [c]), [c]) == parts
    decreases |parts|
  {
    var s := Join(parts, [c]);
    if |parts| == 1 {
      forall i: nat ensures !OccursAt(s, [c], i) {
        OccursAtChar(s, c, i);
      }
      assert FindFrom(s, [c], 0) == None;
    } else {
      var p := parts[0];
      var tail := Join(parts[1..], [c]);
      assert s == p + [c] + tail;
      forall i: nat | i < |p| ensures !OccursAt(s, [c], i) {
        OccursAtChar(s, c, i);
        assert s[i] == p[i];
      }
      OccursAtChar(s, c, |p|);
      assert FindFrom(s, [c], 0) == Some(|p|);
      assert s[..|p|] == p;
      assert s[|p| + 1..] == tail;
      SplitJoin(parts[1..], c);
      assert parts == [p] + parts[1..];
    }
  }

  /** `f.readline().rstrip('\n')` on a file holding `text`: the text before the first
    * line break, or all of it when there is none. */
  function FirstLine(text: string): (r: string)
    ensures |r| <= |text| && r == text[..|r|] && '\n' !in r
    ensures |r| < |text| ==> text[|r|] == '\n'
  {
    match FindFrom(text, "\n", 0)
    case None =>
      assert forall i: nat :: i < |text| ==> !OccursAt(text, "\n", i);
      forall i: nat | i < |text| ensures text[i] != '\n' {
        OccursAtChar(text, '\n', i);
      }
      text
    case Some(i) =>
      forall j: nat | j < i ensures text[j] != '\n' {
        OccursAtChar(text, '\n', j);
      }
      OccursAtChar(text, '\n', i);
      text[..i]
  }

  /** The first line of a text that starts with a line break-free line and a break. */
  lemma FirstLineOf(line: string, rest: string)
    requires '\n' !in line
    ensures FirstLine(line + "\n" + rest) == line
  {
    var text := line + "\n" + rest;
    var r := FirstLine(text);
    assert text[..|line|] == line && text[|line|] == '\n';
  }

  /** A character in neither the separator nor any part is not in their join. */
  lemma {:induction false} JoinAvoids(parts: seq<string>, sep: string, ch: char)
    requires ch !in sep && forall k :: 0 <= k < |parts| ==> ch !in parts[k]
    ensures ch !in Join(parts, sep)
    decreases |parts|
  {
    if |parts| > 1 {
      JoinAvoids(parts[1..], sep, ch);
      assert parts[0] in parts;
    }
  }
}
