/** Small definitions shared by the dashboard, backend and tooling models. */
module Common {

  datatype Option<T> = None | Some(value: T)

  /** The last `n` elements of `s`, or all of `s` when it is shorter.
      This is JavaScript's `s.slice(-n)` for a positive `n`, and what a
      queue of capacity `n` that evicts its oldest element keeps. */
  function LastN<T>(s: seq<T>, n: nat): (r: seq<T>)
    ensures |r| <= n && |r| <= |s|
    ensures |r| == n || r == s
    ensures forall i :: 0 <= i < |r| ==> r[i] == s[|s| - |r| + i]
  {
    if |s| <= n then s else s[|s| - n..]
  }

  /** Appending one element to a sequence already within capacity and
      keeping the last `n` either just appends (room left) or drops exactly
      the single oldest element (full); the new element is always last. */
  lemma LastNAppend<T>(s: seq<T>, v: T, n: nat)
    requires 0 < n && |s| <= n
    ensures LastN(s + [v], n) == if |s| < n then s + [v] else s[1..] + [v]
    ensures LastN(s + [v], n)[|LastN(s + [v], n)| - 1] == v
  {
    if |s| == n {
      assert (s + [v])[|s + [v]| - n..] == s[1..] + [v];
    }
  }

  /** Keeping the last `n` after each append is the same as keeping the
      last `n` of everything appended: a capped buffer loses nothing it
      should have kept. */
  lemma LastNAppendLastN<T>(s: seq<T>, v: T, n: nat)
    ensures LastN(LastN(s, n) + [v], n) == LastN(s + [v], n)
  {
    if n < |s| {
      var kept := s[|s| - n..];
      if n == 0 {
        assert LastN(kept + [v], n) == [] == LastN(s + [v], n);
      } else {
        assert (kept + [v])[1..] == kept[1..] + [v];
        assert kept[1..] == s[|s| + 1 - n..];
        assert (s + [v])[|s| + 1 - n..] == s[|s| + 1 - n..] + [v];
      }
    }
  }

  /** Python's `sep.join(parts)` and JavaScript's `parts.join(sep)`. */
  function Join(parts: seq<string>, sep: string): string
  {
    if |parts| == 0 then ""
    else if |parts| == 1 then parts[0]
    else parts[0] + sep + Join(parts[1..], sep)
  }

  /** A join of at least one part starts with the first part and ends with
      the last. */
  lemma {:induction false} JoinEnds(parts: seq<string>, sep: string)
    requires |parts| > 0
    ensures |Join(parts, sep)| >= |parts[0]| && Join(parts, sep)[..|parts[0]|] == parts[0]
    ensures |Join(parts, sep)| >= |parts[|parts| - 1]| &&
      Join(parts, sep)[|Join(parts, sep)| - |parts[|parts| - 1]|..] == parts[|parts| - 1]
  {
    if |parts| > 1 {
      JoinEnds(parts[1..], sep);
      var rest := Join(parts[1..], sep);
      var last := parts[|parts| - 1];
      assert parts[1..][|parts[1..]| - 1] == last;
      assert (parts[0] + sep + rest)[|parts[0] + sep + rest| - |last|..] == rest[|rest| - |last|..];
    }
  }

  /** `s.find(sep, from)` for a non-empty `sep`: the first index at or after
      `from` where `sep` occurs, or -1. */
  function Find(s: string, sep: string, from: nat): (r: int)
    requires |sep| > 0
    ensures r == -1 || (from <= r && OccursAt(s, sep, r))
    ensures forall j :: from <= j && (r == -1 || j < r) ==> !OccursAt(s, sep, j)
    decreases |s| - from
  {
    if from + |sep| > |s| then -1
    else if s[from..from + |sep|] == sep then from
    else Find(s, sep, from + 1)
  }

  predicate OccursAt(s: string, sep: string, j: int)
  {
    0 <= j && j + |sep| <= |s| && s[j..j + |sep|] == sep
  }

  /** Python's `s.split(sep)` for a non-empty `sep`: the pieces between
      successive non-overlapping occurrences, scanning left to right. */
  function Split(s: string, sep: string): (r: seq<string>)
    requires |sep| > 0
    ensures |r| > 0
    decreases |s|
  {
    var i := Find(s, sep, 0);
    if i == -1 then [s] else [s[..i]] + Split(s[i + |sep|..], sep)
  }

  /** Splitting a joined text on its separator gives the parts back, as long
      as no part contains the separator's first character. */
  lemma {:induction false} SplitJoin(parts: seq<string>, sep: string)
    requires |parts| > 0 && |sep| > 0
    requires forall k, j :: 0 <= k < |parts| && 0 <= j < |parts[k]| ==> parts[k][j] != sep[0]
    ensures Split(Join(parts, sep), sep) == parts
    decreases |parts|
  {
    var p := parts[0];
    assert forall j :: 0 <= j < |p| ==> p[j] != sep[0];
    if |parts| == 1 {
      FindInPart(p, sep);
    } else {
      var rest := Join(parts[1..], sep);
      var s := p + sep + rest;
      assert Join(parts, sep) == s;
      FindAfterPart(p, sep, rest);
      assert s[..|p|] == p && s[|p| + |sep|..] == rest;
      SplitJoin(parts[1..], sep);
      assert Split(s, sep) == [p] + Split(rest, sep);
      assert [p] + parts[1..] == parts;
    }
  }

  /** A text free of the separator's first character holds no occurrence. */
  lemma FindInPart(p: string, sep: string)
    requires |sep| > 0
    requires forall j :: 0 <= j < |p| ==> p[j] != sep[0]
    ensures Find(p, sep, 0) == -1
  {
    forall j | 0 <= j < |p|
      ensures !OccursAt(p, sep, j)
    {
      if j + |sep| <= |p| {
        assert p[j..j + |sep|][0] == p[j];
      }
    }
  }

  /** In `p + sep + rest`, with `p` free of the separator's first character,
      the first occurrence of the separator is the one right after `p`. */
  lemma FindAfterPart(p: string, sep: string, rest: string)
    requires |sep| > 0
    requires forall j :: 0 <= j < |p| ==> p[j] != sep[0]
    ensures Find(p + sep + rest, sep, 0) == |p|
  {
    var s := p + sep + rest;
    assert s[|p|..|p| + |sep|] == sep;
    assert OccursAt(s, sep, |p|);
    forall j | 0 <= j < |p|
      ensures !OccursAt(s, sep, j)
    {
      assert s[j] == p[j];
      if j + |sep| <= |s| {
        assert s[j..j + |sep|][0] == s[j];
      }
    }
  }

  /** When every part has the same length `len`, the joined text is
      `|parts| * stride - |sep|` long, where `stride` is `len + |sep|`. */
  lemma {:induction false} JoinUniformLength(parts: seq<string>, sep: string, len: nat, stride: nat)
    requires |parts| > 0 && stride == len + |sep|
    requires forall j :: 0 <= j < |parts| ==> |parts[j]| == len
    ensures |Join(parts, sep)| == |parts| * stride - |sep|
  {
    if |parts| > 1 {
      JoinUniformLength(parts[1..], sep, len, stride);
      MulSucc(|parts| - 1, stride);
    }
  }

  /** When every part has the same length `len`, the `i`-th part of the
      joined text starts at `i * stride`, where `stride` is `len + |sep|`. */
  lemma {:induction false} JoinUniformAt(parts: seq<string>, sep: string, len: nat, stride: nat, i: nat)
    requires i < |parts| && stride == len + |sep|
    requires forall j :: 0 <= j < |parts| ==> |parts[j]| == len
    ensures i * stride + len <= |Join(parts, sep)|
    ensures Join(parts, sep)[i * stride..i * stride + len] == parts[i]
  {
    if i == 0 {
      if |parts| > 1 {
        assert Join(parts, sep) == parts[0] + (sep + Join(parts[1..], sep));
      }
    } else {
      var tail := Join(parts[1..], sep);
      assert Join(parts, sep) == parts[0] + sep + tail;
      MulSucc(i - 1, stride);
      var start' := (i - 1) * stride;
      assert i * stride == start' + stride;
      JoinUniformAt(parts[1..], sep, len, stride, i - 1);
      assert (parts[0] + sep + tail)[i * stride..i * stride + len] == tail[start'..start' + len];
    }
  }

  /** Two levels of uniform joins: part `x` of row `y`, where row `y` is
      itself the join of `cells`, starts at `y * rowStride + x * cellStride`. */
  lemma JoinNestedAt(rows: seq<string>, rowSep: string, rowLen: nat, rowStride: nat, y: nat,
                     cells: seq<string>, cellSep: string, cellLen: nat, cellStride: nat, x: nat,
                     rowStart: nat, off: nat)
    requires y < |rows| && rowStride == rowLen + |rowSep|
    requires forall j :: 0 <= j < |rows| ==> |rows[j]| == rowLen
    requires x < |cells| && cellStride == cellLen + |cellSep|
    requires forall j :: 0 <= j < |cells| ==> |cells[j]| == cellLen
    requires rows[y] == Join(cells, cellSep)
    requires rowStart == y * rowStride && off == x * cellStride
    ensures rowStart + off + cellLen <= |Join(rows, rowSep)|
    ensures Join(rows, rowSep)[rowStart + off..rowStart + off + cellLen] == cells[x]
  {
    var table := Join(rows, rowSep);
    JoinUniformAt(rows, rowSep, rowLen, rowStride, y);
    JoinUniformAt(cells, cellSep, cellLen, cellStride, x);
    assert off + cellLen <= rowLen;
    SliceOfSlice(table, rowStart, rowLen, off, cellLen);
  }

  lemma SliceOfSlice<T>(s: seq<T>, a: nat, n: nat, c: nat, m: nat)
    requires a + n <= |s| && c + m <= n
    ensures s[a..a + n][c..c + m] == s[a + c..a + c + m]
  {
    var l := s[a..a + n];
    var r := l[c..c + m];
    forall i | 0 <= i < m
      ensures r[i] == s[a + c + i]
    {
      assert r[i] == l[c + i];
    }
  }

  /** A slice of the middle part of `pre + mid + post`, located in the whole. */
  lemma SliceOfMiddle<T>(pre: seq<T>, mid: seq<T>, post: seq<T>, off: nat, n: nat)
    requires off + n <= |mid|
    ensures (pre + mid + post)[|pre| + off..|pre| + off + n] == mid[off..off + n]
  {
    var whole := pre + mid + post;
    var l := whole[|pre| + off..|pre| + off + n];
    var r := mid[off..off + n];
    forall i | 0 <= i < n
      ensures l[i] == r[i]
    {
      assert whole[|pre| + off + i] == mid[off + i];
    }
  }

  lemma MulSucc(a: nat, b: nat)
    ensures (a + 1) * b == a * b + b
  {
  }

  /** The decimal digits of a natural number, as Python's `str(n)` and
      JavaScript's `String(n)` print it. */
  function Decimal(n: nat): (r: string)
    ensures |r| > 0
    ensures forall i :: 0 <= i < |r| ==> '0' <= r[i] <= '9'
    ensures |r| > 1 ==> r[0] != '0'
  {
    if n < 10 then [Digit(n)] else Decimal(n / 10) + [Digit(n % 10)]
  }

  function Digit(d: nat): (c: char)
    requires d < 10
    ensures '0' <= c <= '9'
    ensures c as int - '0' as int == d
  {
    "0123456789"[d]
  }

  /** The number a string of decimal digits denotes, read most significant
      digit first. */
  function DecimalValue(s: string): int
  {
    if |s| == 0 then 0
    else DecimalValue(s[..|s| - 1]) * 10 + (s[|s| - 1] as int - '0' as int)
  }

  /** The digits `Decimal` prints spell the number back. */
  lemma {:induction false} DecimalRoundTrip(n: nat)
    ensures DecimalValue(Decimal(n)) == n
  {
    var s := Decimal(n);
    if n < 10 {
      assert s[..0] == [];
    } else {
      assert s[..|s| - 1] == Decimal(n / 10);
      DecimalRoundTrip(n / 10);
    }
  }
}
