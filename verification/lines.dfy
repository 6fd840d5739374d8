/**
  Output-line handling of `CommandLine` in bitten/build/api.py: the
  `splitlines(True)` cut of a byte buffer, `_extract_lines`, `_combine`,
  the per-line cleaning of the threaded and Windows paths, the line side
  of the `select` loop, and the Windows argument quoting. Processes,
  pipes, threads and clocks are not modelled: what a pipe delivers is an
  input sequence.
 */
module OutputLines {
  import opened Wrappers
  import opened PyStr

  // ---------------------------------------------------------------------
  // splitlines(True) on a byte string

  /** The line terminator characters of a Python 2 byte string. */
  predicate IsBreak(c: char) {
    c == '\n' || c == '\r'
  }

  predicate NoBreak(s: string) {
    forall i :: 0 <= i < |s| ==> !IsBreak(s[i])
  }

  /** `_endswith_linesep`: `s` ends in "\n", "\r\n" or "\r". */
  predicate EndsWithLineSep(s: string) {
    s != [] && IsBreak(s[|s| - 1])
  }

  predicate LastIs(s: string, c: char) {
    s != [] && s[|s| - 1] == c
  }

  /** A line without its terminator ("\r\n", "\n", "\r" or none). */
  function Body(l: string): string {
    if |l| >= 2 && l[|l| - 2] == '\r' && l[|l| - 1] == '\n' then l[..|l| - 2]
    else if EndsWithLineSep(l) then l[..|l| - 1]
    else l
  }

  /** One element of `splitlines(True)`: non-empty, with no terminator before its end. */
  predicate IsLine(l: string) {
    l != [] && NoBreak(Body(l))
  }

  /**
    `ls` is a cut of `s` into lines the way `splitlines(True)` cuts it:
    the pieces rebuild `s`, each is a line, all but the last are
    terminated, and a "\r" is never separated from a "\n" right after it.
   */
  predicate IsLineSplit(s: string, ls: seq<string>) {
    && Concat(ls) == s
    && (forall i :: 0 <= i < |ls| ==> IsLine(ls[i]))
    && (forall i :: 0 <= i < |ls| - 1 ==> EndsWithLineSep(ls[i]))
    && (forall i :: 0 <= i < |ls| - 1 ==> LastIs(ls[i], '\r') && ls[i + 1] != [] ==> ls[i + 1][0] != '\n')
  }

  /** Index of the first terminator character of `s`, or `|s|` when there is none. */
  function BreakIndex(s: string): (k: nat)
    ensures k <= |s|
    ensures NoBreak(s[..k])
    ensures k < |s| ==> IsBreak(s[k])
  {
    if s == [] || IsBreak(s[0]) then 0
    else
      var k := 1 + BreakIndex(s[1..]);
      assert s[..k] == [s[0]] + s[1..][..k - 1];
      k
  }

  lemma BreakIndexUnique(s: string, k: nat)
    requires k <= |s| && NoBreak(s[..k])
    requires k < |s| ==> IsBreak(s[k])
    ensures BreakIndex(s) == k
  {
    var b := BreakIndex(s);
    assert forall i :: 0 <= i < k ==> !IsBreak(s[i]) by {
      forall i | 0 <= i < k
        ensures !IsBreak(s[i])
      {
        assert s[..k][i] == s[i];
      }
    }
    assert forall i :: 0 <= i < b ==> !IsBreak(s[i]) by {
      forall i | 0 <= i < b
        ensures !IsBreak(s[i])
      {
        assert s[..b][i] == s[i];
      }
    }
  }

  /** Length of the first line of `s`, terminator included. */
  function FirstLineLength(s: string): (n: nat)
    requires s != []
    ensures 0 < n <= |s|
  {
    var k := BreakIndex(s);
    if k == |s| then |s|
    else if s[k] == '\r' && k + 1 < |s| && s[k + 1] == '\n' then k + 2
    else k + 1
  }

  /** `s.splitlines(True)` for a byte string. */
  function SplitLines(s: string): seq<string>
    decreases |s|
  {
    if s == [] then []
    else
      var n := FirstLineLength(s);
      [s[..n]] + SplitLines(s[n..])
  }

  lemma FirstLineFacts(s: string)
    requires s != []
    ensures IsLine(s[..FirstLineLength(s)])
    ensures FirstLineLength(s) < |s| ==> EndsWithLineSep(s[..FirstLineLength(s)])
    ensures FirstLineLength(s) < |s| && s[FirstLineLength(s) - 1] == '\r' ==> s[FirstLineLength(s)] != '\n'
  {
    var k := BreakIndex(s);
    var n := FirstLineLength(s);
    var l := s[..n];
    if k == |s| {
      assert l == s[..k];
      assert Body(l) == l;
    } else if n == k + 2 {
      assert Body(l) == s[..k];
    } else {
      assert n == k + 1;
      if k >= 1 {
        assert s[..k][k - 1] == s[k - 1];
      }
      assert Body(l) == s[..k];
    }
  }

  lemma ConcatHead(ls: seq<string>)
    requires ls != [] && ls[0] != []
    ensures Concat(ls) != [] && Concat(ls)[0] == ls[0][0]
  {
  }

  /** `SplitLines` cuts its input the way `IsLineSplit` describes. */
  lemma {:induction false} SplitLinesIsLineSplit(s: string)
    ensures IsLineSplit(s, SplitLines(s))
    decreases |s|
  {
    if s != [] {
      var n := FirstLineLength(s);
      var rest := SplitLines(s[n..]);
      var ls := SplitLines(s);
      assert ls == [s[..n]] + rest;
      SplitLinesIsLineSplit(s[n..]);
      FirstLineFacts(s);
      assert ls[1..] == rest;
      assert Concat(ls) == s[..n] + s[n..] == s;
      forall i | 0 <= i < |ls|
        ensures IsLine(ls[i])
      {
        if i > 0 { assert ls[i] == rest[i - 1]; }
      }
      forall i | 0 <= i < |ls| - 1
        ensures EndsWithLineSep(ls[i])
      {
        if i > 0 {
          assert ls[i] == rest[i - 1];
        } else {
          assert rest != [];
          assert n < |s|;
        }
      }
      forall i | 0 <= i < |ls| - 1 && LastIs(ls[i], '\r') && ls[i + 1] != []
        ensures ls[i + 1][0] != '\n'
      {
        if i > 0 {
          assert ls[i] == rest[i - 1] && ls[i + 1] == rest[i];
        } else {
          assert rest != [] && rest[0] != [];
          ConcatHead(rest);
          assert n < |s| && s[n - 1] == '\r';
          assert ls[1][0] == s[n..][0] == s[n];
        }
      }
    }
  }

  /** Conversely, any cut with the `IsLineSplit` properties is the one `splitlines(True)` makes. */
  lemma {:induction false} LineSplitUnique(s: string, ls: seq<string>)
    requires IsLineSplit(s, ls)
    ensures ls == SplitLines(s)
    decreases |ls|
  {
    if ls != [] {
      var l := ls[0];
      var rest := ls[1..];
      assert ls == [l] + rest;
      assert s == l + Concat(rest);
      FirstLineOfSplit(s, ls);
      var n := |l|;
      assert s[..n] == l;
      assert s[n..] == Concat(rest);
      assert IsLineSplit(s[n..], rest) by {
        forall i | 0 <= i < |rest|
          ensures IsLine(rest[i])
        {
          assert rest[i] == ls[i + 1];
        }
        forall i | 0 <= i < |rest| - 1
          ensures EndsWithLineSep(rest[i])
        {
          assert rest[i] == ls[i + 1];
        }
        forall i | 0 <= i < |rest| - 1 && LastIs(rest[i], '\r') && rest[i + 1] != []
          ensures rest[i + 1][0] != '\n'
        {
          assert rest[i] == ls[i + 1] && rest[i + 1] == ls[i + 2];
        }
      }
      LineSplitUnique(s[n..], rest);
    }
  }

  lemma FirstLineOfSplit(s: string, ls: seq<string>)
    requires IsLineSplit(s, ls) && ls != []
    ensures s != [] && FirstLineLength(s) == |ls[0]|
  {
    var l := ls[0];
    var rest := Concat(ls[1..]);
    assert s == l + rest;
    var b := Body(l);
    var m := |b|;
    assert l[..m] == b && s[..m] == b;
    if m == |l| {
      // an unterminated line: it must be the last one
      assert !EndsWithLineSep(l);
      assert |ls| == 1;
      assert ls == [l];
      assert s == l;
      BreakIndexUnique(s, m);
    } else {
      assert s[m] == l[m] && IsBreak(s[m]);
      BreakIndexUnique(s, m);
      if m + 2 == |l| {
        assert s[m] == '\r' && s[m + 1] == '\n';
      } else {
        assert m + 1 == |l|;
        if s[m] == '\r' && m + 1 < |s| {
          assert rest != [];
          assert |ls| > 1;
          assert LastIs(ls[0], '\r');
          assert ls[1] != [];
          ConcatHead(ls[1..]);
          assert s[m + 1] == rest[0] == ls[1][0];
        }
      }
    }
  }

  /** Splitting a line-free, non-empty fragment gives that fragment as the only line. */
  lemma SplitLinesOfFragment(b: string)
    requires b != [] && NoBreak(b)
    ensures SplitLines(b) == [b]
  {
    assert Body(b) == b;
    assert Concat([b]) == b;
    LineSplitUnique(b, [b]);
  }

  // ---------------------------------------------------------------------
  // _extract_lines

  /** Lines handed out by one extraction, and the chunk list left behind in `data`. */
  datatype Extraction = Extraction(lines: seq<string>, buffer: seq<string>)

  /** What `data[:] = [buf] * bool(buf)` can leave: nothing, or one non-empty fragment with no terminator. */
  predicate Pending(buffer: seq<string>) {
    buffer == [] || (|buffer| == 1 && buffer[0] != [] && NoBreak(buffer[0]))
  }

  /**
    The decision `_extract_lines` makes on the joined buffer `buf` and its
    lines: with several lines, all are handed out except an unterminated
    last one; with at most one, it is handed out only when terminated.
   */
  function Cut(buf: string, lines: seq<string>): Extraction {
    if |lines| > 1 then
      if EndsWithLineSep(lines[|lines| - 1]) then Extraction(lines, [])
      else Extraction(lines[..|lines| - 1], [lines[|lines| - 1]])
    else if EndsWithLineSep(buf) then Extraction([buf], [])
    else Extraction([], if buf == [] then [] else [buf])
  }

  /** `_extract_lines` before its closing `rstrip`. */
  function ExtractRaw(data: seq<string>): Extraction
  {
    var buf := Concat(data);
    Cut(buf, SplitLines(buf))
  }

  lemma CutFacts(buf: string, lines: seq<string>)
    requires IsLineSplit(buf, lines)
    ensures Cut(buf, lines).lines + Cut(buf, lines).buffer == lines
    ensures Pending(Cut(buf, lines).buffer)
    ensures var e := Cut(buf, lines);
      forall i :: 0 <= i < |e.lines| ==> IsLine(e.lines[i]) && EndsWithLineSep(e.lines[i])
  {
    var e := Cut(buf, lines);
    if |lines| > 1 {
      var last := lines[|lines| - 1];
      if !EndsWithLineSep(last) {
        assert lines == lines[..|lines| - 1] + [last];
        assert Body(last) == last;
      }
      assert forall i :: 0 <= i < |e.lines| ==> e.lines[i] == lines[i];
    } else if buf == [] {
      assert lines == [] by {
        if lines != [] { ConcatHead(lines); }
      }
    } else {
      assert lines != [];
      assert |lines| == 1;
      assert lines[1..] == [];
      assert Concat(lines) == lines[0] + Concat(lines[1..]);
      assert lines[0] + [] == lines[0];
      assert lines == [buf];
      assert Body(buf) == buf || EndsWithLineSep(buf);
    }
  }

  /**
    The extracted lines followed by the new buffer are exactly the lines of
    the joined chunks; the lines rebuild the input up to the buffer; every
    extracted line is terminated; the buffer is pending.
   */
  lemma ExtractRawFacts(data: seq<string>)
    ensures var e := ExtractRaw(data); e.lines + e.buffer == SplitLines(Concat(data))
    ensures var e := ExtractRaw(data); Concat(e.lines) + Concat(e.buffer) == Concat(data)
    ensures Pending(ExtractRaw(data).buffer)
    ensures var e := ExtractRaw(data);
      forall i :: 0 <= i < |e.lines| ==> IsLine(e.lines[i]) && EndsWithLineSep(e.lines[i])
  {
    var buf := Concat(data);
    var lines := SplitLines(buf);
    SplitLinesIsLineSplit(buf);
    CutFacts(buf, lines);
    var e := ExtractRaw(data);
    ConcatAppend(e.lines, e.buffer);
  }

  /** `l` is the raw line `raw` minus its trailing whitespace. */
  predicate StrippedFrom(l: string, raw: string) {
    && |l| <= |raw| && l == raw[..|l|]
    && (l == [] || !IsSpace(l[|l| - 1]))
    && (forall i :: |l| <= i < |raw| ==> IsSpace(raw[i]))
  }

  function MapRstrip(ls: seq<string>): (r: seq<string>)
    ensures |r| == |ls|
    ensures forall i :: 0 <= i < |ls| ==> r[i] == Rstrip(ls[i])
  {
    if ls == [] then [] else [Rstrip(ls[0])] + MapRstrip(ls[1..])
  }

  lemma MapRstripAppend(a: seq<string>, b: seq<string>)
    ensures MapRstrip(a + b) == MapRstrip(a) + MapRstrip(b)
  {
  }

  /**
    `_extract_lines(data)`: the complete lines, right-stripped, in order,
    with the unterminated tail left as the new buffer.
   */
  function ExtractLines(data: seq<string>): (e: Extraction)
    ensures Pending(e.buffer)
    ensures |e.lines| == |ExtractRaw(data).lines|
    ensures forall i :: 0 <= i < |e.lines| ==> StrippedFrom(e.lines[i], ExtractRaw(data).lines[i])
    ensures Concat(ExtractRaw(data).lines) + Concat(e.buffer) == Concat(data)
  {
    ExtractRawFacts(data);
    var raw := ExtractRaw(data);
    Extraction(MapRstrip(raw.lines), raw.buffer)
  }

  /** A terminated line loses at least its terminator to `rstrip`, and keeps no terminator character. */
  lemma StrippedLineLosesTerminator(raw: string, l: string)
    requires IsLine(raw) && EndsWithLineSep(raw)
    requires StrippedFrom(l, raw)
    ensures |l| < |raw|
    ensures NoBreak(l)
  {
    var b := Body(raw);
    assert |b| < |raw| && b == raw[..|b|];
    assert forall q :: |b| <= q < |raw| ==> IsBreak(raw[q]);
    assert l != [] ==> l[|l| - 1] == raw[|l| - 1];
    assert |l| <= |b|;
    assert forall j :: 0 <= j < |l| ==> l[j] == b[j];
  }

  /** A pending buffer yields no lines and stays as it is. */
  lemma PendingIsStable(buffer: seq<string>)
    requires Pending(buffer)
    ensures ExtractRaw(buffer) == Extraction([], buffer)
    ensures ExtractLines(buffer) == Extraction([], buffer)
  {
    if buffer != [] {
      var b := buffer[0];
      assert buffer[1..] == [];
      assert Concat(buffer) == b + Concat(buffer[1..]) == b;
      SplitLinesOfFragment(b);
      assert !EndsWithLineSep(b) by { assert !IsBreak(b[|b| - 1]); }
      assert ExtractRaw(buffer) == Extraction([], [b]);
      assert buffer == [b];
    } else {
      assert Concat(buffer) == [];
      assert SplitLines([]) == [];
    }
  }

  /** Extracting again from the leftover buffer returns no lines and leaves the buffer unchanged. */
  lemma ExtractAgainIsNoOp(data: seq<string>)
    ensures ExtractLines(ExtractLines(data).buffer) == Extraction([], ExtractLines(data).buffer)
  {
    PendingIsStable(ExtractLines(data).buffer);
  }

  // ---------------------------------------------------------------------
  // _combine

  /** The largest length among `xs`, 0 when there are none. */
  function MaxLength<T>(xs: seq<seq<T>>): (m: nat)
    ensures forall j :: 0 <= j < |xs| ==> |xs[j]| <= m
    ensures xs == [] ==> m == 0
    ensures xs != [] ==> exists j :: 0 <= j < |xs| && |xs[j]| == m
  {
    if xs == [] then 0
    else
      var m := MaxLength(xs[1..]);
      assert forall j :: 1 <= j < |xs| ==> xs[j] == xs[1..][j - 1];
      if |xs[0]| >= m then |xs[0]| else m
  }

  /** Slot `j` of round `i`: the `i`-th item of input `j`, or None once it is exhausted. */
  function At<T>(x: seq<T>, i: nat): Option<T> {
    if i < |x| then Some(x[i]) else None
  }

  /** Reference definition of `_combine`: `zip_longest` with None padding. */
  function ZipLongest<T>(inputs: seq<seq<T>>): seq<seq<Option<T>>> {
    seq(MaxLength(inputs), i requires 0 <= i => seq(|inputs|, j requires 0 <= j < |inputs| => At(inputs[j], i)))
  }

  /**
    `_combine(*iterables)` as the loop in the source runs it: each round
    pulls one item from every live input, retires inputs that are
    exhausted, and stops (without yielding) once none is live.
   */
  method Combine<T>(inputs: seq<seq<T>>) returns (out: seq<seq<Option<T>>>)
    ensures |out| == MaxLength(inputs)
    ensures forall i :: 0 <= i < |out| ==> |out[i]| == |inputs|
    ensures forall i, j :: 0 <= i < |out| && 0 <= j < |inputs| ==> out[i][j] == At(inputs[j], i)
    ensures out == ZipLongest(inputs)
  {
    var live := seq(|inputs|, _ => true);
    var k := 0;
    out := [];
    while true
      invariant |live| == |inputs|
      invariant forall j :: 0 <= j < |inputs| ==> (live[j] <==> k <= |inputs[j]|)
      invariant k <= MaxLength(inputs)
      invariant |out| == k
      invariant forall i :: 0 <= i < k ==> |out[i]| == |inputs|
      invariant forall i, j :: 0 <= i < k && 0 <= j < |inputs| ==> out[i][j] == At(inputs[j], i)
      decreases MaxLength(inputs) - k
    {
      var toYield: seq<Option<T>> := seq(|inputs|, _ => None);
      var idx := 0;
      while idx < |inputs|
        invariant 0 <= idx <= |inputs|
        invariant |live| == |inputs| && |toYield| == |inputs|
        invariant forall j :: 0 <= j < idx ==> (live[j] <==> k < |inputs[j]|)
        invariant forall j :: idx <= j < |inputs| ==> (live[j] <==> k <= |inputs[j]|)
        invariant forall j :: 0 <= j < idx ==> toYield[j] == At(inputs[j], k)
        invariant forall j :: idx <= j < |inputs| ==> toYield[j] == None
      {
        if live[idx] {
          if k < |inputs[idx]| {
            toYield := toYield[idx := Some(inputs[idx][k])];
          } else {
            live := live[idx := false];
          }
        }
        idx := idx + 1;
      }
      if forall j :: 0 <= j < |live| ==> !live[j] {
        if inputs != [] {
          var j :| 0 <= j < |inputs| && |inputs[j]| == MaxLength(inputs);
          assert !live[j];
        }
        break;
      }
      out := out + [toYield];
      k := k + 1;
    }
    var z := ZipLongest(inputs);
    assert |z| == |out|;
    forall i | 0 <= i < |out|
      ensures out[i] == z[i]
    {
      assert |out[i]| == |z[i]|;
      assert forall j :: 0 <= j < |inputs| ==> out[i][j] == z[i][j];
    }
  }

  /** `_combine` of two inputs, as pairs. */
  function Zip2<T>(a: seq<T>, b: seq<T>): (z: seq<(Option<T>, Option<T>)>)
    ensures |z| == if |a| >= |b| then |a| else |b|
    ensures forall i :: 0 <= i < |z| ==> z[i] == (At(a, i), At(b, i))
  {
    seq(if |a| >= |b| then |a| else |b|, i requires 0 <= i => (At(a, i), At(b, i)))
  }

  /** `Zip2` is `ZipLongest` of the two inputs, read as pairs. */
  lemma Zip2IsZipLongest<T>(a: seq<T>, b: seq<T>)
    ensures |Zip2(a, b)| == |ZipLongest([a, b])|
    ensures forall i :: 0 <= i < |Zip2(a, b)| ==> Zip2(a, b)[i] == (ZipLongest([a, b])[i][0], ZipLongest([a, b])[i][1])
  {
    var xs := [a, b];
    assert |xs[0]| <= MaxLength(xs) && |xs[1]| <= MaxLength(xs);
  }

  /** The present first components of a pair stream, in order. */
  function FirstSide<T>(ps: seq<(Option<T>, Option<T>)>): seq<T> {
    if ps == [] then []
    else (if ps[0].0.Some? then [ps[0].0.value] else []) + FirstSide(ps[1..])
  }

  /** The present second components of a pair stream, in order. */
  function SecondSide<T>(ps: seq<(Option<T>, Option<T>)>): seq<T> {
    if ps == [] then []
    else (if ps[0].1.Some? then [ps[0].1.value] else []) + SecondSide(ps[1..])
  }

  lemma {:induction false} FirstSideAppend<T>(p: seq<(Option<T>, Option<T>)>, q: seq<(Option<T>, Option<T>)>)
    ensures FirstSide(p + q) == FirstSide(p) + FirstSide(q)
    decreases |p|
  {
    if p == [] {
      assert p + q == q;
    } else {
      var pq := p + q;
      var h := if p[0].0.Some? then [p[0].0.value] else [];
      assert pq[0] == p[0];
      assert pq[1..] == p[1..] + q;
      assert FirstSide(pq) == h + FirstSide(p[1..] + q);
      FirstSideAppend(p[1..], q);
      assert h + (FirstSide(p[1..]) + FirstSide(q)) == (h + FirstSide(p[1..])) + FirstSide(q);
    }
  }

  lemma {:induction false} SecondSideAppend<T>(p: seq<(Option<T>, Option<T>)>, q: seq<(Option<T>, Option<T>)>)
    ensures SecondSide(p + q) == SecondSide(p) + SecondSide(q)
    decreases |p|
  {
    if p == [] {
      assert p + q == q;
    } else {
      var pq := p + q;
      var h := if p[0].1.Some? then [p[0].1.value] else [];
      assert pq[0] == p[0];
      assert pq[1..] == p[1..] + q;
      assert SecondSide(pq) == h + SecondSide(p[1..] + q);
      SecondSideAppend(p[1..], q);
      assert h + (SecondSide(p[1..]) + SecondSide(q)) == (h + SecondSide(p[1..])) + SecondSide(q);
    }
  }

  lemma {:induction false} FirstSideOfPadded<T>(ps: seq<(Option<T>, Option<T>)>, a: seq<T>)
    requires |a| <= |ps|
    requires forall i :: 0 <= i < |ps| ==> ps[i].0 == At(a, i)
    ensures FirstSide(ps) == a
    decreases |ps|
  {
    if ps != [] {
      var a' := if a == [] then [] else a[1..];
      assert forall i :: 0 <= i < |ps| - 1 ==> ps[1..][i] == ps[i + 1];
      FirstSideOfPadded(ps[1..], a');
      if a != [] { assert a == [a[0]] + a'; }
    }
  }

  lemma {:induction false} SecondSideOfPadded<T>(ps: seq<(Option<T>, Option<T>)>, b: seq<T>)
    requires |b| <= |ps|
    requires forall i :: 0 <= i < |ps| ==> ps[i].1 == At(b, i)
    ensures SecondSide(ps) == b
    decreases |ps|
  {
    if ps != [] {
      var b' := if b == [] then [] else b[1..];
      assert forall i :: 0 <= i < |ps| - 1 ==> ps[1..][i] == ps[i + 1];
      SecondSideOfPadded(ps[1..], b');
      if b != [] { assert b == [b[0]] + b'; }
    }
  }

  /** Reading either side of `_combine(a, b)` and skipping the padding gives that input back. */
  lemma Zip2Sides<T>(a: seq<T>, b: seq<T>)
    ensures FirstSide(Zip2(a, b)) == a
    ensures SecondSide(Zip2(a, b)) == b
  {
    FirstSideOfPadded(Zip2(a, b), a);
    SecondSideOfPadded(Zip2(a, b), b);
  }

  // ---------------------------------------------------------------------
  // Per-line cleaning (threaded path and Windows path)

  /** The per-line cleaning: trailing whitespace stripped first, then every NUL removed. */
  function CleanLine(line: string): (r: string)
    ensures '\0' !in r
    ensures line == [] ==> r == []
    ensures |r| <= |line|
    ensures forall c :: c in r ==> c in line
  {
    RemoveCharMembers(Rstrip(line), '\0');
    RemoveChar(Rstrip(line), '\0')
  }

  /** Stripping happens before NUL removal, so a cleaned line can still end in whitespace. */
  lemma CleanLineMayEndInSpace()
    ensures CleanLine("a \0") == "a "
  {
    assert Rstrip("a \0") == "a \0";
    assert "a \0"[1..] == " \0";
    assert " \0"[1..] == "\0";
  }

  /** On a line without NULs, cleaning is exactly `rstrip`. */
  lemma CleanLineWithoutNul(line: string)
    requires '\0' !in line
    ensures CleanLine(line) == Rstrip(line)
  {
    var r := Rstrip(line);
    assert forall c :: c in r ==> c in line;
  }

  datatype Pipe = StdoutPipe | StderrPipe

  function MapClean(ls: seq<string>): (r: seq<string>)
    ensures |r| == |ls|
    ensures forall i :: 0 <= i < |ls| ==> r[i] == CleanLine(ls[i])
  {
    if ls == [] then [] else [CleanLine(ls[0])] + MapClean(ls[1..])
  }

  /** The lines of queue items coming from `pipe`, in queue order. */
  function LinesFrom(items: seq<(Pipe, string)>, pipe: Pipe): seq<string> {
    if items == [] then []
    else (if items[0].0 == pipe then [items[0].1] else []) + LinesFrom(items[1..], pipe)
  }

  /**
    The threaded path: every `(name, line)` taken from the queue is yielded
    at once, cleaned, as `(line, None)` for stdout and `(None, line)` for
    stderr.
   */
  function ThreadedYield(items: seq<(Pipe, string)>): (out: seq<(Option<string>, Option<string>)>)
    ensures |out| == |items|
    ensures forall i :: 0 <= i < |out| ==> (out[i].0.Some? <==> items[i].0 == StdoutPipe)
    ensures forall i :: 0 <= i < |out| ==> (out[i].1.Some? <==> items[i].0 == StderrPipe)
    ensures forall i :: 0 <= i < |out| && out[i].0.Some? ==> '\0' !in out[i].0.value
    ensures forall i :: 0 <= i < |out| && out[i].1.Some? ==> '\0' !in out[i].1.value
  {
    if items == [] then []
    else
      var (pipe, line) := items[0];
      var first := if pipe == StderrPipe then (None, Some(CleanLine(line))) else (Some(CleanLine(line)), None);
      var rest := ThreadedYield(items[1..]);
      var out := [first] + rest;
      assert first.0.Some? <==> pipe == StdoutPipe;
      assert forall i :: 1 <= i < |out| ==> items[i] == items[1..][i - 1] && out[i] == rest[i - 1];
      out
  }

  lemma MapCleanAppend(a: seq<string>, b: seq<string>)
    ensures MapClean(a + b) == MapClean(a) + MapClean(b)
  {
  }

  /** Each stream's lines come out of the threaded path in queue order, cleaned. */
  lemma {:induction false} ThreadedYieldKeepsStreamOrder(items: seq<(Pipe, string)>)
    ensures FirstSide(ThreadedYield(items)) == MapClean(LinesFrom(items, StdoutPipe))
    ensures SecondSide(ThreadedYield(items)) == MapClean(LinesFrom(items, StderrPipe))
    decreases |items|
  {
    if items != [] {
      var out := ThreadedYield(items);
      FirstSideAppend([out[0]], ThreadedYield(items[1..]));
      SecondSideAppend([out[0]], ThreadedYield(items[1..]));
      ThreadedYieldKeepsStreamOrder(items[1..]);
      MapCleanAppend(if items[0].0 == StdoutPipe then [items[0].1] else [], LinesFrom(items[1..], StdoutPipe));
      MapCleanAppend(if items[0].0 == StderrPipe then [items[0].1] else [], LinesFrom(items[1..], StderrPipe));
    }
  }

  function CleanOpt(o: Option<string>): Option<string> {
    match o
    case None => None
    case Some(l) => Some(CleanLine(l))
  }

  /**
    The Windows path without `subprocess`: stdout and stderr share one file,
    so every line is replayed as stdout through `_combine(out_lines, [])`.
   */
  function WindowsYield(outLines: seq<string>): (out: seq<(Option<string>, Option<string>)>)
    ensures |out| == |outLines|
    ensures forall i :: 0 <= i < |out| ==> out[i].1 == None
    ensures FirstSide(out) == MapClean(outLines)
  {
    var z := Zip2(outLines, []);
    var out := seq(|z|, i requires 0 <= i < |z| => (CleanOpt(z[i].0), CleanOpt(z[i].1)));
    WindowsYieldSide(outLines, out);
    out
  }

  lemma {:induction false} WindowsYieldSide(outLines: seq<string>, out: seq<(Option<string>, Option<string>)>)
    requires |out| == |outLines|
    requires forall i :: 0 <= i < |out| ==> out[i] == (Some(CleanLine(outLines[i])), None)
    ensures FirstSide(out) == MapClean(outLines)
    decreases |out|
  {
    if out != [] {
      WindowsYieldSide(outLines[1..], out[1..]);
    }
  }

  // ---------------------------------------------------------------------
  // The line side of the select loop

  /**
    One answer of `select`: what was read from each pipe that was ready
    (`Some([])` is end-of-stream), or nothing ready before the timeout.
   */
  datatype Round = Ready(outRead: Option<string>, errRead: Option<string>) | NothingReady

  datatype Ending = Exited | TimedOut | StillRunning

  /**
    A run of the select loop: the pairs yielded, how the loop ended, the raw
    lines extracted and the chunks appended per stream, and what is left in
    each buffer.
   */
  datatype SelectRun = SelectRun(
    yielded: seq<(Option<string>, Option<string>)>,
    ending: Ending,
    outRaw: seq<string>, errRaw: seq<string>,
    outData: seq<string>, errData: seq<string>,
    outBuffer: seq<string>, errBuffer: seq<string>)

  /** One stream's part of a select round: the chunk appended, the raw lines extracted, the new buffer, end-of-stream. */
  datatype StreamStep = StreamStep(data: seq<string>, lines: seq<string>, buffer: seq<string>, eof: bool)

  /**
    One stream in one round. A pipe already at end-of-stream is not polled;
    an empty read marks end-of-stream and appends nothing; any other read is
    appended. Lines are then extracted, whether or not anything arrived.
   */
  function StepStream(buffer: seq<string>, eof: bool, read: Option<string>): (st: StreamStep)
    ensures Concat(st.lines) + Concat(st.buffer) == Concat(buffer) + Concat(st.data)
    ensures Pending(st.buffer)
  {
    var data := if !eof && read.Some? && read.value != [] then [read.value] else [];
    ExtractRawFacts(buffer + data);
    ConcatAppend(buffer, data);
    var e := ExtractRaw(buffer + data);
    StreamStep(data, e.lines, e.buffer, eof || read == Some([]))
  }

  /** The run made of one round's output followed by the rest of the loop. */
  function ThenRun(o: StreamStep, e: StreamStep, rest: SelectRun): SelectRun {
    SelectRun(
      Zip2(MapRstrip(o.lines), MapRstrip(e.lines)) + rest.yielded,
      rest.ending,
      o.lines + rest.outRaw, e.lines + rest.errRaw,
      o.data + rest.outData, e.data + rest.errData,
      rest.outBuffer, rest.errBuffer)
  }

  /** A run that yields nothing more. */
  function Stop(ending: Ending, outBuf: seq<string>, errBuf: seq<string>): SelectRun {
    SelectRun([], ending, [], [], [], [], outBuf, errBuf)
  }

  /**
    The select loop from a given state: each round appends what was read,
    extracts lines from both buffers, and yields them through `_combine`;
    nothing ready means `TimeoutError`; the loop ends once both pipes are
    at end-of-stream, without flushing what is left in the buffers.
   */
  function SelectLoopFrom(rounds: seq<Round>, outBuf: seq<string>, errBuf: seq<string>, outEof: bool, errEof: bool): (run: SelectRun)
    ensures Pending(outBuf) ==> Pending(run.outBuffer)
    ensures Pending(errBuf) ==> Pending(run.errBuffer)
    decreases |rounds|
  {
    if outEof && errEof then Stop(Exited, outBuf, errBuf)
    else if rounds == [] then Stop(StillRunning, outBuf, errBuf)
    else if rounds[0].NothingReady? then Stop(TimedOut, outBuf, errBuf)
    else
      var o := StepStream(outBuf, outEof, rounds[0].outRead);
      var e := StepStream(errBuf, errEof, rounds[0].errRead);
      var rest := SelectLoopFrom(rounds[1..], o.buffer, e.buffer, o.eof, e.eof);
      ThenRun(o, e, rest)
  }

  /** The posix `execute` without `subprocess`, from empty buffers with both pipes open. */
  function SelectLoop(rounds: seq<Round>): SelectRun {
    SelectLoopFrom(rounds, [], [], false, false)
  }

  /** Gluing one round's bytes in front of the rest of the run keeps the byte balance. */
  lemma ConservedThen(before: seq<string>, st: StreamStep, raw: seq<string>, buffer: seq<string>, data: seq<string>)
    requires Concat(st.lines) + Concat(st.buffer) == Concat(before) + Concat(st.data)
    requires Concat(raw) + Concat(buffer) == Concat(st.buffer) + Concat(data)
    ensures Concat(st.lines + raw) + Concat(buffer) == Concat(before) + Concat(st.data + data)
  {
    ConcatAppend(st.lines, raw);
    ConcatAppend(st.data, data);
    SeqBalance(Concat(st.lines), Concat(raw), Concat(buffer), Concat(st.buffer), Concat(data), Concat(before), Concat(st.data));
  }

  lemma SeqBalance(l: string, r: string, b: string, sb: string, d: string, bf: string, sd: string)
    requires l + sb == bf + sd
    requires r + b == sb + d
    ensures (l + r) + b == bf + (sd + d)
  {
    calc {
      (l + r) + b;
      l + (r + b);
      l + (sb + d);
      (l + sb) + d;
      (bf + sd) + d;
      bf + (sd + d);
    }
  }

  /** Nothing read is lost or invented: per stream, raw lines plus the leftover buffer are exactly the bytes read. */
  lemma {:induction false} SelectLoopConserves(rounds: seq<Round>, outBuf: seq<string>, errBuf: seq<string>, outEof: bool, errEof: bool)
    ensures var run := SelectLoopFrom(rounds, outBuf, errBuf, outEof, errEof);
      Concat(run.outRaw) + Concat(run.outBuffer) == Concat(outBuf) + Concat(run.outData)
    ensures var run := SelectLoopFrom(rounds, outBuf, errBuf, outEof, errEof);
      Concat(run.errRaw) + Concat(run.errBuffer) == Concat(errBuf) + Concat(run.errData)
    decreases |rounds|
  {
    if !(outEof && errEof) && rounds != [] && rounds[0].Ready? {
      var o := StepStream(outBuf, outEof, rounds[0].outRead);
      var e := StepStream(errBuf, errEof, rounds[0].errRead);
      var rest := SelectLoopFrom(rounds[1..], o.buffer, e.buffer, o.eof, e.eof);
      assert SelectLoopFrom(rounds, outBuf, errBuf, outEof, errEof) == ThenRun(o, e, rest);
      SelectLoopConserves(rounds[1..], o.buffer, e.buffer, o.eof, e.eof);
      ConservedThen(outBuf, o, rest.outRaw, rest.outBuffer, rest.outData);
      ConservedThen(errBuf, e, rest.errRaw, rest.errBuffer, rest.errData);
    }
  }

  /**
    Within each stream, the select loop yields that stream's lines in the
    order they were extracted, right-stripped; the other stream's lines and
    the None padding do not disturb it.
   */
  lemma {:induction false} SelectLoopKeepsStreamOrder(rounds: seq<Round>, outBuf: seq<string>, errBuf: seq<string>, outEof: bool, errEof: bool)
    ensures var run := SelectLoopFrom(rounds, outBuf, errBuf, outEof, errEof);
      FirstSide(run.yielded) == MapRstrip(run.outRaw) && SecondSide(run.yielded) == MapRstrip(run.errRaw)
    decreases |rounds|
  {
    if !(outEof && errEof) && rounds != [] && rounds[0].Ready? {
      var o := StepStream(outBuf, outEof, rounds[0].outRead);
      var e := StepStream(errBuf, errEof, rounds[0].errRead);
      var rest := SelectLoopFrom(rounds[1..], o.buffer, e.buffer, o.eof, e.eof);
      SelectLoopKeepsStreamOrder(rounds[1..], o.buffer, e.buffer, o.eof, e.eof);
      var z := Zip2(MapRstrip(o.lines), MapRstrip(e.lines));
      FirstSideAppend(z, rest.yielded);
      SecondSideAppend(z, rest.yielded);
      Zip2Sides(MapRstrip(o.lines), MapRstrip(e.lines));
      MapRstripAppend(o.lines, rest.outRaw);
      MapRstripAppend(e.lines, rest.errRaw);
    }
  }

  /** A last line without a terminator stays in the buffer when the stream ends: it is never yielded. */
  lemma SelectLoopDropsUnterminatedTail(b: string)
    requires b != [] && NoBreak(b)
    ensures SelectLoop([Ready(Some(b), Some([])), Ready(Some([]), None)])
      == SelectRun([], Exited, [], [], [b], [], [b], [])
  {
    var rounds := [Ready(Some(b), Some([])), Ready(Some([]), None)];
    var none: seq<string> := [];
    var o1 := StepStream([], false, Some(b));
    var e1 := StepStream([], false, Some([]));
    var o2 := StepStream([b], false, Some([]));
    var e2 := StepStream([], true, None);
    assert o1 == StreamStep([b], [], [b], false) by {
      assert [] + [b] == [b];
      PendingIsStable([b]);
    }
    assert e1 == StreamStep([], [], [], true) && e2 == StreamStep([], [], [], true) by {
      assert none + none == none;
      ExtractRawOfNothing();
    }
    assert o2 == StreamStep([], [], [b], true) by {
      assert [b] + none == [b];
      PendingIsStable([b]);
    }
    var last := SelectLoopFrom(rounds[2..], [b], [], true, true);
    assert last == Stop(Exited, [b], []);
    var second := SelectLoopFrom(rounds[1..], [b], [], false, true);
    assert second == ThenRun(o2, e2, last) by {
      assert rounds[1..][0] == rounds[1] && rounds[1..][1..] == rounds[2..];
    }
    assert Zip2(MapRstrip(none), MapRstrip(none)) == [];
    assert second == SelectRun([], Exited, [], [], [], [], [b], []);
    assert SelectLoop(rounds) == ThenRun(o1, e1, second);
  }

  /** A "\r\n" split across two reads is cut after the "\r", giving an extra empty line. */
  lemma SplitCrLfGivesExtraLine()
    ensures ExtractLines(["a\r"]) == Extraction(["a"], [])
    ensures ExtractLines([] + ["\n"]) == Extraction([""], [])
    ensures SplitLines("a\r\n") == ["a\r\n"]
  {
    assert Concat(["a\r"]) == "a\r" + Concat([]);
    assert Body("a\r") == "a";
    assert Concat(["a\r"]) == "a\r";
    LineSplitUnique("a\r", ["a\r"]);
    assert Rstrip("a\r") == Rstrip("a") == "a";
    assert [] + ["\n"] == ["\n"];
    assert Concat(["\n"]) == "\n" + Concat([]);
    assert Body("\n") == [];
    LineSplitUnique("\n", ["\n"]);
    assert Rstrip("\n") == [];
    assert Body("a\r\n") == "a";
    assert Concat(["a\r\n"]) == "a\r\n" + Concat([]);
    LineSplitUnique("a\r\n", ["a\r\n"]);
  }

  /** A single terminated line is extracted whole and leaves nothing buffered. */
  lemma ExtractRawOfLine(l: string)
    requires IsLine(l) && EndsWithLineSep(l)
    ensures ExtractRaw([l]) == Extraction([l], [])
  {
    assert Concat([l]) == l + Concat([]);
    LineSplitUnique(l, [l]);
  }

  lemma ExtractRawOfNothing()
    ensures ExtractRaw([]) == Extraction([], [])
  {
    assert SplitLines([]) == [];
  }

  /** A single round from empty buffers, both pipes open, followed by an empty rest. */
  lemma SelectLoopOneRound(r: Round)
    requires r.Ready?
    ensures var o := StepStream([], false, r.outRead);
      var e := StepStream([], false, r.errRead);
      SelectLoop([r]).yielded == Zip2(MapRstrip(o.lines), MapRstrip(e.lines))
  {
    var o := StepStream([], false, r.outRead);
    var e := StepStream([], false, r.errRead);
    var rest := SelectLoopFrom([], o.buffer, e.buffer, o.eof, e.eof);
    assert [r][1..] == [];
    assert rest.yielded == [];
    assert SelectLoop([r]) == ThenRun(o, e, rest);
  }

  /**
    The select path only right-strips: a terminated line comes out as its
    body, so a NUL inside it reaches the caller (unlike the threaded path).
   */
  lemma SelectLoopYieldsLine(body: string)
    requires NoBreak(body) && (body == [] || !IsSpace(body[|body| - 1]))
    ensures SelectLoop([Ready(Some(body + "\n"), None)]).yielded == [(Some(body), None)]
  {
    var l := body + "\n";
    var o := StepStream([], false, Some(l));
    var e := StepStream([], false, None);
    assert o.lines == [l] by {
      assert l[..|l| - 1] == body;
      assert Body(l) == body;
      assert [] + [l] == [l];
      ExtractRawOfLine(l);
    }
    assert e.lines == [] by {
      var none: seq<string> := [];
      assert none + none == none;
      ExtractRawOfNothing();
    }
    SelectLoopOneRound(Ready(Some(l), None));
    assert MapRstrip([l]) == [body] by {
      assert l[..|l| - 1] == body && IsSpace(l[|l| - 1]);
      assert Rstrip(l) == Rstrip(body) == body;
    }
    assert Zip2([body], []) == [(Some(body), None)];
  }

  // ---------------------------------------------------------------------
  // Windows argument quoting

  /** An argument with a space is wrapped in double quotes; others pass unchanged. */
  function QuoteArg(arg: string): string {
    if ' ' in arg then "\"" + arg + "\"" else arg
  }

  /** Undoes `QuoteArg`: strips the surrounding quotes of an argument that holds a space. */
  function UnquoteArg(arg: string): string {
    if ' ' in arg && |arg| >= 2 && arg[0] == '"' && arg[|arg| - 1] == '"' then arg[1..|arg| - 1] else arg
  }

  lemma QuoteArgRoundTrip(arg: string)
    ensures UnquoteArg(QuoteArg(arg)) == arg
    ensures ' ' in arg <==> ' ' in QuoteArg(arg)
  {
    if ' ' in arg {
      var q := QuoteArg(arg);
      assert q[1..|q| - 1] == arg;
      var k :| 0 <= k < |arg| && arg[k] == ' ';
      assert q[k + 1] == ' ';
    }
  }

  /** The quoting loop over `[executable] + arguments` (the Windows path without `subprocess`). */
  method QuoteArgs(args: seq<string>) returns (quoted: seq<string>)
    ensures |quoted| == |args|
    ensures forall i :: 0 <= i < |args| ==> UnquoteArg(quoted[i]) == args[i]
    ensures forall i :: 0 <= i < |args| ==> (' ' in args[i] ==> quoted[i] == "\"" + args[i] + "\"")
    ensures forall i :: 0 <= i < |args| ==> (' ' !in args[i] ==> quoted[i] == args[i])
  {
    quoted := args;
    var idx := 0;
    while idx < |quoted|
      invariant 0 <= idx <= |quoted| == |args|
      invariant forall i :: 0 <= i < idx ==> quoted[i] == QuoteArg(args[i])
      invariant forall i :: idx <= i < |args| ==> quoted[i] == args[i]
    {
      if ' ' in quoted[idx] {
        quoted := quoted[idx := "\"" + quoted[idx] + "\""];
      }
      idx := idx + 1;
    }
    forall i | 0 <= i < |args|
      ensures UnquoteArg(quoted[i]) == args[i]
    {
      QuoteArgRoundTrip(args[i]);
    }
  }
}
