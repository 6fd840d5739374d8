/**
  The report chart controller and its two generators: the recogniser of
  `/build/<config>/chart/<category>` request paths, the unit-test chart
  (largest per-platform test count and largest failure count per revision)
  and the coverage chart (largest line count and covered-line count per
  revision). The database query is replaced by the sequence of rows it
  returns, in its `ORDER BY` order.
 */
module Charts {
  import opened Wrappers
  import opened Runs

  // ---------------------------------------------------------------------
  // Request paths
  // ---------------------------------------------------------------------

  /** `\w` of a Python 2 regular expression without the UNICODE flag. */
  predicate IsWordChar(c: char) {
    ('a' <= c <= 'z') || ('A' <= c <= 'Z') || ('0' <= c <= '9') || c == '_'
  }

  /** The characters of `[\w.-]`, allowed in a configuration name. */
  predicate IsConfigChar(c: char) {
    IsWordChar(c) || c == '.' || c == '-'
  }

  /** Length of the longest prefix of `s` whose characters all satisfy `p`. */
  function Span(s: string, p: char -> bool): (n: nat)
    ensures n <= |s|
    ensures forall i :: 0 <= i < n ==> p(s[i])
    ensures n == |s| || !p(s[n])
  {
    if s == [] || !p(s[0]) then 0 else 1 + Span(s[1..], p)
  }

  const BuildPrefix: string := "/build/"
  const ChartInfix: string := "/chart/"

  /**
    The request path pattern: `/build/`, a non-empty configuration name of
    word characters, dots and dashes, `/chart/`, then a non-empty category
    of word characters. On a match, the name and the category. The match is
    anchored at the start only, so text may follow the category.
   */
  function MatchRequest(path: string): (r: Option<(string, string)>)
    ensures r.Some? ==> r.value.0 != [] && r.value.1 != []
    ensures r.Some? ==> forall i :: 0 <= i < |r.value.0| ==> IsConfigChar(r.value.0[i])
    ensures r.Some? ==> forall i :: 0 <= i < |r.value.1| ==> IsWordChar(r.value.1[i])
  {
    if |path| < |BuildPrefix| || path[..|BuildPrefix|] != BuildPrefix then None
    else
      var rest := path[|BuildPrefix|..];
      var n := Span(rest, IsConfigChar);
      var after := rest[n..];
      if n == 0 || |after| < |ChartInfix| || after[..|ChartInfix|] != ChartInfix then None
      else
        var tail := after[|ChartInfix|..];
        var k := Span(tail, IsWordChar);
        if k == 0 then None else Some((rest[..n], tail[..k]))
  }

  predicate StartsWith(s: string, prefix: string) {
    |prefix| <= |s| && s[..|prefix|] == prefix
  }

  lemma StartsWithConcat(s: string, a: string, b: string)
    ensures StartsWith(s, a + b) <==> StartsWith(s, a) && StartsWith(s[|a|..], b)
  {
    if StartsWith(s, a) && StartsWith(s[|a|..], b) {
      assert s[..|a + b|] == s[..|a|] + s[|a|..][..|b|];
    }
    if StartsWith(s, a + b) {
      assert s[..|a|] == (a + b)[..|a|];
      assert s[|a|..][..|b|] == (a + b)[|a|..];
    }
  }

  /**
    What the pattern promises about a path, configuration name and category:
    the path starts with `/build/`, the name, `/chart/` and the category; the
    name is a non-empty run of `[\w.-]` and the category a non-empty run of
    `\w` that is not followed by another `\w`.
   */
  predicate Matches(path: string, config: string, category: string)
  {
    var head := BuildPrefix + config + ChartInfix + category;
    StartsWith(path, head)
    && config != [] && (forall i :: 0 <= i < |config| ==> IsConfigChar(config[i]))
    && category != [] && (forall i :: 0 <= i < |category| ==> IsWordChar(category[i]))
    && (|head| == |path| || !IsWordChar(path[|head|]))
  }

  /** The path cut at the name and at the category. */
  lemma MatchesParts(path: string, config: string, category: string)
    ensures StartsWith(path, BuildPrefix + config + ChartInfix + category)
      <==> StartsWith(path, BuildPrefix)
           && var rest := path[|BuildPrefix|..];
           StartsWith(rest, config)
           && StartsWith(rest[|config|..], ChartInfix)
           && StartsWith(rest[|config|..][|ChartInfix|..], category)
  {
    var B, I := BuildPrefix, ChartInfix;
    StartsWithConcat(path, B + config + I, category);
    StartsWithConcat(path, B + config, I);
    StartsWithConcat(path, B, config);
    if StartsWith(path, B) {
      var rest := path[|B|..];
      if StartsWith(rest, config) {
        assert path[|B + config|..] == rest[|config|..];
        if StartsWith(rest[|config|..], I) {
          assert path[|B + config + I|..] == rest[|config|..][|I|..];
        }
      }
    }
  }

  /** A recognised path is described by the pattern. */
  lemma MatchRequestSound(path: string)
    requires MatchRequest(path).Some?
    ensures Matches(path, MatchRequest(path).value.0, MatchRequest(path).value.1)
  {
    var rest := path[|BuildPrefix|..];
    var n := Span(rest, IsConfigChar);
    var tail := rest[n..][|ChartInfix|..];
    var k := Span(tail, IsWordChar);
    var config, category := rest[..n], tail[..k];
    assert rest[|config|..] == rest[n..];
    MatchesParts(path, config, category);
    var head := BuildPrefix + config + ChartInfix + category;
    assert |head| < |path| ==> path[|head|] == tail[k] by {
      if |head| < |path| {
        assert path[|head|] == rest[|head| - |BuildPrefix|];
        assert rest[|head| - |BuildPrefix|] == rest[n..][|head| - |BuildPrefix| - n];
      }
    }
  }

  /**
    Every description of the path by the pattern is the one the recogniser
    returns: a path matches for at most one name and category, and for
    those the recogniser succeeds.
   */
  lemma MatchRequestComplete(path: string, config: string, category: string)
    requires Matches(path, config, category)
    ensures MatchRequest(path) == Some((config, category))
  {
    MatchesParts(path, config, category);
    var rest := path[|BuildPrefix|..];
    var head := BuildPrefix + config + ChartInfix + category;
    assert rest[|config|] == ChartInfix[0];
    SpanOfRun(rest, IsConfigChar, |config|);
    var tail := rest[|config|..][|ChartInfix|..];
    assert |head| < |path| ==> tail[|category|] == path[|head|] by {
      if |head| < |path| {
        assert path[|head|] == rest[|head| - |BuildPrefix|];
        assert rest[|head| - |BuildPrefix|] == rest[|config|..][|head| - |BuildPrefix| - |config|];
      }
    }
    SpanOfRun(tail, IsWordChar, |category|);
  }

  lemma {:induction false} SpanOfRun(s: string, p: char -> bool, n: nat)
    requires n <= |s|
    requires forall i :: 0 <= i < n ==> p(s[i])
    requires n == |s| || !p(s[n])
    ensures Span(s, p) == n
    decreases n
  {
    if n > 0 {
      SpanOfRun(s[1..], p, n - 1);
    }
  }

  /** The request path of the trunk configuration's test chart. */
  lemma TrunkTestChart()
    ensures MatchRequest("/build/trunk/chart/test") == Some(("trunk", "test"))
  {
    var p := "/build/trunk/chart/test";
    assert BuildPrefix + "trunk" + ChartInfix + "test" == p;
    MatchRequestComplete(p, "trunk", "test");
  }

  /** A dotted, dashed configuration name; a trailing slash is left unread. */
  lemma DottedConfigChart()
    ensures MatchRequest("/build/0.5-stable/chart/coverage/") == Some(("0.5-stable", "coverage"))
  {
    var p := "/build/0.5-stable/chart/coverage/";
    assert BuildPrefix + "0.5-stable" + ChartInfix + "coverage" == p[..|p| - 1];
    MatchRequestComplete(p, "0.5-stable", "coverage");
  }

  /** Without a category there is no match. */
  lemma MissingCategory()
    ensures MatchRequest("/build/trunk/chart/") == None
  {
    var p := "/build/trunk/chart/";
    var rest := p[|BuildPrefix|..];
    assert rest == "trunk/chart/";
    SpanOfRun(rest, IsConfigChar, 5);
    assert rest[5..] == ChartInfix;
  }

  /** Without a configuration name there is no match. */
  lemma MissingConfig()
    ensures MatchRequest("/build//chart/test") == None
  {
    var p := "/build//chart/test";
    var rest := p[|BuildPrefix|..];
    assert rest[0] == '/';
  }

  // ---------------------------------------------------------------------
  // Maxima
  // ---------------------------------------------------------------------

  function Max(a: int, b: int): int {
    if a < b then b else a
  }

  /** The largest element of `s`, or 0 when there is none or all are negative. */
  function MaxOf(s: seq<int>): (m: int)
    ensures m >= 0
    ensures forall i :: 0 <= i < |s| ==> s[i] <= m
    ensures m == 0 || m in s
  {
    if s == [] then 0 else Max(MaxOf(s[..|s| - 1]), s[|s| - 1])
  }

  lemma MaxOfSnoc(s: seq<int>, y: int)
    ensures MaxOf(s + [y]) == Max(MaxOf(s), y)
  {
    assert (s + [y])[..|s|] == s;
  }

  /** Raising the last element raises the maximum to at least that element. */
  lemma MaxOfRaise(s: seq<int>, a: int, b: int)
    requires a <= b
    ensures MaxOf(s + [b]) == Max(b, MaxOf(s + [a]))
  {
    MaxOfSnoc(s, a);
    MaxOfSnoc(s, b);
  }

  // ---------------------------------------------------------------------
  // The unit-test chart
  // ---------------------------------------------------------------------

  /**
    A row of the test query: revision, platform, the value of a test's
    `status` item (`None` for a test without one) and how many tests of the
    build share that status.
   */
  datatype TestRow = TestRow(rev: string, platform: string, status: Option<string>, num: nat)

  /** A chart column: the revision, its test count and its failure count. */
  datatype TestEntry = TestEntry(rev: string, total: nat, failures: nat)

  function RevOf(r: TestRow): string { r.rev }
  function PlatformOf(r: TestRow): string { r.platform }

  /** Anything but `success` counts as failing, a missing status included. */
  predicate Failed(r: TestRow) {
    r.status != Some("success")
  }

  /** Number of tests counted by the rows. */
  function Sum(rows: seq<TestRow>): nat
  {
    if rows == [] then 0 else Sum(rows[..|rows| - 1]) + rows[|rows| - 1].num
  }

  /** The test count of each run. */
  function RunSums(runs: seq<seq<TestRow>>): (sums: seq<int>)
    ensures |sums| == |runs|
  {
    if runs == [] then [] else RunSums(runs[..|runs| - 1]) + [Sum(runs[|runs| - 1])]
  }

  /** The counts of the failing rows, in order. */
  function FailureCounts(rows: seq<TestRow>): (counts: seq<int>)
    ensures forall i :: 0 <= i < |counts| ==> counts[i] >= 0
    ensures forall i :: 0 <= i < |rows| && Failed(rows[i]) ==> rows[i].num in counts
    ensures forall c :: c in counts ==> exists i :: 0 <= i < |rows| && Failed(rows[i]) && rows[i].num == c
  {
    if rows == [] then []
    else
      var front := FailureCounts(rows[..|rows| - 1]);
      var x := rows[|rows| - 1];
      assert forall i :: 0 <= i < |rows| - 1 ==> rows[i] == rows[..|rows| - 1][i];
      if Failed(x) then front + [x.num] else front
  }

  /**
    The column of one revision: its test count is the largest number of
    tests of a single platform run, and its failure count the largest count
    of a single failing row.
   */
  function EntryOf(run: seq<TestRow>): TestEntry
    requires run != []
  {
    TestEntry(run[0].rev, MaxOf(RunSums(Split(run, PlatformOf))), MaxOf(FailureCounts(run)))
  }

  function EntriesOf(runs: seq<seq<TestRow>>): (es: seq<TestEntry>)
    requires forall k :: 0 <= k < |runs| ==> runs[k] != []
    ensures |es| == |runs|
  {
    if runs == [] then [] else EntriesOf(runs[..|runs| - 1]) + [EntryOf(runs[|runs| - 1])]
  }

  /** The columns of the chart: one per maximal run of rows of the same revision. */
  function TestEntries(rows: seq<TestRow>): seq<TestEntry>
  {
    EntriesOf(Split(rows, RevOf))
  }

  /** The test count of the last platform run of a revision. */
  function LastSum(run: seq<TestRow>): nat
    requires run != []
  {
    var plats := Split(run, PlatformOf);
    Sum(plats[|plats| - 1])
  }

  /** The test count of the platform run the last row belongs to. */
  function PlatformTotal(rows: seq<TestRow>): nat
    requires rows != []
  {
    var runs := Split(rows, RevOf);
    LastSum(runs[|runs| - 1])
  }

  lemma SumSnoc(rows: seq<TestRow>, x: TestRow)
    ensures Sum(rows + [x]) == Sum(rows) + x.num
  {
    assert (rows + [x])[..|rows|] == rows;
  }

  lemma RunSumsSnoc(runs: seq<seq<TestRow>>, run: seq<TestRow>)
    ensures RunSums(runs + [run]) == RunSums(runs) + [Sum(run)]
  {
    assert (runs + [run])[..|runs|] == runs;
  }

  lemma {:induction false} RunSumsAt(runs: seq<seq<TestRow>>, k: int)
    requires 0 <= k < |runs|
    ensures RunSums(runs)[k] == Sum(runs[k])
    decreases |runs|
  {
    if k < |runs| - 1 {
      RunSumsAt(runs[..|runs| - 1], k);
    }
  }

  lemma FailuresSnoc(rows: seq<TestRow>, x: TestRow)
    ensures FailureCounts(rows + [x]) == FailureCounts(rows) + if Failed(x) then [x.num] else []
  {
    assert (rows + [x])[..|rows|] == rows;
  }

  lemma EntriesOfSnoc(runs: seq<seq<TestRow>>, run: seq<TestRow>)
    requires forall k :: 0 <= k < |runs| ==> runs[k] != []
    requires run != []
    ensures EntriesOf(runs + [run]) == EntriesOf(runs) + [EntryOf(run)]
  {
    assert (runs + [run])[..|runs|] == runs;
  }

  lemma {:induction false} EntriesOfAt(runs: seq<seq<TestRow>>, k: int)
    requires forall k :: 0 <= k < |runs| ==> runs[k] != []
    requires 0 <= k < |runs|
    ensures EntriesOf(runs)[k] == EntryOf(runs[k])
    decreases |runs|
  {
    if k < |runs| - 1 {
      EntriesOfAt(runs[..|runs| - 1], k);
    }
  }

  /** The failure count never exceeds the test count. */
  lemma FailuresAtMostTotal(run: seq<TestRow>)
    requires run != []
    ensures EntryOf(run).failures <= EntryOf(run).total
  {
    var fails := FailureCounts(run);
    var plats := Split(run, PlatformOf);
    var sums := RunSums(plats);
    if MaxOf(fails) != 0 {
      var i :| 0 <= i < |run| && Failed(run[i]) && run[i].num == MaxOf(fails);
      SplitIsRunSplit(run, PlatformOf);
      var k, j := MemberOfSomeRun(plats, i);
      ElementAtMostSum(plats[k], j);
      RunSumsAt(plats, k);
    }
  }

  lemma {:induction false} ElementAtMostSum(rows: seq<TestRow>, j: int)
    requires 0 <= j < |rows|
    ensures rows[j].num <= Sum(rows)
    decreases |rows|
  {
    if j < |rows| - 1 {
      ElementAtMostSum(rows[..|rows| - 1], j);
    }
  }

  lemma MaxSumsOpen(plats: seq<seq<TestRow>>, x: TestRow)
    ensures MaxOf(RunSums(plats + [[x]])) == Max(x.num, MaxOf(RunSums(plats)))
  {
    RunSumsSnoc(plats, [x]);
    SumSnoc([], x);
    assert [] + [x] == [x];
    MaxOfSnoc(RunSums(plats), x.num);
  }

  lemma MaxSumsExtend(front: seq<seq<TestRow>>, last: seq<TestRow>, x: TestRow)
    ensures MaxOf(RunSums(front + [last + [x]])) == Max(Sum(last) + x.num, MaxOf(RunSums(front + [last])))
  {
    RunSumsSnoc(front, last + [x]);
    RunSumsSnoc(front, last);
    SumSnoc(last, x);
    MaxOfRaise(RunSums(front), Sum(last), Sum(last) + x.num);
  }

  /** A column of a single row. */
  lemma EntryOfSingle(x: TestRow)
    ensures EntryOf([x]) == TestEntry(x.rev, x.num, if Failed(x) then x.num else 0)
    ensures LastSum([x]) == x.num
  {
    var none: seq<TestRow> := [];
    assert none + [x] == [x];
    SplitOpen(none, x, PlatformOf);
    MaxSumsOpen([], x);
    SumSnoc(none, x);
    FailuresSnoc(none, x);
    MaxOfSnoc([], x.num);
  }

  /** Adding a row to its revision's column, as the loop body does. */
  lemma EntryOfSnoc(run: seq<TestRow>, x: TestRow)
    requires run != [] && x.rev == run[0].rev
    ensures var e := EntryOf(run);
      var platformTotal := if x.platform != run[|run| - 1].platform then x.num else LastSum(run) + x.num;
      EntryOf(run + [x])
      == TestEntry(e.rev, Max(platformTotal, e.total),
                   if Failed(x) then Max(x.num, e.failures) else e.failures)
      && LastSum(run + [x]) == platformTotal
  {
    TotalAfter(run, x);
    FailuresAfter(run, x);
    assert (run + [x])[0] == run[0];
  }

  lemma TotalAfter(run: seq<TestRow>, x: TestRow)
    requires run != []
    ensures var platformTotal := if x.platform != run[|run| - 1].platform then x.num else LastSum(run) + x.num;
      MaxOf(RunSums(Split(run + [x], PlatformOf))) == Max(platformTotal, MaxOf(RunSums(Split(run, PlatformOf))))
      && LastSum(run + [x]) == platformTotal
  {
    if x.platform != run[|run| - 1].platform {
      TotalAfterOpen(run, x);
    } else {
      TotalAfterExtend(run, x);
    }
  }

  lemma TotalAfterOpen(run: seq<TestRow>, x: TestRow)
    requires run != [] && x.platform != run[|run| - 1].platform
    ensures MaxOf(RunSums(Split(run + [x], PlatformOf))) == Max(x.num, MaxOf(RunSums(Split(run, PlatformOf))))
    ensures LastSum(run + [x]) == x.num
  {
    SplitOpen(run, x, PlatformOf);
    MaxSumsOpen(Split(run, PlatformOf), x);
    SumSnoc([], x);
    assert [] + [x] == [x];
  }

  lemma TotalAfterExtend(run: seq<TestRow>, x: TestRow)
    requires run != [] && x.platform == run[|run| - 1].platform
    ensures MaxOf(RunSums(Split(run + [x], PlatformOf))) == Max(LastSum(run) + x.num, MaxOf(RunSums(Split(run, PlatformOf))))
    ensures LastSum(run + [x]) == LastSum(run) + x.num
  {
    MaxAfterExtend(run, x);
    LastSumAfterExtend(run, x);
  }

  lemma MaxAfterExtend(run: seq<TestRow>, x: TestRow)
    requires run != [] && x.platform == run[|run| - 1].platform
    ensures MaxOf(RunSums(Split(run + [x], PlatformOf))) == Max(LastSum(run) + x.num, MaxOf(RunSums(Split(run, PlatformOf))))
  {
    var front, last := SplitExtend(run, x, PlatformOf);
    MaxSumsExtendAt(Split(run, PlatformOf), Split(run + [x], PlatformOf), front, last, x, LastSum(run));
  }

  lemma MaxSumsExtendAt(before: seq<seq<TestRow>>, after: seq<seq<TestRow>>, front: seq<seq<TestRow>>,
                        last: seq<TestRow>, x: TestRow, lastSum: int)
    requires before == front + [last] && after == front + [last + [x]]
    requires before != [] && lastSum == Sum(before[|before| - 1])
    ensures MaxOf(RunSums(after)) == Max(lastSum + x.num, MaxOf(RunSums(before)))
  {
    SnocParts(before, front, last);
    MaxSumsExtend(front, last, x);
  }

  lemma LastSumAfterExtend(run: seq<TestRow>, x: TestRow)
    requires run != [] && x.platform == run[|run| - 1].platform
    ensures LastSum(run + [x]) == LastSum(run) + x.num
  {
    var front, last := SplitExtend(run, x, PlatformOf);
    SumSnoc(last, x);
  }

  lemma FailuresAfter(run: seq<TestRow>, x: TestRow)
    ensures MaxOf(FailureCounts(run + [x]))
      == if Failed(x) then Max(x.num, MaxOf(FailureCounts(run))) else MaxOf(FailureCounts(run))
  {
    FailuresSnoc(run, x);
    if Failed(x) {
      MaxOfSnoc(FailureCounts(run), x.num);
    }
  }

  /** A row whose revision differs from the row before opens a new column. */
  lemma TestEntriesOpen(rows: seq<TestRow>, x: TestRow)
    requires rows == [] || x.rev != rows[|rows| - 1].rev
    ensures TestEntries(rows + [x]) == TestEntries(rows) + [EntryOf([x])]
    ensures PlatformTotal(rows + [x]) == LastSum([x])
  {
    SplitOpen(rows, x, RevOf);
    EntriesOfSnoc(Split(rows, RevOf), [x]);
  }

  /** A row with the revision of the row before extends the last column. */
  lemma TestEntriesExtend(rows: seq<TestRow>, x: TestRow) returns (front: seq<TestEntry>, run: seq<TestRow>)
    requires rows != [] && x.rev == rows[|rows| - 1].rev
    ensures run != [] && run[0].rev == x.rev && run[|run| - 1] == rows[|rows| - 1]
    ensures TestEntries(rows) == front + [EntryOf(run)]
    ensures TestEntries(rows + [x]) == front + [EntryOf(run + [x])]
    ensures PlatformTotal(rows) == LastSum(run)
    ensures PlatformTotal(rows + [x]) == LastSum(run + [x])
  {
    var runs, last := SplitExtend(rows, x, RevOf);
    run := last;
    front := EntriesOf(runs);
    EntriesOfSnoc(runs, last);
    EntriesOfSnoc(runs, last + [x]);
  }

  /** Rows of one revision make one column. */
  lemma TestEntriesOfRevision(rows: seq<TestRow>)
    requires rows != [] && forall r :: r in rows ==> r.rev == rows[0].rev
    ensures TestEntries(rows) == [EntryOf(rows)]
  {
    assert forall i :: 0 <= i < |rows| ==> rows[i] in rows;
    SplitOfConstant(rows, RevOf);
    var none: seq<seq<TestRow>> := [];
    EntriesOfSnoc(none, rows);
    assert none + [rows] == [rows];
  }

  /** What the test generator's loop variables hold after the rows `seen`. */
  ghost predicate TestLoopState(seen: seq<TestRow>, tests: seq<TestEntry>, prevRev: Option<string>,
                                prevPlatform: Option<string>, platformTotal: nat)
  {
    tests == TestEntries(seen)
    && (seen == [] ==> prevRev == None && prevPlatform == None)
    && (seen != [] ==> prevRev == Some(seen[|seen| - 1].rev) && prevPlatform == Some(seen[|seen| - 1].platform)
                       && platformTotal == PlatformTotal(seen))
  }

  /**
    The last column after counting `row`, whose platform has reached
    `platformTotal` tests in that column.
   */
  function CountRow(tests: seq<TestEntry>, platformTotal: nat, row: TestRow): seq<TestEntry>
    requires tests != []
  {
    var last := tests[|tests| - 1];
    tests[..|tests| - 1] + [TestEntry(last.rev, Max(platformTotal, last.total),
                                      if Failed(row) then Max(row.num, last.failures) else last.failures)]
  }

  /** The loop step for a row that opens a column. */
  lemma TestStepOpen(seen: seq<TestRow>, tests: seq<TestEntry>, row: TestRow, tests': seq<TestEntry>)
    requires tests == TestEntries(seen)
    requires seen == [] || row.rev != seen[|seen| - 1].rev
    requires tests' == CountRow(tests + [TestEntry(row.rev, 0, 0)], row.num, row)
    ensures tests' == TestEntries(seen + [row]) && PlatformTotal(seen + [row]) == row.num
  {
    assert (tests + [TestEntry(row.rev, 0, 0)])[..|tests|] == tests;
    TestEntriesOpen(seen, row);
    EntryOfSingle(row);
  }

  /** The loop step for a row that extends the last column. */
  lemma TestStepExtend(seen: seq<TestRow>, tests: seq<TestEntry>, platformTotal: nat, row: TestRow,
                       tests': seq<TestEntry>, platformTotal': nat)
    requires tests == TestEntries(seen) && seen != [] && platformTotal == PlatformTotal(seen)
    requires row.rev == seen[|seen| - 1].rev
    requires platformTotal' == if row.platform != seen[|seen| - 1].platform then row.num else platformTotal + row.num
    requires tests != [] && tests' == CountRow(tests, platformTotal', row)
    ensures tests' == TestEntries(seen + [row]) && PlatformTotal(seen + [row]) == platformTotal'
  {
    var front, run := TestEntriesExtend(seen, row);
    var e := EntryOf(run);
    SnocParts(tests, front, e);
    assert EntryOf(run + [row]) == TestEntry(e.rev, Max(platformTotal', e.total),
                                             if Failed(row) then Max(row.num, e.failures) else e.failures)
        && LastSum(run + [row]) == platformTotal' by {
      EntryOfSnoc(run, row);
    }
  }

  lemma SnocParts<T>(s: seq<T>, front: seq<T>, x: T)
    requires s == front + [x]
    ensures s != [] && s[..|s| - 1] == front && s[|s| - 1] == x
  {
  }

  lemma TestLoopStateAfter(seen: seq<TestRow>, row: TestRow, tests: seq<TestEntry>, prevRev: Option<string>,
                            prevPlatform: Option<string>, platformTotal: nat)
    requires tests == TestEntries(seen + [row]) && platformTotal == PlatformTotal(seen + [row])
    requires prevRev == Some(row.rev) && prevPlatform == Some(row.platform)
    ensures TestLoopState(seen + [row], tests, prevRev, prevPlatform, platformTotal)
  {
    SnocParts(seen + [row], seen, row);
  }

  /** Which branch the loop body takes, read off the loop variables. */
  lemma TestLoopFacts(seen: seq<TestRow>, tests: seq<TestEntry>, prevRev: Option<string>,
                      prevPlatform: Option<string>, platformTotal: nat, row: TestRow)
    requires TestLoopState(seen, tests, prevRev, prevPlatform, platformTotal)
    ensures (Some(row.rev) != prevRev) == (seen == [] || row.rev != seen[|seen| - 1].rev)
    ensures Some(row.rev) == prevRev ==> tests != [] && prevPlatform == Some(seen[|seen| - 1].platform)
  {
  }

  /** One pass of the test generator's loop body. */
  method AddTestRow(ghost seen: seq<TestRow>, tests: seq<TestEntry>, prevRev: Option<string>,
                    prevPlatform: Option<string>, platformTotal: nat, row: TestRow)
    returns (tests': seq<TestEntry>, prevRev': Option<string>, prevPlatform': Option<string>, platformTotal': nat)
    requires TestLoopState(seen, tests, prevRev, prevPlatform, platformTotal)
    ensures TestLoopState(seen + [row], tests', prevRev', prevPlatform', platformTotal')
  {
    TestLoopFacts(seen, tests, prevRev, prevPlatform, platformTotal, row);
    tests', prevRev', prevPlatform', platformTotal' := tests, prevRev, prevPlatform, platformTotal;
    if Some(row.rev) != prevRev' {
      tests' := tests' + [TestEntry(row.rev, 0, 0)];
      prevRev' := Some(row.rev);
      platformTotal' := 0;
    }
    if Some(row.platform) != prevPlatform' {
      prevPlatform' := Some(row.platform);
      platformTotal' := 0;
    }
    platformTotal' := platformTotal' + row.num;
    tests' := CountRow(tests', platformTotal', row);
    if Some(row.rev) != prevRev {
      TestStepOpen(seen, tests, row, tests');
    } else {
      TestStepExtend(seen, tests, platformTotal, row, tests', platformTotal');
    }
    TestLoopStateAfter(seen, row, tests', prevRev', prevPlatform', platformTotal');
  }

  /**
    The test generator's loop over the query rows. Its columns are exactly
    one per revision run, each carrying the largest per-platform test count
    and the largest failing-row count of that run.
   */
  method TestResultsChart(rows: seq<TestRow>) returns (tests: seq<TestEntry>)
    ensures tests == TestEntries(rows)
    ensures |tests| <= |rows|
    ensures forall k :: 0 <= k < |tests| ==> tests[k].failures <= tests[k].total
  {
    var prevRev: Option<string> := None;
    var prevPlatform: Option<string> := None;
    var platformTotal: nat := 0;
    tests := [];
    ghost var seen: seq<TestRow> := [];
    var i := 0;
    while i < |rows|
      invariant 0 <= i <= |rows| && seen == rows[..i]
      invariant TestLoopState(seen, tests, prevRev, prevPlatform, platformTotal)
    {
      assert rows[..i + 1] == seen + [rows[i]];
      tests, prevRev, prevPlatform, platformTotal := AddTestRow(seen, tests, prevRev, prevPlatform, platformTotal, rows[i]);
      seen := seen + [rows[i]];
      i := i + 1;
    }
    assert seen == rows;
    TestEntriesBounded(rows);
  }

  /** In every column the failure count is at most the test count. */
  lemma TestEntriesBounded(rows: seq<TestRow>)
    ensures |TestEntries(rows)| <= |rows|
    ensures forall k :: 0 <= k < |TestEntries(rows)| ==> TestEntries(rows)[k].failures <= TestEntries(rows)[k].total
  {
    var runs := Split(rows, RevOf);
    forall k | 0 <= k < |runs|
      ensures TestEntries(rows)[k].failures <= TestEntries(rows)[k].total
    {
      EntriesOfAt(runs, k);
      FailuresAtMostTotal(runs[k]);
    }
  }

  // ---------------------------------------------------------------------
  // The coverage chart
  // ---------------------------------------------------------------------

  /**
    A row of the coverage query: revision, and the summed line count and
    summed covered-line count of one platform's build of it; a sum over no
    report items is `NULL`.
   */
  datatype CoverageRow = CoverageRow(rev: string, loc: Option<int>, cov: Option<int>)

  /** A chart column: the revision, its line count and its covered-line count. */
  datatype CoverageEntry = CoverageEntry(rev: string, lines: int, covered: int)

  function CoverageRevOf(r: CoverageRow): string { r.rev }
  function LocOf(r: CoverageRow): Option<int> { r.loc }
  function CovOf(r: CoverageRow): Option<int> { r.cov }

  /** The values present in one column of the rows, in order; `NULL`s are skipped. */
  function Values(rows: seq<CoverageRow>, field: CoverageRow -> Option<int>): (vs: seq<int>)
    ensures forall i :: 0 <= i < |rows| && field(rows[i]).Some? ==> field(rows[i]).value in vs
    ensures forall v :: v in vs ==> exists i :: 0 <= i < |rows| && field(rows[i]) == Some(v)
  {
    if rows == [] then []
    else
      var front := Values(rows[..|rows| - 1], field);
      var x := rows[|rows| - 1];
      assert forall i :: 0 <= i < |rows| - 1 ==> rows[i] == rows[..|rows| - 1][i];
      match field(x)
      case None => front
      case Some(v) => front + [v]
  }

  /**
    The column of one revision: the largest line count and the largest
    covered-line count among its platforms, 0 when none is positive.
   */
  function CoverageEntryOf(run: seq<CoverageRow>): CoverageEntry
    requires run != []
  {
    CoverageEntry(run[0].rev, MaxOf(Values(run, LocOf)), MaxOf(Values(run, CovOf)))
  }

  function CoverageEntriesOf(runs: seq<seq<CoverageRow>>): (es: seq<CoverageEntry>)
    requires forall k :: 0 <= k < |runs| ==> runs[k] != []
    ensures |es| == |runs|
  {
    if runs == [] then [] else CoverageEntriesOf(runs[..|runs| - 1]) + [CoverageEntryOf(runs[|runs| - 1])]
  }

  /** The columns of the chart: one per maximal run of rows of the same revision. */
  function CoverageEntries(rows: seq<CoverageRow>): seq<CoverageEntry>
  {
    CoverageEntriesOf(Split(rows, CoverageRevOf))
  }

  /**
    Python 2's `value > current` for a value that may be `None`: `None`
    orders below every number, so it never raises the current maximum.
   */
  predicate Exceeds(value: Option<int>, current: int) {
    value.Some? && value.value > current
  }

  /** The update the loop makes to a column for one more row of its revision. */
  function Raise(e: CoverageEntry, x: CoverageRow): CoverageEntry
  {
    CoverageEntry(e.rev,
                  if Exceeds(x.loc, e.lines) then x.loc.value else e.lines,
                  if Exceeds(x.cov, e.covered) then x.cov.value else e.covered)
  }

  lemma ValuesSnoc(rows: seq<CoverageRow>, x: CoverageRow, field: CoverageRow -> Option<int>)
    ensures Values(rows + [x], field)
      == Values(rows, field) + if field(x).Some? then [field(x).value] else []
  {
    assert (rows + [x])[..|rows|] == rows;
  }

  lemma MaxValuesSnoc(rows: seq<CoverageRow>, x: CoverageRow, field: CoverageRow -> Option<int>)
    ensures var m := MaxOf(Values(rows, field));
      MaxOf(Values(rows + [x], field)) == if Exceeds(field(x), m) then field(x).value else m
  {
    ValuesSnoc(rows, x, field);
    if field(x).Some? {
      MaxOfSnoc(Values(rows, field), field(x).value);
    }
  }

  /** Taking the running maximum row by row gives the maximum of the whole run. */
  lemma CoverageEntryOfSnoc(run: seq<CoverageRow>, x: CoverageRow)
    requires run != []
    ensures CoverageEntryOf(run + [x]) == Raise(CoverageEntryOf(run), x)
  {
    MaxValuesSnoc(run, x, LocOf);
    MaxValuesSnoc(run, x, CovOf);
    assert (run + [x])[0] == run[0];
  }

  /** A fresh `[rev, 0, 0]` column raised by its first row. */
  lemma CoverageEntryOfSingle(x: CoverageRow)
    ensures CoverageEntryOf([x]) == Raise(CoverageEntry(x.rev, 0, 0), x)
  {
    var none: seq<CoverageRow> := [];
    assert none + [x] == [x];
    MaxValuesSnoc(none, x, LocOf);
    MaxValuesSnoc(none, x, CovOf);
  }

  lemma CoverageEntriesOfSnoc(runs: seq<seq<CoverageRow>>, run: seq<CoverageRow>)
    requires forall k :: 0 <= k < |runs| ==> runs[k] != []
    requires run != []
    ensures CoverageEntriesOf(runs + [run]) == CoverageEntriesOf(runs) + [CoverageEntryOf(run)]
  {
    assert (runs + [run])[..|runs|] == runs;
  }

  lemma {:induction false} CoverageEntriesOfAt(runs: seq<seq<CoverageRow>>, k: int)
    requires forall k :: 0 <= k < |runs| ==> runs[k] != []
    requires 0 <= k < |runs|
    ensures CoverageEntriesOf(runs)[k] == CoverageEntryOf(runs[k])
    decreases |runs|
  {
    if k < |runs| - 1 {
      CoverageEntriesOfAt(runs[..|runs| - 1], k);
    }
  }

  /** A row whose revision differs from the row before opens a new column. */
  lemma CoverageEntriesOpen(rows: seq<CoverageRow>, x: CoverageRow)
    requires rows == [] || x.rev != rows[|rows| - 1].rev
    ensures CoverageEntries(rows + [x]) == CoverageEntries(rows) + [CoverageEntryOf([x])]
  {
    SplitOpen(rows, x, CoverageRevOf);
    CoverageEntriesOfSnoc(Split(rows, CoverageRevOf), [x]);
  }

  /** A row with the revision of the row before extends the last column. */
  lemma CoverageEntriesExtend(rows: seq<CoverageRow>, x: CoverageRow) returns (front: seq<CoverageEntry>, run: seq<CoverageRow>)
    requires rows != [] && x.rev == rows[|rows| - 1].rev
    ensures run != []
    ensures CoverageEntries(rows) == front + [CoverageEntryOf(run)]
    ensures CoverageEntries(rows + [x]) == front + [CoverageEntryOf(run + [x])]
  {
    var runs, last := SplitExtend(rows, x, CoverageRevOf);
    run := last;
    front := CoverageEntriesOf(runs);
    CoverageEntriesOfSnoc(runs, last);
    CoverageEntriesOfSnoc(runs, last + [x]);
  }

  /** Rows of one revision make one column. */
  lemma CoverageEntriesOfRevision(rows: seq<CoverageRow>)
    requires rows != [] && forall r :: r in rows ==> r.rev == rows[0].rev
    ensures CoverageEntries(rows) == [CoverageEntryOf(rows)]
  {
    assert forall i :: 0 <= i < |rows| ==> rows[i] in rows;
    SplitOfConstant(rows, CoverageRevOf);
    var none: seq<seq<CoverageRow>> := [];
    CoverageEntriesOfSnoc(none, rows);
    assert none + [rows] == [rows];
  }

  ghost predicate CoverageLoopState(seen: seq<CoverageRow>, coverage: seq<CoverageEntry>, prevRev: Option<string>)
  {
    coverage == CoverageEntries(seen)
    && (seen == [] ==> prevRev == None)
    && (seen != [] ==> prevRev == Some(seen[|seen| - 1].rev))
  }

  /** One pass of the coverage loop body. */
  method AddCoverageRow(ghost seen: seq<CoverageRow>, coverage: seq<CoverageEntry>, prevRev: Option<string>, row: CoverageRow)
    returns (coverage': seq<CoverageEntry>, prevRev': Option<string>)
    requires CoverageLoopState(seen, coverage, prevRev)
    ensures CoverageLoopState(seen + [row], coverage', prevRev')
  {
    if seen == [] || row.rev != seen[|seen| - 1].rev {
      CoverageEntriesOpen(seen, row);
      CoverageEntryOfSingle(row);
    } else {
      var front, run := CoverageEntriesExtend(seen, row);
      CoverageEntryOfSnoc(run, row);
    }
    coverage' := coverage;
    if Some(row.rev) != prevRev {
      coverage' := coverage' + [CoverageEntry(row.rev, 0, 0)];
    }
    var last := coverage'[|coverage'| - 1];
    var lines := last.lines;
    if Exceeds(row.loc, lines) {
      lines := row.loc.value;
    }
    var covered := last.covered;
    if Exceeds(row.cov, covered) {
      covered := row.cov.value;
    }
    coverage' := coverage'[..|coverage'| - 1] + [CoverageEntry(last.rev, lines, covered)];
    prevRev' := Some(row.rev);
  }

  /**
    The coverage generator's loop over the query rows: one column per
    revision run, holding the largest line count and the largest
    covered-line count of that run.
   */
  method CoverageChart(rows: seq<CoverageRow>) returns (coverage: seq<CoverageEntry>)
    ensures coverage == CoverageEntries(rows)
    ensures |coverage| <= |rows|
    ensures forall k :: 0 <= k < |coverage| ==> coverage[k].lines >= 0 && coverage[k].covered >= 0
  {
    var prevRev: Option<string> := None;
    coverage := [];
    ghost var seen: seq<CoverageRow> := [];
    var i := 0;
    while i < |rows|
      invariant 0 <= i <= |rows| && seen == rows[..i]
      invariant CoverageLoopState(seen, coverage, prevRev)
    {
      assert rows[..i + 1] == seen + [rows[i]];
      coverage, prevRev := AddCoverageRow(seen, coverage, prevRev, rows[i]);
      seen := seen + [rows[i]];
      i := i + 1;
    }
    assert seen == rows;
    CoverageEntriesBounded(rows);
  }

  /** Every column's counts are the maxima of its run, so never negative. */
  lemma CoverageEntriesBounded(rows: seq<CoverageRow>)
    ensures |CoverageEntries(rows)| <= |rows|
    ensures forall k :: 0 <= k < |CoverageEntries(rows)| ==>
      var runs := Split(rows, CoverageRevOf);
      CoverageEntries(rows)[k] == CoverageEntryOf(runs[k])
      && CoverageEntries(rows)[k].lines >= 0 && CoverageEntries(rows)[k].covered >= 0
  {
    var runs := Split(rows, CoverageRevOf);
    forall k | 0 <= k < |runs|
      ensures CoverageEntries(rows)[k] == CoverageEntryOf(runs[k])
    {
      CoverageEntriesOfAt(runs, k);
    }
  }

  // ---------------------------------------------------------------------
  // Chart tables
  // ---------------------------------------------------------------------

  /** A cell of a chart table: the generators mix labels and numbers. */
  datatype Cell = Text(text: string) | Number(n: int)

  /** The header row of a chart table: an empty corner, then `[rev]` per column. */
  function RevisionRow(revs: seq<string>): (row: seq<Cell>)
    ensures |row| == 1 + |revs| && row[0] == Text("")
    ensures forall k :: 0 <= k < |revs| ==> row[k + 1] == Text("[" + revs[k] + "]")
  {
    [Text("")] + seq(|revs|, k requires 0 <= k < |revs| => Text("[" + revs[k] + "]"))
  }

  /** A series row of a chart table: its heading, then one number per column. */
  function SeriesRow(heading: string, values: seq<int>): (row: seq<Cell>)
    ensures |row| == 1 + |values| && row[0] == Text(heading)
    ensures forall k :: 0 <= k < |values| ==> row[k + 1] == Number(values[k])
  {
    [Text(heading)] + seq(|values|, k requires 0 <= k < |values| => Number(values[k]))
  }

  /** The unit-test chart's table: revisions, then the `Total` and `Failures` series. */
  function TestTable(tests: seq<TestEntry>): (t: seq<seq<Cell>>)
    ensures |t| == 3 && |t[0]| == |t[1]| == |t[2]| == 1 + |tests|
    ensures t[0][0] == Text("") && t[1][0] == Text("Total") && t[2][0] == Text("Failures")
    ensures forall k :: 0 <= k < |tests| ==>
      t[0][k + 1] == Text("[" + tests[k].rev + "]")
      && t[1][k + 1] == Number(tests[k].total) && t[2][k + 1] == Number(tests[k].failures)
  {
    var revs := seq(|tests|, k requires 0 <= k < |tests| => tests[k].rev);
    var totals := seq(|tests|, k requires 0 <= k < |tests| => tests[k].total);
    var failures := seq(|tests|, k requires 0 <= k < |tests| => tests[k].failures);
    var t := [RevisionRow(revs), SeriesRow("Total", totals), SeriesRow("Failures", failures)];
    assert forall k :: 0 <= k < |tests| ==>
      t[0][k + 1] == Text("[" + tests[k].rev + "]")
      && t[1][k + 1] == Number(tests[k].total) && t[2][k + 1] == Number(tests[k].failures) by {
      forall k | 0 <= k < |tests|
        ensures t[0][k + 1] == Text("[" + tests[k].rev + "]")
        ensures t[1][k + 1] == Number(tests[k].total) && t[2][k + 1] == Number(tests[k].failures)
      {
        assert revs[k] == tests[k].rev && totals[k] == tests[k].total && failures[k] == tests[k].failures;
      }
    }
    t
  }

  /** The coverage chart's table: revisions, then the `Lines of code` and `Coverage` series. */
  function CoverageTable(coverage: seq<CoverageEntry>): (t: seq<seq<Cell>>)
    ensures |t| == 3 && |t[0]| == |t[1]| == |t[2]| == 1 + |coverage|
    ensures t[0][0] == Text("") && t[1][0] == Text("Lines of code") && t[2][0] == Text("Coverage")
    ensures forall k :: 0 <= k < |coverage| ==>
      t[0][k + 1] == Text("[" + coverage[k].rev + "]")
      && t[1][k + 1] == Number(coverage[k].lines) && t[2][k + 1] == Number(coverage[k].covered)
  {
    var revs := seq(|coverage|, k requires 0 <= k < |coverage| => coverage[k].rev);
    var lines := seq(|coverage|, k requires 0 <= k < |coverage| => coverage[k].lines);
    var covered := seq(|coverage|, k requires 0 <= k < |coverage| => coverage[k].covered);
    var t := [RevisionRow(revs), SeriesRow("Lines of code", lines), SeriesRow("Coverage", covered)];
    assert forall k :: 0 <= k < |coverage| ==>
      t[0][k + 1] == Text("[" + coverage[k].rev + "]")
      && t[1][k + 1] == Number(coverage[k].lines) && t[2][k + 1] == Number(coverage[k].covered) by {
      forall k | 0 <= k < |coverage|
        ensures t[0][k + 1] == Text("[" + coverage[k].rev + "]")
        ensures t[1][k + 1] == Number(coverage[k].lines) && t[2][k + 1] == Number(coverage[k].covered)
      {
        assert revs[k] == coverage[k].rev && lines[k] == coverage[k].lines && covered[k] == coverage[k].covered;
      }
    }
    t
  }

  /** The revision shown in a header cell: the text between the brackets. */
  function Unbracket(c: Cell): string {
    if c.Text? && |c.text| >= 2 then c.text[1..|c.text| - 1] else ""
  }

  /** The count shown in a series cell; a count is never negative. */
  function CountOf(c: Cell): nat {
    if c.Number? && c.n >= 0 then c.n else 0
  }

  function ValueOf(c: Cell): int {
    if c.Number? then c.n else 0
  }

  /** Reads the unit-test columns back out of a table's three rows. */
  function TestColumns(t: seq<seq<Cell>>): (tests: seq<TestEntry>)
    requires |t| == 3 && 1 <= |t[0]| && |t[0]| == |t[1]| == |t[2]|
    ensures |tests| == |t[0]| - 1
  {
    seq(|t[0]| - 1, k requires 0 <= k < |t[0]| - 1 => TestEntry(Unbracket(t[0][k + 1]), CountOf(t[1][k + 1]), CountOf(t[2][k + 1])))
  }

  /** Reads the coverage columns back out of a table's three rows. */
  function CoverageColumns(t: seq<seq<Cell>>): (coverage: seq<CoverageEntry>)
    requires |t| == 3 && 1 <= |t[0]| && |t[0]| == |t[1]| == |t[2]|
    ensures |coverage| == |t[0]| - 1
  {
    seq(|t[0]| - 1, k requires 0 <= k < |t[0]| - 1 => CoverageEntry(Unbracket(t[0][k + 1]), ValueOf(t[1][k + 1]), ValueOf(t[2][k + 1])))
  }

  lemma UnbracketRev(rev: string)
    ensures Unbracket(Text("[" + rev + "]")) == rev
  {
    assert ("[" + rev + "]")[1..|rev| + 1] == rev;
  }

  /** Column `k` of the unit-test table reads back as entry `k`. */
  lemma TestColumnAt(tests: seq<TestEntry>, k: nat)
    requires k < |tests|
    ensures TestColumns(TestTable(tests))[k] == tests[k]
  {
    var t := TestTable(tests);
    var e := tests[k];
    assert t[0][k + 1] == Text("[" + e.rev + "]") && t[1][k + 1] == Number(e.total) && t[2][k + 1] == Number(e.failures);
    UnbracketRev(e.rev);
    assert TestColumns(t)[k] == TestEntry(Unbracket(t[0][k + 1]), CountOf(t[1][k + 1]), CountOf(t[2][k + 1]));
  }

  /** The unit-test table loses nothing: every column can be read back from it. */
  lemma TestTableRoundTrip(tests: seq<TestEntry>)
    ensures TestColumns(TestTable(tests)) == tests
  {
    forall k | 0 <= k < |tests|
      ensures TestColumns(TestTable(tests))[k] == tests[k]
    {
      TestColumnAt(tests, k);
    }
  }

  /** Column `k` of the coverage table reads back as entry `k`. */
  lemma CoverageColumnAt(coverage: seq<CoverageEntry>, k: nat)
    requires k < |coverage|
    ensures CoverageColumns(CoverageTable(coverage))[k] == coverage[k]
  {
    var t := CoverageTable(coverage);
    var e := coverage[k];
    assert t[0][k + 1] == Text("[" + e.rev + "]") && t[1][k + 1] == Number(e.lines) && t[2][k + 1] == Number(e.covered);
    UnbracketRev(e.rev);
    assert CoverageColumns(t)[k] == CoverageEntry(Unbracket(t[0][k + 1]), ValueOf(t[1][k + 1]), ValueOf(t[2][k + 1]));
  }

  /** The coverage table loses nothing: every column can be read back from it. */
  lemma CoverageTableRoundTrip(coverage: seq<CoverageEntry>)
    ensures CoverageColumns(CoverageTable(coverage)) == coverage
  {
    forall k | 0 <= k < |coverage|
      ensures CoverageColumns(CoverageTable(coverage))[k] == coverage[k]
    {
      CoverageColumnAt(coverage, k);
    }
  }
}
