/**
  The chart generators on the report data of their own unit tests: a
  revision `123` built on one platform or on two.
 */
module ChartExamples {
  import opened Wrappers
  import opened Runs
  import opened Charts

  /** With no reports the tables hold only their headings. */
  lemma NoReports()
    ensures TestTable(TestEntries([])) == [[Text("")], [Text("Total")], [Text("Failures")]]
    ensures CoverageTable(CoverageEntries([])) == [[Text("")], [Text("Lines of code")], [Text("Coverage")]]
  {
    var none: seq<TestRow> := [];
    assert Split(none, RevOf) == [];
    var t := TestTable(TestEntries(none));
    assert t[0] == [Text("")] && t[1] == [Text("Total")] && t[2] == [Text("Failures")];
    var nothing: seq<CoverageRow> := [];
    assert Split(nothing, CoverageRevOf) == [];
    var c := CoverageTable(CoverageEntries(nothing));
    assert c[0] == [Text("")] && c[1] == [Text("Lines of code")] && c[2] == [Text("Coverage")];
  }

  /** Three tests on one platform, one of them failing: a single row and a failing row. */
  lemma SinglePlatformEntry(x1: TestRow, x2: TestRow)
    requires x1 == TestRow("123", "unix", Some("failure"), 1)
    requires x2 == TestRow("123", "unix", Some("success"), 2)
    ensures EntryOf([x1, x2]) == TestEntry("123", 3, 1) && LastSum([x1, x2]) == 3
  {
    var run := [x1];
    assert run + [x2] == [x1, x2];
    assert EntryOf(run) == TestEntry("123", 1, 1) && LastSum(run) == 1 by {
      EntryOfSingle(x1);
    }
    EntryOfSnoc(run, x2);
  }

  lemma SinglePlatformTests(x1: TestRow, x2: TestRow)
    requires x1 == TestRow("123", "unix", Some("failure"), 1)
    requires x2 == TestRow("123", "unix", Some("success"), 2)
    ensures TestEntries([x1, x2]) == [TestEntry("123", 3, 1)]
  {
    SinglePlatformEntry(x1, x2);
    TestEntriesOfRevision([x1, x2]);
  }

  /** The cells the template reads for a one-column test chart. */
  lemma SinglePlatformTestTable(tests: seq<TestEntry>)
    requires tests == [TestEntry("123", 3, 1)]
    ensures var t := TestTable(tests);
      t[0][1] == Text("[123]") && t[1][1] == Number(3) && t[2][1] == Number(1)
  {
  }

  /**
    Three tests on each of two platforms, with one failure on the first and
    two on the second: the total is the larger platform's count and the
    failures the larger failing row's.
   */
  lemma MultiPlatformTests(x1: TestRow, x2: TestRow, x3: TestRow, x4: TestRow)
    requires x1 == TestRow("123", "unix", Some("failure"), 1)
    requires x2 == TestRow("123", "unix", Some("success"), 2)
    requires x3 == TestRow("123", "windows", Some("failure"), 2)
    requires x4 == TestRow("123", "windows", Some("success"), 1)
    ensures TestEntries([x1, x2, x3, x4]) == [TestEntry("123", 3, 2)]
  {
    var rows := [x1, x2, x3, x4];
    TestEntriesOfRevision(rows);
    assert EntryOf(rows) == TestEntry("123", 3, 2) by {
      var run2 := [x1, x2];
      var run3 := run2 + [x3];
      Append4(x1, x2, x3, x4);
      SinglePlatformEntry(x1, x2);
      SecondPlatformFailure(run2, x3);
      SecondPlatformSuccess(run3, x4);
    }
  }

  /** A failing row of 2 on a new platform: a new platform run, and more failures. */
  lemma SecondPlatformFailure(run: seq<TestRow>, x: TestRow)
    requires run != [] && run[0].rev == "123" && run[|run| - 1].platform == "unix"
    requires EntryOf(run) == TestEntry("123", 3, 1)
    requires x == TestRow("123", "windows", Some("failure"), 2)
    ensures EntryOf(run + [x]) == TestEntry("123", 3, 2) && LastSum(run + [x]) == 2
    ensures (run + [x])[0].rev == "123" && (run + [x])[|run|].platform == "windows"
  {
    EntryOfSnoc(run, x);
  }

  /** A passing row of 1 on the same platform: that platform reaches 3, no more than before. */
  lemma SecondPlatformSuccess(run: seq<TestRow>, x: TestRow)
    requires run != [] && run[0].rev == "123" && run[|run| - 1].platform == "windows"
    requires EntryOf(run) == TestEntry("123", 3, 2) && LastSum(run) == 2
    requires x == TestRow("123", "windows", Some("success"), 1)
    ensures EntryOf(run + [x]) == TestEntry("123", 3, 2)
  {
    EntryOfSnoc(run, x);
  }

  lemma Append4<T>(a: T, b: T, c: T, d: T)
    ensures [a, b] + [c] + [d] == [a, b, c, d]
  {
  }

  /** Twelve lines, a quarter of them covered. */
  lemma SinglePlatformCoverage(x: CoverageRow)
    requires x == CoverageRow("123", Some(12), Some(3))
    ensures CoverageEntries([x]) == [CoverageEntry("123", 12, 3)]
  {
    CoverageEntryOfSingle(x);
    CoverageEntriesOfRevision([x]);
  }

  /** The same twelve lines covered a quarter on one platform and half on another. */
  lemma MultiPlatformCoverage(x1: CoverageRow, x2: CoverageRow)
    requires x1 == CoverageRow("123", Some(12), Some(3))
    requires x2 == CoverageRow("123", Some(12), Some(6))
    ensures CoverageEntries([x1, x2]) == [CoverageEntry("123", 12, 6)]
  {
    var run := [x1];
    assert run + [x2] == [x1, x2];
    assert CoverageEntryOf(run) == CoverageEntry("123", 12, 3) by {
      CoverageEntryOfSingle(x1);
    }
    assert CoverageEntryOf([x1, x2]) == CoverageEntry("123", 12, 6) by {
      CoverageEntryOfSnoc(run, x2);
    }
    CoverageEntriesOfRevision([x1, x2]);
  }

  /** The cells the template reads for a one-column coverage chart. */
  lemma MultiPlatformCoverageTable(coverage: seq<CoverageEntry>)
    requires coverage == [CoverageEntry("123", 12, 6)]
    ensures var t := CoverageTable(coverage);
      t[0][1] == Text("[123]") && t[1][1] == Number(12) && t[2][1] == Number(6)
  {
  }
}
