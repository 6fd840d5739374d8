/**
  The coverage report plugins: the data of the coverage chart, the
  per-build summary table with its totals, and the per-line source
  annotation read from a build's `line_hits` report item.
 */
module CoverageReport {
  import opened Wrappers
  import opened PyStr
  import opened Charts

  // ---------------------------------------------------------------------
  // Chart data
  // ---------------------------------------------------------------------

  /** A point of a chart series: the revision and a count. */
  datatype Point = Point(rev: string, value: int)

  /**
    The two series of the coverage chart: `Lines of code` pairs each
    column's revision with its line count, `Coverage` with its covered-line
    count.
   */
  datatype Series = Series(lines: seq<Point>, covered: seq<Point>)

  function ChartSeries(coverage: seq<CoverageEntry>): (s: Series)
    ensures |s.lines| == |s.covered| == |coverage|
    ensures forall k :: 0 <= k < |coverage| ==>
      s.lines[k].rev == s.covered[k].rev == coverage[k].rev
    ensures forall k :: 0 <= k < |coverage| ==>
      s.lines[k].value == coverage[k].lines && s.covered[k].value == coverage[k].covered
  {
    Series(seq(|coverage|, k requires 0 <= k < |coverage| => Point(coverage[k].rev, coverage[k].lines)),
           seq(|coverage|, k requires 0 <= k < |coverage| => Point(coverage[k].rev, coverage[k].covered)))
  }

  /** Reads the chart columns back off two series of equal length. */
  function Columns(s: Series): (coverage: seq<CoverageEntry>)
    requires |s.lines| == |s.covered|
    ensures |coverage| == |s.lines|
  {
    seq(|s.lines|, k requires 0 <= k < |s.lines| => CoverageEntry(s.lines[k].rev, s.lines[k].value, s.covered[k].value))
  }

  /** The series lose nothing: every column can be read back from them. */
  lemma SeriesRoundTrip(coverage: seq<CoverageEntry>)
    ensures Columns(ChartSeries(coverage)) == coverage
  {
    var back := Columns(ChartSeries(coverage));
    assert forall k :: 0 <= k < |coverage| ==> back[k] == coverage[k];
  }

  /**
    The chart generator: the same fold over the query rows as the chart
    plugin's, then the two series.
   */
  method ChartData(rows: seq<CoverageRow>) returns (s: Series)
    ensures |s.lines| == |s.covered| && Columns(s) == CoverageEntries(rows)
  {
    var coverage := CoverageChart(rows);
    s := ChartSeries(coverage);
    SeriesRoundTrip(coverage);
  }

  // ---------------------------------------------------------------------
  // Summary
  // ---------------------------------------------------------------------

  /**
    A row of the summary query: a unit's name, its file (`NULL` when the
    report has none), and its line count and coverage percentage, each
    `NULL` when the report item is missing. Percentages are whole numbers.
   */
  datatype SummaryRow = SummaryRow(unit: string, file: Option<string>, loc: Option<int>, cov: Option<int>)

  /** A unit listed in the summary, linked to its file when it has one. */
  datatype Unit = Unit(name: string, loc: int, cov: int, file: Option<string>)

  datatype Summary = Summary(units: seq<Unit>, totalLoc: int, coverage: int)

  /**
    A row is listed when both numbers are present (a missing one makes the
    conversion fail and the row is skipped) and its line count is non-zero.
   */
  predicate Listed(r: SummaryRow) {
    r.loc.Some? && r.cov.Some? && r.loc.value != 0
  }

  /** A file name links the unit only when it is present and non-empty. */
  function UnitOf(r: SummaryRow): (u: Unit)
    requires Listed(r)
    ensures u.name == r.unit && u.loc == r.loc.value != 0 && u.cov == r.cov.value
    ensures u.file.Some? <==> r.file.Some? && r.file.value != ""
    ensures u.file.Some? ==> u.file == r.file
  {
    Unit(r.unit, r.loc.value, r.cov.value, if r.file.Some? && r.file.value != "" then r.file else None)
  }

  /** The units of the listed rows, in row order. */
  function Units(rows: seq<SummaryRow>): (units: seq<Unit>)
    ensures |units| <= |rows|
    ensures forall i :: 0 <= i < |rows| && Listed(rows[i]) ==> UnitOf(rows[i]) in units
    ensures forall u :: u in units ==> exists i :: 0 <= i < |rows| && Listed(rows[i]) && UnitOf(rows[i]) == u
  {
    if rows == [] then []
    else
      var front := Units(rows[..|rows| - 1]);
      var r := rows[|rows| - 1];
      assert forall i :: 0 <= i < |rows| - 1 ==> rows[i] == rows[..|rows| - 1][i];
      if Listed(r) then front + [UnitOf(r)] else front
  }

  /** Total line count of the units. */
  function TotalLoc(units: seq<Unit>): int
  {
    if units == [] then 0 else TotalLoc(units[..|units| - 1]) + units[|units| - 1].loc
  }

  /** Total of line count times percentage over the units. */
  function Weighted(units: seq<Unit>): int
  {
    if units == [] then 0 else Weighted(units[..|units| - 1]) + units[|units| - 1].loc * units[|units| - 1].cov
  }

  /** Python's `a // b` on integers: the quotient rounded towards minus infinity. */
  function FloorDiv(a: int, b: int): (q: int)
    requires b != 0
    ensures b > 0 ==> b * q <= a < b * q + b
    ensures b < 0 ==> b * q + b < a <= b * q
  {
    if b > 0 then a / b else (-a) / (-b)
  }

  /** The quotient of the floor division is the only integer with its bounds. */
  lemma FloorDivUnique(a: int, b: int, q: int)
    requires b > 0 && b * q <= a < b * q + b
    ensures FloorDiv(a, b) == q
  {
    var r := FloorDiv(a, b);
    if r < q {
      MulMonotone(b, r + 1, q);
    } else if r > q {
      MulMonotone(b, q + 1, r);
    }
  }

  lemma MulMonotone(a: int, x: int, y: int)
    requires a >= 0 && x <= y
    ensures a * x <= a * y
  {
    assert a * y - a * x == a * (y - x);
  }

  /**
    The summary of a build step: the listed units, their total line count,
    and the line-weighted mean percentage rounded down (0 for no lines).
   */
  function Summarize(rows: seq<SummaryRow>): Summary
  {
    var units := Units(rows);
    var total := TotalLoc(units);
    Summary(units, total, if total == 0 then 0 else FloorDiv(Weighted(units), total))
  }

  lemma UnitsSnoc(rows: seq<SummaryRow>, r: SummaryRow)
    ensures Units(rows + [r]) == Units(rows) + if Listed(r) then [UnitOf(r)] else []
  {
    assert (rows + [r])[..|rows|] == rows;
  }

  lemma TotalsSnoc(units: seq<Unit>, u: Unit)
    ensures TotalLoc(units + [u]) == TotalLoc(units) + u.loc
    ensures Weighted(units + [u]) == Weighted(units) + u.loc * u.cov
  {
    assert (units + [u])[..|units|] == units;
  }

  /**
    The summary loop: skips rows missing a number, lists the others with a
    non-zero line count and accumulates both totals, then divides.
   */
  method RenderSummary(rows: seq<SummaryRow>) returns (s: Summary)
    ensures s == Summarize(rows)
  {
    var units: seq<Unit> := [];
    var totalLoc, totalCov := 0, 0;
    var i := 0;
    while i < |rows|
      invariant 0 <= i <= |rows|
      invariant units == Units(rows[..i])
      invariant totalLoc == TotalLoc(units) && totalCov == Weighted(units)
    {
      var r := rows[i];
      assert rows[..i + 1] == rows[..i] + [r];
      UnitsSnoc(rows[..i], r);
      if r.loc.Some? && r.cov.Some? {
        var loc, cov := r.loc.value, r.cov.value;
        if loc != 0 {
          var u := Unit(r.unit, loc, cov, if r.file.Some? && r.file.value != "" then r.file else None);
          TotalsSnoc(units, u);
          units := units + [u];
          totalLoc := totalLoc + loc;
          totalCov := totalCov + loc * cov;
        }
      }
      i := i + 1;
    }
    assert rows[..i] == rows;
    var coverage := 0;
    if totalLoc != 0 {
      coverage := FloorDiv(totalCov, totalLoc);
    }
    s := Summary(units, totalLoc, coverage);
  }

  /** With positive line counts, percentages between `lo` and `hi` bound the weighted total. */
  lemma {:induction false} WeightedBounds(units: seq<Unit>, lo: int, hi: int)
    requires forall k :: 0 <= k < |units| ==> units[k].loc > 0 && lo <= units[k].cov <= hi
    ensures lo * TotalLoc(units) <= Weighted(units) <= hi * TotalLoc(units)
    ensures units != [] ==> TotalLoc(units) > 0
    decreases |units|
  {
    if units != [] {
      var front := units[..|units| - 1];
      var u := units[|units| - 1];
      assert units == front + [u];
      WeightedBounds(front, lo, hi);
      MulMonotone(u.loc, lo, u.cov);
      MulMonotone(u.loc, u.cov, hi);
      assert lo * (TotalLoc(front) + u.loc) == lo * TotalLoc(front) + lo * u.loc;
      assert hi * (TotalLoc(front) + u.loc) == hi * TotalLoc(front) + hi * u.loc;
    }
  }

  /**
    The total percentage is a mean: when every listed unit has a positive
    line count and a percentage in `[lo, hi]`, so does the total.
   */
  lemma SummaryBounds(rows: seq<SummaryRow>, lo: int, hi: int)
    requires forall i :: 0 <= i < |rows| && Listed(rows[i]) ==> rows[i].loc.value > 0 && lo <= rows[i].cov.value <= hi
    ensures var s := Summarize(rows); s.units != [] ==> s.totalLoc > 0 && lo <= s.coverage <= hi
  {
    var units := Units(rows);
    UnitsBounded(rows, lo, hi);
    WeightedBounds(units, lo, hi);
    if units != [] {
      MeanBounds(Weighted(units), TotalLoc(units), lo, hi);
    }
  }

  lemma UnitsBounded(rows: seq<SummaryRow>, lo: int, hi: int)
    requires forall i :: 0 <= i < |rows| && Listed(rows[i]) ==> rows[i].loc.value > 0 && lo <= rows[i].cov.value <= hi
    ensures forall k :: 0 <= k < |Units(rows)| ==> Units(rows)[k].loc > 0 && lo <= Units(rows)[k].cov <= hi
  {
    var units := Units(rows);
    forall k | 0 <= k < |units|
      ensures units[k].loc > 0 && lo <= units[k].cov <= hi
    {
      assert units[k] in units;
    }
  }

  /** A total between `lo` and `hi` times the line count divides down to between `lo` and `hi`. */
  lemma MeanBounds(w: int, t: int, lo: int, hi: int)
    requires t > 0 && lo * t <= w <= hi * t
    ensures lo <= FloorDiv(w, t) <= hi
  {
    var q := FloorDiv(w, t);
    if q < lo {
      MulMonotone(t, q + 1, lo);
    } else if q > hi {
      MulMonotone(t, hi + 1, q);
    }
  }

  /** A build step whose rows list nothing has total 0 and percentage 0. */
  lemma EmptySummary(rows: seq<SummaryRow>)
    requires forall i :: 0 <= i < |rows| ==> !Listed(rows[i])
    ensures Summarize(rows) == Summary([], 0, 0)
  {
    var units := Units(rows);
    assert forall k :: 0 <= k < |units| ==> units[k] in units;
  }

  // ---------------------------------------------------------------------
  // Source annotation
  // ---------------------------------------------------------------------

  /**
    The annotation data of a file: the whitespace-separated hit counts of
    the newest matching `line_hits` item, or nothing when there is none.
   */
  function AnnotationData(lineHits: Option<string>): (data: seq<string>)
    ensures lineHits.None? ==> data == []
    ensures forall i :: 0 <= i < |data| ==> IsWord(data[i])
  {
    match lineHits
    case None => []
    case Some(s) => SplitWords(s)
  }

  /** The header cell of an annotated line: an optional CSS class (`style`) and its text. */
  datatype Th = Th(style: Option<string>, text: string)

  const EmptyTh := Th(None, "")

  /**
    The cell for the 1-based line `lineno`. Lines past the end of the data
    and lines without code (`-`) get an empty cell, a count of `0` is
    `uncovered`, and any other entry is `covered` with that text. The index
    is used as Python uses it, so a non-positive line counts back from the
    end of the data, and one before its start is an `IndexError`.
   */
  function AnnotateRow(lineno: int, data: seq<string>): (th: Result<Th>)
    ensures th.Err? <==> lineno - 1 < -|data|
    ensures lineno > |data| ==> th == Ok(EmptyTh)
    ensures 1 <= lineno <= |data| ==> (
      var hits := data[lineno - 1];
      th.Ok?
      && (th.value == EmptyTh <==> hits == "-")
      && (th.value.style == Some("uncovered") <==> hits == "0")
      && (th.value.style == Some("covered") <==> hits != "-" && hits != "0"))
  {
    var index := lineno - 1;
    if index >= |data| then Ok(EmptyTh)
    else if index < -|data| then Err("IndexError: list index out of range")
    else
      var hits := if index >= 0 then data[index] else data[|data| + index];
      if hits == "-" then Ok(EmptyTh)
      else if hits == "0" then Ok(Th(Some("uncovered"), hits))
      else Ok(Th(Some("covered"), hits))
  }

  /** Reads a line's entry back off its cell: an empty cell stands for `-`. */
  function HitsOf(th: Th): string
  {
    if th.style.None? then "-" else th.text
  }

  /** The cell of every line of the data gives back that line's entry. */
  lemma AnnotationRoundTrip(data: seq<string>, lineno: int)
    requires 1 <= lineno <= |data|
    ensures AnnotateRow(lineno, data).Ok?
    ensures HitsOf(AnnotateRow(lineno, data).value) == data[lineno - 1]
  {
  }

  /** The stored hits `5 - 0` split into three entries. */
  lemma LineHitsExample()
    ensures AnnotationData(Some("5 - 0")) == ["5", "-", "0"]
  {
    var ws := ["5", "-", "0"];
    assert IsWord(ws[0]) && IsWord(ws[1]) && IsWord(ws[2]);
    assert Join(" ", ws[2..]) == "0";
    assert Join(" ", ws[1..]) == "- 0";
    assert Join(" ", ws) == "5 - 0";
    SplitJoinRoundTrip(ws);
  }

  /** The split is the unicode one: a no-break space separates entries too. */
  lemma NoBreakSpaceSeparates()
    ensures AnnotationData(Some("5\U{00A0}-")) == ["5", "-"]
  {
    var tail := "\U{00A0}-";
    assert "5\U{00A0}-" == "5" + tail;
    SplitWordFront("5", tail);
    SplitWordsLeadingSpace(tail);
    assert tail[1..] == "-" + [];
    SplitWordFront("-", []);
  }

  /** The three lines of that file: covered, empty, uncovered. */
  lemma AnnotateExample()
    ensures var data := AnnotationData(Some("5 - 0"));
      AnnotateRow(1, data) == Ok(Th(Some("covered"), "5"))
      && AnnotateRow(2, data) == Ok(EmptyTh)
      && AnnotateRow(3, data) == Ok(Th(Some("uncovered"), "0"))
  {
    LineHitsExample();
  }
}
