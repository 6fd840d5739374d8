# Bitten core in Dafny

Bitten is a continuous-integration plugin for Trac. A build slave runs external
tools, reads their output line by line, collects files through include and
exclude patterns, and reports back. The Trac side draws charts and summaries
from the stored reports. This project models the pure, sequential parts of that
system and proves properties about them:

- **Output lines** (`OutputLines`, in `lines.dfy`).
  - `_extract_lines` turns the chunks read from a pipe into complete lines. It keeps any unterminated tail buffered.
  - `_combine` zips several streams, padding the exhausted ones with `None`.
  - Output lines are cleaned with `rstrip` followed by removal of NUL bytes.
  - The three ways `execute` hands lines to its caller are modelled:
    - the threaded reader;
    - the Windows temp-file path;
    - the posix `select` loop.
  - The posix loop is driven by a sequence of `select` outcomes, given as input.
  - Windows argument quoting is modelled too.
- **Shell patterns** (`Glob`, in `glob.dfy`). This is `fnmatch.fnmatchcase` from Python's standard library.
  - The pattern is translated the way `fnmatch.translate` does it: `*`, `?`, literals, and `[...]`/`[!...]` classes with ranges.
  - Matching is whole-string and case-sensitive, over the resulting tokens.
- **File sets** (`FileSets`, in `fileset.dfy`). This is `FileSet`.
  - The walk of the base directory is an input sequence of `(dirpath, filenames)` entries.
  - The path separator is a parameter.
  - The include and exclude lists arrive already split into patterns.
- **JSON** (`Json`, in `json.dfy`). This is the fallback `javascript_quote` and `to_json`.
  - Values are a closed `PyValue` datatype.
  - Dictionary keys are strings.
- **Maximal runs** (`Runs`, in `runs.dfy`). This is the grouping of consecutive rows of equal revision that both chart generators perform.
- **Charts** (`Charts`, in `charts.dfy`).
  - The request-path recogniser.
  - The test-results fold and the coverage fold, each over an input sequence of query rows.
  - The tables the folds produce.
- **Coverage report** (`CoverageReport`, in `coverage.dfy`).
  - The chart series.
  - The `render_summary` totals.
  - The annotation data and the per-line annotation.
- `wrappers.dfy` holds `Option` and `Result`. `pystr.dfy` holds the Python string operations used throughout: `rstrip`, `replace`, `split()` and `join`.
- `json_examples.dfy` and `charts_examples.dfy` hold the concrete cases from the repository's tests.

Every operation has a reference definition or an inverse it is proved against:

| Operation | Proved against |
|---|---|
| line extraction | the line splitter, and it conserves every byte |
| `_combine` | an index-wise zip-longest |
| argument quoting | its unquoting |
| `javascript_quote` | an unquoting parser |
| integer printing | a parser |
| key sorting | a uniqueness lemma for sorted permutations |
| the test and coverage loops | the fold over maximal runs |
| `render_summary`'s loop | a fold over the listed units |
| the glob matcher | an explicit witness split of the name |

Where the written code and the documented behaviour differ, the model follows
the code, with one exception noted under JSON:

- **Lines:**
  - The `select` loop never flushes the leftover buffer once both pipes are at end of stream. An unterminated last line is dropped.
  - A `\r\n` split across two reads produces an extra empty line.
  - The `select` path does not remove NUL bytes.
  - A line is cleaned by `rstrip` before NUL removal, so `"a \0"` cleans to `"a "`.
- **JSON:**
  - `bitten/util/json.py:43` uses `re` without importing it. That line runs at module level when the fallback copy of `javascript_quote` is defined (`bitten/util/json.py:39-50`), so as written importing the module on that path raises `NameError` and the fallback `to_json` is never defined. This is the exception: the model implements the substitution that line evidently intends, replacing every character in the escape table by its escape.
  - The dictionary branch sorts `(key, value)` pairs. With distinct keys that is an ordering by key, which is what the model does.
- **Globs:** a reversed range such as `[z-a]` is an error, as it is in Python's `re` when the translated pattern is compiled. The error propagates out of `FileSet` as an error result.
- **Annotation:** `annotate_row` indexes its data with `lineno - 1`.
  - A line number of 0 or below reads the data from its end, as Python's negative indexing does.
  - Below `-len(data)` it is an `IndexError`, modelled as an error result.

## Model

| member | source | states |
|---|---|---|
| PyStr.Rstrip | bitten/build/api.py:341 | the result is a prefix of the input that does not end in whitespace, and everything cut off is whitespace |
| PyStr.RemoveChar | bitten/build/api.py:171 | the removed character no longer occurs, the result is no longer than the input, and input without the character is unchanged |
| PyStr.RemoveCharMembers | bitten/build/api.py:171 | a character is in the result exactly when it is in the input and is not the removed one |
| PyStr.SplitWords | bitten/report/coverage.py:256 | unicode `split()` yields non-empty words free of every unicode whitespace character (including the no-break and ideographic spaces), at most one per input character |
| PyStr.SplitWordsKeepsContent | bitten/report/coverage.py:256 | the words laid end to end are exactly the input's characters that are not unicode whitespace, in order |
| PyStr.SplitJoinRoundTrip | bitten/report/coverage.py:256 | splitting words joined by single spaces gives back the words |
| OutputLines.SplitLinesIsLineSplit | bitten/build/api.py:328 | `splitlines(True)` cuts the buffer into pieces that concatenate to it, each ending at the first terminator (`\n`, `\r\n` or `\r`), with only the last possibly unterminated |
| OutputLines.LineSplitUnique | bitten/build/api.py:328 | any split with those properties is the one `splitlines(True)` returns |
| OutputLines.ExtractRawFacts | bitten/build/api.py:327-339 | the extracted lines followed by the retained buffer reproduce the concatenated chunks; every extracted line ends in a terminator; the buffer is empty or one non-empty unterminated fragment |
| OutputLines.ExtractLines | bitten/build/api.py:321-341 | the returned lines correspond one to one with the raw lines, each being its raw line with trailing whitespace removed; the raw lines and buffer conserve the input bytes; the buffer is empty or one unterminated fragment |
| OutputLines.PendingIsStable | bitten/build/api.py:329-339 | extracting from a buffer that is empty or one unterminated fragment returns no lines and leaves it as it was |
| OutputLines.ExtractAgainIsNoOp | bitten/build/api.py:321-341 | running the extraction again on its own leftover buffer returns no lines and leaves the buffer unchanged |
| OutputLines.SplitCrLfGivesExtraLine | bitten/build/api.py:327-339 | a `\r\n` split across two reads gives a line and then an extra empty line, while the same bytes in one read give a single line |
| OutputLines.MaxLength | bitten/build/api.py:41-51 | the length of the longest input, 0 for no inputs: the number of tuples `_combine` yields |
| OutputLines.Combine | bitten/build/api.py:38-52 | yields as many tuples as the longest input, each with one slot per input; slot j of tuple i is input j's i-th item, or `None` once input j is exhausted; it equals the zip-longest reference |
| OutputLines.Zip2 | bitten/build/api.py:243 | the two-stream `_combine`: as long as the longer stream, pairing the i-th items with `None` padding |
| OutputLines.Zip2IsZipLongest | bitten/build/api.py:38-52 | the two-stream zip agrees pair by pair with the general `_combine` on two inputs |
| OutputLines.Zip2Sides | bitten/build/api.py:38-52 | reading back the non-`None` first or second slots of the zipped pairs gives back each stream unchanged |
| OutputLines.CleanLine | bitten/build/api.py:171 | a cleaned line holds no NUL, is no longer than the line, uses only the line's characters, and an empty line stays empty |
| OutputLines.CleanLineWithoutNul | bitten/build/api.py:171 | for a line without NUL, cleaning is exactly `rstrip` |
| OutputLines.CleanLineMayEndInSpace | bitten/build/api.py:245 | because NULs are removed after `rstrip`, `"a \0"` cleans to `"a "`, which still ends in whitespace |
| OutputLines.ThreadedYield | bitten/build/api.py:169-175 | for the lines dequeued before the loop stops, one yielded pair per line, with the stdout slot filled exactly for stdout lines and the stderr slot exactly for stderr lines, and neither ever holding a NUL |
| OutputLines.ThreadedYieldKeepsStreamOrder | bitten/build/api.py:109-114 | of the lines dequeued before the loop stops, the stdout values yielded are the cleaned stdout lines in the order that pipe produced them, and the same for stderr, whatever the interleaving of the queue |
| OutputLines.WindowsYield | bitten/build/api.py:243-247 | one pair per line of the output file, stderr slot always `None`, and the stdout slots are the cleaned lines in order |
| OutputLines.StepStream | bitten/build/api.py:296-309 | after one read on one pipe, the new raw lines and the new buffer hold exactly the old buffer's bytes plus the bytes read, and the buffer is again empty or one unterminated fragment |
| OutputLines.SelectLoopFrom | bitten/build/api.py:283-312 | the loop keeps each buffer empty or one unterminated fragment across all rounds |
| OutputLines.SelectLoopConserves | bitten/build/api.py:296-309 | over a whole run, each stream's extracted lines plus its final buffer are exactly its starting buffer plus every byte read from it |
| OutputLines.SelectLoopKeepsStreamOrder | bitten/build/api.py:308-312 | the first slots of the yielded pairs are exactly stdout's extracted lines, right-stripped, in order, and the second slots stderr's |
| OutputLines.SelectLoopYieldsLine | bitten/build/api.py:308-312 | a single terminated stdout line read in one round is yielded once, without its terminator, paired with `None` |
| OutputLines.SelectLoopDropsUnterminatedTail | bitten/build/api.py:283-314 | output whose last line has no terminator ends the loop with that fragment still buffered and never yielded |
| OutputLines.QuoteArgRoundTrip | bitten/build/api.py:196-198 | quoting an argument can be undone, and it contains a space exactly when the quoted form does |
| OutputLines.QuoteArgs | bitten/build/api.py:195-198 | every argument with a space is wrapped in double quotes, every other argument is kept as it is, and each one can be recovered |
| Glob.ParseItems | bitten/build/api.py:382-383 | a bracket body parses into at most one item per character, every range running upwards; it fails only where the body holds a reversed range |
| Glob.ParseItemsWithoutDash | bitten/build/api.py:382-383 | a body without `-` always parses, and the class accepts exactly the characters written in it |
| Glob.Translate | bitten/build/api.py:382-383 | a translated pattern has no more tokens than the pattern has characters, and a non-empty pattern gives at least one token |
| Glob.MatchTokens | bitten/build/api.py:382-383 | a match needs at least one character of the name per non-star token, and exactly one per token when there is no star |
| Glob.FnMatchCase | bitten/build/api.py:382-383 | `fnmatchcase` fails exactly when the pattern cannot be translated, and otherwise answers whether the name can be cut into one piece per pattern token with every piece accepted by its token |
| Glob.MatchIffWitness | bitten/build/api.py:382-383 | the matcher accepts a name exactly when the name can be cut into one piece per token, each accepted by its token (a star taking any piece) |
| Glob.PlainPatternMatchesItself | bitten/build/api.py:382-383 | a pattern without special characters matches exactly the name equal to it |
| Glob.PrefixPattern | bitten/build/api.py:391-392 | `p*` matches exactly the names starting with `p`, including names holding `/` |
| Glob.InfixPattern | bitten/build/api.py:391-392 | `*p*` matches every name containing `p` |
| Glob.StarMatchesAny | bitten/build/api.py:382-383 | `*` alone matches every name |
| Glob.NegationFlips | bitten/build/api.py:382-383 | for a valid class body, `fnmatchcase` answers for `[!body]` and for `[body]`; on a one-character name the two answers are opposite, and any other name matches neither |
| Glob.TranslateRender | bitten/build/api.py:382-383 | for tokens that are `*`, `?` or literals other than `*`, `?` and `[` (no classes), rendering them back to pattern text and translating it again gives the same tokens |
| Glob.NegatedClassExample | bitten/build/api.py:382-383 | `[!ab]` translates to one negated class of `a` and `b` |
| Glob.LeadingBracketExample | bitten/build/api.py:382-383 | a `]` right after `[` is a member of the class, not its end |
| Glob.RangeExamples | bitten/build/api.py:382-383 | `[a-c]` is one range, and `[z-a]` is an error |
| Glob.UnclosedBracketExample | bitten/build/api.py:382-383 | an unclosed `[` is a literal bracket |
| FileSets.RelativeDir | bitten/build/api.py:372 | the relative directory is a suffix of the walked path, with the base directory and one separator dropped when the path is longer than the base |
| FileSets.RelativeDirOfWalk | bitten/build/api.py:371-372 | the base directory itself is relative path `""`, and `base + sep + rel` is `rel` |
| FileSets.JoinPath | bitten/build/api.py:375 | the joined path starts with the directory and ends with the name, with exactly one `sep` character between them only when the directory is non-empty and does not already end in one |
| FileSets.Normalize | bitten/build/api.py:376-377 | every separator becomes `/` and every other character is kept, so no native separator other than `/` survives |
| FileSets.EntryCandidates | bitten/build/api.py:374-377 | one candidate per file name in order, carrying the name, the joined path and its `/`-normalised form |
| FileSets.CandidatesCount | bitten/build/api.py:371-377 | the walk yields exactly one candidate per file it lists |
| FileSets.AnyHit | bitten/build/api.py:381-385 | answers whether some pattern matches the normalised path or the bare name; it can fail only on an untranslatable pattern and never fails when all are valid |
| FileSets.Decide | bitten/build/api.py:379-395 | a file is kept exactly when the include list is empty or some include pattern hits it, and no exclude pattern hits it |
| FileSets.Collect | bitten/build/api.py:371-396 | the collected list is the kept candidates' paths in walk order, and collection succeeds whenever every pattern is valid |
| FileSets.NewFileSet | bitten/build/api.py:351-396 | the set records the include patterns, the default excludes followed by the given ones, and the kept paths of the walk |
| FileSets.NewFileSetSucceeds | bitten/build/api.py:360-396 | with valid include and exclude patterns the constructor always succeeds |
| FileSets.KeptPathsMembership | bitten/build/api.py:379-396 | a path is in the list exactly when some walked candidate with that path is kept |
| FileSets.KeptPathsInOrder | bitten/build/api.py:395-396 | the list is never longer than the walk, equals all the paths in walk order when all are kept, and is empty when none is |
| FileSets.IterateOfNewFileSet | bitten/build/api.py:371-401 | `Iterate` (`__iter__`) on a constructed set yields the kept walked paths in walk order, never more names than the walk lists |
| FileSets.ContainsIffKept | bitten/build/api.py:403-408 | `Contains` (`__contains__`) on a constructed file set holds exactly when the name is the path of some kept candidate of the walk |
| FileSets.ExcludeWins | bitten/build/api.py:389-396 | a file hit by any exclude pattern is never kept, whatever the include patterns say |
| FileSets.DefaultExcludesValid | bitten/build/api.py:348-349 | every default exclude pattern translates |
| FileSets.DesktopFilesExcluded | bitten/build/api.py:348-349 | `.DS_Store` and `Thumbs.db` are never kept, in any directory |
| FileSets.VersionControlExcluded | bitten/build/api.py:348 | any file under a `CVS/` or `.svn/` directory, at any depth, is never kept |
| Json.Escape | bitten/util/json.py:39-42 | a character in the table becomes an escape of at least two characters starting with a backslash, any other character is copied, and no escape holds a control character |
| Json.EscapeAll | bitten/util/json.py:43-50 | the substitution is never shorter than its input, leaves no character below 0x20, and leaves text needing no escapes unchanged |
| Json.JsQuote | bitten/util/json.py:44-50 | the quoted text is at least as long as the input, holds no character below 0x20, and the empty string maps to the empty string |
| Json.QuoteRoundTrip | bitten/util/json.py:39-50 | reading the escapes back gives exactly the original text |
| Json.QuoteBetweenPlainText | bitten/util/tests/json.py:30 | a double quote between plain text is the only thing escaped, as in `a " quote` |
| Json.ControlExamples | bitten/util/json.py:41-42 | newline uses its named escape, and other control characters use `\u00XX` with lower-case hex digits |
| Json.DigitsRoundTrip | bitten/util/json.py:62-63 | the decimal digits of a natural number read back as that number |
| Json.IntToString | bitten/util/json.py:62-63 | the text of an integer is non-empty, holds no control character, and starts with `-` exactly for negative integers |
| Json.IntRoundTrip | bitten/util/json.py:62-63 | parsing the text of an integer gives back the integer |
| Json.SortByKey | bitten/util/json.py:70 | the sorted entries are a permutation of the input, in ascending key order |
| Json.SortedUnique | bitten/util/json.py:69-70 | two key-sorted permutations of the same entries with distinct keys are equal, so the order of the output does not depend on the input order |
| Json.ToJson | bitten/util/json.py:52-72 | encoding succeeds exactly for values built only from supported kinds, and then holds no control character; anything else is a type error |
| Json.ListJson | bitten/util/json.py:66-67 | a list encodes exactly when all its elements do |
| Json.DictJson | bitten/util/json.py:68-70 | a dictionary encodes exactly when all its values do |
| Json.ScalarEncodings | bitten/util/json.py:54-63 | `None`, `False` and `True` give `null`, `false` and `true`; booleans are checked before integers; an integer gives its decimal text, which parses back; a string gives its quoted form between double quotes |
| Json.DictOrderIrrelevant | bitten/util/json.py:68-70 | dictionaries with the same entries and distinct keys encode identically, whatever their order |
| Json.ListOfEncoded | bitten/util/json.py:66-67 | a list encodes as its elements' encodings joined by commas between brackets, with no spaces |
| Json.DictOfEncoded | bitten/util/json.py:68-70 | a dictionary encodes as one quoted `key:value` member per entry in ascending key order, joined by commas between braces |
| JsonExamples.FlagListExample | bitten/util/tests/json.py:33-34 | `[True, False]` encodes as `[true,false]` |
| JsonExamples.NestedListExample | bitten/util/tests/json.py:33-34 | `[1, 2, [True, False]]` encodes as `[1,2,[true,false]]`, with no spaces |
| JsonExamples.NullZeroExample | bitten/util/tests/json.py:35-37 | `[None, 0]` encodes as `[null,0]` |
| JsonExamples.ExampleKeysSort | bitten/util/tests/json.py:35-37 | the keys `one`, `two` and `other` sort as `one`, `other`, `two` |
| JsonExamples.DictExample | bitten/util/tests/json.py:35-37 | the dictionary from the test encodes its members in that key order, joined by commas |
| JsonExamples.SortedExampleEncoding | bitten/util/tests/json.py:35-37 | any insertion order of those keys gives the same encoding |
| Runs.Split | bitten/trac_ext/charts.py:74-78 | the runs are non-empty and no more numerous than the rows, and the last run ends with the last row |
| Runs.SplitIsRunSplit | bitten/trac_ext/charts.py:74-78 | the runs concatenate to the rows, each has a single key, and neighbouring runs differ in key, so they are the maximal runs |
| Runs.RunSplitUnique | bitten/trac_ext/charts.py:74-78 | a split into maximal runs is unique |
| Charts.MatchRequest | bitten/trac_ext/charts.py:26-31 | on success the config is a non-empty run of `[A-Za-z0-9_.-]` and the category a non-empty run of `[A-Za-z0-9_]` |
| Charts.MatchRequestSound | bitten/trac_ext/charts.py:26-31 | on success the path starts with `/build/`, the config, `/chart/` and the category, and the category is not followed by another word character |
| Charts.MatchRequestComplete | bitten/trac_ext/charts.py:26-31 | every path of that shape is recognised, with exactly that config and category, whatever follows |
| Charts.TrunkTestChart | bitten/trac_ext/charts.py:27 | `/build/trunk/chart/test` gives config `trunk` and category `test` |
| Charts.DottedConfigChart | bitten/trac_ext/charts.py:27 | dots and dashes may appear in the config; a trailing slash is ignored |
| Charts.MissingCategory | bitten/trac_ext/charts.py:27 | a path with an empty category is not recognised |
| Charts.MissingConfig | bitten/trac_ext/charts.py:27 | a path with an empty config is not recognised |
| Charts.EntryOfSnoc | bitten/trac_ext/charts.py:79-86 | a further row of the same revision raises the total to the current platform's running sum when larger, and the failures to the row's count when the row is not a success |
| Charts.FailuresAtMostTotal | bitten/trac_ext/charts.py:83-86 | in every column the failure count is at most the largest per-platform test count |
| Charts.TestEntriesOfRevision | bitten/trac_ext/charts.py:71-86 | rows of a single revision make a single column |
| Charts.AddTestRow | bitten/trac_ext/charts.py:75-86 | one pass of the loop body keeps `tests` equal to the columns of the rows seen so far, and `prev_rev`, `prev_platform` and `platform_total` equal to the last row's revision, platform and running platform sum |
| Charts.TestResultsChart | bitten/trac_ext/charts.py:71-86 | the loop yields one column per maximal run of equal revision: the largest per-platform sum of counts and the largest non-success count; there are no more columns than rows, and failures never exceed the total |
| Charts.TestEntriesBounded | bitten/trac_ext/charts.py:71-86 | there are no more columns than rows, and in every column the failures are at most the total |
| Charts.CoverageEntryOfSnoc | bitten/trac_ext/charts.py:132-135 | a further row of the same revision raises the lines and the coverage to that row's values where they are larger |
| Charts.CoverageEntriesOfRevision | bitten/trac_ext/charts.py:127-136 | rows of a single revision make a single column |
| Charts.AddCoverageRow | bitten/trac_ext/charts.py:130-136 | one pass of the loop body keeps `coverage` equal to the columns of the rows seen so far and `prev_rev` equal to the last row's revision |
| Charts.CoverageChart | bitten/trac_ext/charts.py:127-136 | one column per maximal run of equal revision, holding the maxima of lines and coverage in that run, floored at 0; no more columns than rows |
| Charts.CoverageEntriesBounded | bitten/trac_ext/charts.py:127-136 | every column is the fold of its run and holds non-negative values |
| Charts.TestTable | bitten/trac_ext/charts.py:89-93 | three rows headed `''`, `Total` and `Failures`, each one longer than the column count, holding `[rev]`, the totals and the failures column by column |
| Charts.CoverageTable | bitten/trac_ext/charts.py:139-143 | three rows headed `''`, `Lines of code` and `Coverage`, each one longer than the column count, holding `[rev]`, the lines and the coverage column by column |
| Charts.TestTableRoundTrip | bitten/trac_ext/charts.py:89-93 | every unit-test column can be read back off the table: the revision between the brackets of its header cell and the two counts below it |
| Charts.CoverageTableRoundTrip | bitten/trac_ext/charts.py:139-143 | every coverage column can be read back off the table: the revision between the brackets of its header cell and the two values below it |
| ChartExamples.NoReports | bitten/trac_ext/tests/charts.py:32-41 | with no rows both tables hold only their three headings |
| ChartExamples.SinglePlatformTests | bitten/trac_ext/tests/charts.py:43-63 | one platform with one failing and two passing tests gives total 3 and failures 1 |
| ChartExamples.SinglePlatformTestTable | bitten/trac_ext/tests/charts.py:58-63 | that column is shown as `[123]`, 3 and 1 |
| ChartExamples.MultiPlatformTests | bitten/trac_ext/tests/charts.py:65-94 | two platforms of three tests each give total 3, not 6, and failures 2 |
| ChartExamples.SinglePlatformCoverage | bitten/trac_ext/tests/charts.py:122-142 | 12 lines at 25% coverage give 12 lines and 3 covered |
| ChartExamples.MultiPlatformCoverage | bitten/trac_ext/tests/charts.py:144-171 | two platforms at 3 and 6 covered lines give the larger, 6 |
| ChartExamples.MultiPlatformCoverageTable | bitten/trac_ext/tests/charts.py:165-171 | that column is shown as `[123]`, 12 and 6 |
| CoverageReport.ChartSeries | bitten/report/coverage.py:67-71 | both series are as long as the column list; the `Lines of code` series pairs each column's revision with its line count, and the `Coverage` series with its covered count |
| CoverageReport.SeriesRoundTrip | bitten/report/coverage.py:67-71 | the columns can be rebuilt from the two series |
| CoverageReport.ChartData | bitten/report/coverage.py:56-71 | the series are the maximal-run fold of the rows, with lines and coverage the running maxima per revision |
| CoverageReport.UnitOf | bitten/report/coverage.py:121-125 | a listed unit carries the row's name, its non-zero line count and its coverage, and a link exactly when the row names a non-empty file |
| CoverageReport.Units | bitten/report/coverage.py:116-125 | a unit is listed for every row with both values present and a non-zero line count, and for no other row |
| CoverageReport.FloorDiv | bitten/report/coverage.py:131 | `//` rounds toward negative infinity for either sign of the divisor |
| CoverageReport.FloorDivUnique | bitten/report/coverage.py:131 | for a positive divisor the floor quotient is the only integer between the bounds |
| CoverageReport.RenderSummary | bitten/report/coverage.py:114-131 | the loop produces the units, the total lines and the total coverage of the reference summary |
| CoverageReport.SummaryBounds | bitten/report/coverage.py:127-131 | when every listed coverage lies in a range, so does the total coverage, and the total lines are positive once any unit is listed |
| CoverageReport.EmptySummary | bitten/report/coverage.py:116-131 | with no listed unit there are no units, no lines and coverage 0 |
| CoverageReport.AnnotationData | bitten/report/coverage.py:254-263 | no stored data gives an empty list, and every entry is a non-empty word free of unicode whitespace |
| CoverageReport.NoBreakSpaceSeparates | bitten/report/coverage.py:256 | a no-break space between two stored entries separates them, as unicode `split()` does |
| CoverageReport.LineHitsExample | bitten/report/coverage.py:169-171 | the stored `5 - 0` gives the entries `5`, `-` and `0` |
| CoverageReport.AnnotateRow | bitten/report/coverage.py:265-277 | past the end of the data the cell is empty; within it, `-` gives an empty cell, `0` the `uncovered` style, and anything else the `covered` style; only an index below the start of the data fails |
| CoverageReport.AnnotationRoundTrip | bitten/report/coverage.py:268-277 | for a line within the data, the cell shows exactly that line's entry |
| CoverageReport.AnnotateExample | bitten/report/coverage.py:178-183 | lines 1, 2 and 3 of that data give a `covered` 5, an empty cell and an `uncovered` 0 |

## Left out

- Process execution is left out: `subprocess`, `popen2`, the reader and writer threads, the `Queue`, `select` itself, sleeping, timeouts and `kill`, `os.system`, temporary files and `chdir`. The reader threads are represented by the order in which their lines reach the queue, and `select` by the sequence of its outcomes. Both are inputs.
- Writing the input to the child is left out. It does not affect what is read.
- `_encode` and `_decode` are left out because they depend on the platform's file-system and terminal encodings. Lines are characters and decoding is the identity.
- `shlex.split` of the pattern strings and `os.walk` are left out. The pattern lists and the walk are inputs.
- The SQL queries, the database cursors and the Trac plumbing are left out: `req.hdf`, `href`, `add_warning`, the templates, the request filter and the `ExtensionPoint` dispatch of `process_request`. The folds read their rows from an input sequence. The `href` of a unit is represented by whether it has one.
- Floats are left out: `repr(float)` in `to_json`, and `float(cov)` in `render_summary`. Coverage percentages are integers, so `int(cov)` is the identity.
- `to_json` in the model rejects floats, which the source encodes.
- The library-backed `to_json` branches are left out: Trac's `to_json` and the standard `json.dumps`. These are foreign code.
- Python's `unicode` and `long` are not separate kinds. Strings are one kind and integers are unbounded.
- Tuples are encoded as lists, since they encode identically.
- Dictionary keys are strings only.
- OutputLines.ThreadedYield: models only the lines dequeued before the loop stops. The loop at `bitten/build/api.py:176-178` breaks at the first empty poll after the process has exited, so a line a reader thread queues after that is never yielded. Which lines arrive in time depends on thread scheduling and is not modelled.
- CoverageReport.RenderSummary: a stored line count or coverage is an `Option<int>`. A missing value is skipped, as `except TypeError` at `bitten/report/coverage.py:118-120` does. A present but non-numeric value makes `int()` or `float()` raise `ValueError`, which that handler does not catch. The model cannot express such a value.
- Glob.TranslateRender: covers only tokens without classes and without the literals `*`, `?` and `[`. A class would need its body printed back with a leading `]` and `!` kept in place, and a literal special character has no plain spelling in a pattern.
- FileSets.JoinPath: takes one separator. On Windows `os.path.join` also treats a directory ending in `/` as already separated. The relative directories cut from `os.walk`'s paths do not end in `/`, so the two agree on the paths the file set builds.
- `contrib/deletebuild.py`, `bitten/util/compat.py` and the repository's other modules are not part of this model.
