# Coverage gate model

This project models the coverage gate of the payment-abstraction repository, `tools/coverage.cjs`. The gate reads the per-file records of an lcov report, together with a list of ignore substrings. It walks the records in report order. Each record gets one of three treatments:

- **Skipped.** A record whose path starts with `"script"` or `"test"` writes nothing and is not checked.
- **Waived.** A record whose path contains an ignore-list entry writes an "Analyzing coverage for" line and an "Ignoring coverage for" line, and is not checked.
- **Checked.** Any other record writes its Analyzing line, then has its Branch, Function and Line categories checked in that order.

A category fails when `hit < found`. The first failure aborts the run with an error that names:

- the file,
- the category,
- the percentage, and
- the details whose `taken` or `hit` is 0.

Modules:

- `Wrappers` (`wrappers.dfy`): the `Option` type.
- `Strings` (`strings.dfy`): `StartsWith` and `Includes`. These are JavaScript's `startsWith` and `includes`. As in JavaScript, `Includes(s, "")` holds, so an empty ignore entry waives every file that is not skipped.
- `Coverage` (`coverage.dfy`) holds:
  - the records, categories and details;
  - `analyze`, written as `Analyze` with its filter `Missed`;
  - the per-record logic in `CheckRecord`, `Skipped`, `Ignored`, `RecordLog` and `Fails`;
  - the functional specification `Scan` of the whole pass;
  - the imperative scan. This is `Gate`, a loop with a progress log and an early return. It calls `FirstIgnoreMatch`, the inner loop over the ignore list with an early exit. `Gate` is proved to compute `Scan`.
- `CoverageProperties` (`coverage_properties.dfy`): lemmas about `Scan` and `Missed`.
- `CoverageScenarios` (`coverage_scenarios.dfy`): concrete scenarios, proved about `Scan` on small fixed reports.

Console output is modelled as a sequence of `LogLine` values. `Render` gives each one's console text. The thrown error is modelled as the outcome `Violation(report, log)`, where `log` holds the lines written before the throw. The percentage is kept as the pair `(hit, found)`; `Percentage` gives the exact rational value `100 * hit / found`.

Two details of the code are easy to misread. The model follows the code in both:

- A fully covered file writes exactly one progress line, "Analyzing coverage for …", not two.
- The filter `taken === 0 || hit === 0` excludes a detail that lacks both fields, because `undefined === 0` is false. In the model, a missing field is `None`, and `None` is never 0.

## Model

| member | source | states |
|---|---|---|
| Strings.IncludesIff | tools/coverage.cjs:11 | the substring test holds exactly when the ignore entry occurs at some position of the path |
| Strings.StartsWith | tools/coverage.cjs:6 | definition (no contract): the first characters of the path are the prefix, as `startsWith` tests |
| Strings.Includes | tools/coverage.cjs:11 | definition (no contract): the entry starts at some position of the path, as `includes` tests; its meaning is proved in IncludesIff |
| Coverage.Render | tools/coverage.cjs:8-12 | definition (no contract): the console text of the two template literals; partner lemma RenderInjective |
| Coverage.Unexercised | tools/coverage.cjs:34 | definition (no contract): the filter condition: taken is 0 or hit is 0, with an absent field never 0 |
| Coverage.Percentage | tools/coverage.cjs:31 | definition (no contract): the exact ratio 100 * hit / found, defined only when found > 0; bounded by PercentageBelowHundred |
| Coverage.Skipped | tools/coverage.cjs:6 | definition (no contract): the raw-prefix test for "script" and "test"; its effect is proved in SkippedRecordInvisible |
| Coverage.Ignored | tools/coverage.cjs:10-11 | definition (no contract): some ignore entry is a substring of the path; computed by FirstIgnoreMatch |
| Coverage.RecordLog | tools/coverage.cjs:6-12 | definition (no contract): the lines one record writes: none when skipped, Analyzing then Ignoring when waived, Analyzing otherwise; counted by TraceCounts |
| Coverage.Fails | tools/coverage.cjs:6-25 | definition (no contract): the record is neither skipped nor waived and CheckRecord reports a category |
| Coverage.Scan | tools/coverage.cjs:5-32 | definition (no contract): the whole pass, record by record, stopping at the first failing record with its report and the lines logged so far; Gate is proved to compute it, and the CoverageProperties lemmas state its properties |
| Coverage.RenderInjective | tools/coverage.cjs:8-12 | two progress lines with the same console text are the same line, so the structured log keeps all the console shows |
| Coverage.Missed | tools/coverage.cjs:34 | the missed list is a subsequence of the details (order kept), holds only entries with taken 0 or hit 0, and holds each such entry as often as the details do |
| Coverage.Analyze | tools/coverage.cjs:29-38 | no report exactly when hit >= found (so found == 0 never fails); a report carries file, section, hit, found and the missed list, and has found > 0 |
| Coverage.CheckRecord | tools/coverage.cjs:17-25 | no report exactly when all three categories are complete; otherwise the reported section is incomplete, every section checked before it (Branch before Function before Line) is complete, and the report holds that category's counts and missed list |
| Coverage.FirstIgnoreMatch | tools/coverage.cjs:10-15 | finds a match exactly when some ignore entry is a substring of the path; the index found is the first such entry |
| Coverage.Gate | tools/coverage.cjs:4-27 | the loop over the records, with its progress log and its early return, computes exactly the outcome Scan specifies |
| CoverageProperties.MissedUnique | tools/coverage.cjs:34 | any subsequence of the details that holds exactly the unexercised entries, with their multiplicities, equals Missed: the filter result is determined |
| CoverageProperties.AbsentCountersNeverMissed | tools/coverage.cjs:34 | a detail with neither taken nor hit present is never in the missed list |
| CoverageProperties.PercentageBelowHundred | tools/coverage.cjs:30-31 | whenever hit < found, 100 * hit / found is defined and lies in [0, 100) |
| CoverageProperties.ScanPasses | tools/coverage.cjs:5-26 | when no record fails, the run passes and the log is every record's progress lines in report order |
| CoverageProperties.ScanStopsAtFirstFailure | tools/coverage.cjs:5-32 | the first failing record ends the run; its first incomplete category is reported; the log holds the lines of the earlier records and then that record's Analyzing line |
| CoverageProperties.ScanPassIff | tools/coverage.cjs:5-32 | the run passes if and only if no record fails |
| CoverageProperties.ViolationFacts | tools/coverage.cjs:6-31 | a reported violation has found > 0, hit < found, a percentage in [0, 100), and a file that is not skipped, includes no ignore entry, and belongs to a failing record |
| CoverageProperties.LaterRecordsUnreached | tools/coverage.cjs:32 | records after the first failing record do not affect the outcome |
| CoverageProperties.SkippedRecordInvisible | tools/coverage.cjs:6 | removing a record whose path starts with "script" or "test" leaves the outcome and log unchanged, whatever its counts |
| CoverageProperties.IgnoredCountsIrrelevant | tools/coverage.cjs:10-15 | a waived record's counts never affect the outcome, so a waived record cannot fail |
| CoverageProperties.TraceCounts | tools/coverage.cjs:8-12 | each non-skipped record writes exactly one Analyzing line; each non-skipped ignored record writes exactly one Ignoring line |
| CoverageProperties.ViolationLogEndsWithAnalyzing | tools/coverage.cjs:8-17 | in an aborted run, the last line logged is the failing file's Analyzing line, which was written before its checks |
| CoverageScenarios.FullyCoveredFilePasses | tools/coverage.cjs:8-25 | a fully covered file passes and writes one Analyzing line |
| CoverageScenarios.MissedLineReported | tools/coverage.cjs:25-34 | 8 of 10 lines hit gives a Line report at 80 percent whose missed list is the zero-hit line only |
| CoverageScenarios.ScriptFileNotLogged | tools/coverage.cjs:6 | "script/build.js" with 0 of 100 lines passes with an empty log |
| CoverageScenarios.VendorFileWaived | tools/coverage.cjs:10-15 | "vendor/lib.js" with the ignore entry "vendor/" passes with an Analyzing and an Ignoring line despite incomplete counts |
| CoverageScenarios.EarlierViolationWins | tools/coverage.cjs:17-32 | an earlier file's Branch shortfall is reported, and a later file's Line shortfall is never reached |

## Left out

- Reading and parsing `./lcov.info` with the external `lcov-parse` library (tools/coverage.cjs:1,4). This is file I/O plus a foreign parser, so the parsed record list is a parameter of `Gate`. The parser's `err` argument is not modelled. Neither is the failure that follows when parsing fails and `data` is undefined.
- Loading `coverage.ignore.json` with `require` (tools/coverage.cjs:2). This is file I/O, so the ignore list is a parameter.
- `console.log` as real output: it becomes the log sequence.
- The asynchronous callback: it becomes a plain call.
- The `throw` that aborts the process: it becomes the returned `Violation` value.
- The floating-point value of the percentage and the exact error text built with `JSON.stringify` (tools/coverage.cjs:31-35). These are float formatting and a library serialiser. The report carries `hit`, `found` and the missed list as data, and `Percentage` is the exact rational value.
- JavaScript numbers are doubles. The model uses unbounded naturals for counts, because lcov counts are non-negative whole numbers far below 2^53.
- Detail fields are modelled as optional integers and strings. A field holding a value of another JavaScript type is not modelled.
