/** The coverage gate: one pass over the per-file records of an lcov report
    that skips tooling and test files, waives files named by the ignore list,
    and aborts on the first file whose branch, function or line coverage is
    incomplete. */
module Coverage {

  import opened Wrappers
  import opened Strings

  /** One instrumented location of a category, as the lcov parser delivers
      it: a line entry has `line` and `hit`, a function entry `name`, `line`
      and `hit`, a branch entry `line`, `block`, `branch` and `taken`. A field
      the entry lacks is None (undefined in JavaScript). */
  datatype Detail = Detail(
    line: int,
    name: Option<string>,
    block: Option<int>,
    branch: Option<int>,
    taken: Option<int>,
    hit: Option<int>)

  /** Coverage of one category: locations exercised, locations instrumented,
      and the per-location entries. */
  datatype Category = Category(hit: nat, found: nat, details: seq<Detail>)

  /** One source file of the report. */
  datatype FileRecord = FileRecord(
    file: string,
    branches: Category,
    functions: Category,
    lines: Category)

  /** The three categories, in the order the gate checks them. */
  datatype Section = Branch | Function | Line

  /** What the thrown error carries: the file, the category, the counts the
      percentage is computed from, and the unexercised locations. */
  datatype Report = Report(
    file: string,
    section: Section,
    hit: nat,
    found: nat,
    missed: seq<Detail>)

  /** A progress line written to the console. */
  datatype LogLine = Analyzing(file: string) | Ignoring(file: string)

  /** The end of a run: every check passed, or the run aborted with a report.
      Either way, `log` holds the progress lines written until then. */
  datatype Outcome =
    | Pass(log: seq<LogLine>)
    | Violation(report: Report, log: seq<LogLine>)

  /** The console text of a progress line. */
  function Render(l: LogLine): string
  {
    match l
    case Analyzing(f) => "Analyzing coverage for " + f
    case Ignoring(f) => "Ignoring coverage for " + f
  }

  /** Distinct progress lines have distinct console texts, so the structured
      log loses nothing the console shows. */
  lemma RenderInjective(a: LogLine, b: LogLine)
    requires Render(a) == Render(b)
    ensures a == b
  {
    assert Render(a)[0] == (if a.Analyzing? then 'A' else 'I');
    assert Render(b)[0] == (if b.Analyzing? then 'A' else 'I');
    var n := if a.Analyzing? then |"Analyzing coverage for "| else |"Ignoring coverage for "|;
    assert a.file == Render(a)[n..] && b.file == Render(b)[n..];
  }

  // ---------------------------------------------------------------------
  // analyze: the check of one category

  /** The filter on details: `taken === 0 || hit === 0`. An absent field is
      never 0. */
  predicate Unexercised(d: Detail)
  {
    d.taken == Some(0) || d.hit == Some(0)
  }

  /** r can be obtained from s by deleting elements (order is kept). */
  ghost predicate SubsequenceOf<T>(r: seq<T>, s: seq<T>)
    decreases |s|
  {
    r == [] ||
    (s != [] && ((r[0] == s[0] && SubsequenceOf(r[1..], s[1..])) || SubsequenceOf(r, s[1..])))
  }

  /** The missed-hits list: the unexercised details, in their original order,
      each as often as it occurs in `details`. */
  function Missed(details: seq<Detail>): (r: seq<Detail>)
    ensures SubsequenceOf(r, details)
    ensures forall i :: 0 <= i < |r| ==> Unexercised(r[i])
    ensures forall d :: Unexercised(d) ==> multiset(r)[d] == multiset(details)[d]
  {
    if details == [] then []
    else
      var rest := Missed(details[1..]);
      assert details == [details[0]] + details[1..];
      if Unexercised(details[0]) then
        assert ([details[0]] + rest)[1..] == rest;
        [details[0]] + rest
      else
        assert rest != [] ==> rest[0] != details[0];
        rest
  }

  /** A category is complete when no instrumented location is left unhit.
      With found == 0 it is complete whatever hit is. */
  predicate Covered(c: Category)
  {
    c.found <= c.hit
  }

  /** `analyze(file, section, hit, found, details)`: no report when
      hit >= found; otherwise the report the thrown error describes. */
  function Analyze(file: string, section: Section, hit: nat, found: nat, details: seq<Detail>): (r: Option<Report>)
    ensures r.None? <==> found <= hit
    ensures r.Some? ==> 0 < found && r.value == Report(file, section, hit, found, Missed(details))
  {
    if hit < found then Some(Report(file, section, hit, found, Missed(details))) else None
  }

  /** The percentage the error message states; defined only when found > 0,
      which every report guarantees. */
  function Percentage(hit: nat, found: nat): real
    requires 0 < found
  {
    100.0 * hit as real / found as real
  }

  // ---------------------------------------------------------------------
  // One record of the scan

  /** Position of a section in the checking order. */
  function Rank(s: Section): nat
  {
    match s
    case Branch => 0
    case Function => 1
    case Line => 2
  }

  /** The category of a record that a section names. */
  function CategoryOf(rec: FileRecord, s: Section): Category
  {
    match s
    case Branch => rec.branches
    case Function => rec.functions
    case Line => rec.lines
  }

  /** The three `analyze` calls in order Branch, Function, Line; the first
      incomplete category ends the record. */
  function CheckRecord(rec: FileRecord): (r: Option<Report>)
    ensures r.None? <==> Covered(rec.branches) && Covered(rec.functions) && Covered(rec.lines)
    ensures r.Some? ==>
              var s := r.value.section;
              var c := CategoryOf(rec, s);
              && r.value == Report(rec.file, s, c.hit, c.found, Missed(c.details))
              && !Covered(c)
              && forall t :: Rank(t) < Rank(s) ==> Covered(CategoryOf(rec, t))
  {
    var b := Analyze(rec.file, Branch, rec.branches.hit, rec.branches.found, rec.branches.details);
    if b.Some? then b
    else
      var f := Analyze(rec.file, Function, rec.functions.hit, rec.functions.found, rec.functions.details);
      if f.Some? then f
      else Analyze(rec.file, Line, rec.lines.hit, rec.lines.found, rec.lines.details)
  }

  /** Files whose path begins with "script" or "test" are passed over
      without a word. This is a test on the raw string, so "scripts/x" and
      "testing.js" are passed over too. */
  predicate Skipped(file: string)
  {
    StartsWith(file, "script") || StartsWith(file, "test")
  }

  /** Some entry of the ignore list is a substring of the file path. */
  predicate Ignored(file: string, ignore: seq<string>)
  {
    exists k :: 0 <= k < |ignore| && Includes(file, ignore[k])
  }

  /** The progress lines one record produces. */
  function RecordLog(rec: FileRecord, ignore: seq<string>): seq<LogLine>
  {
    if Skipped(rec.file) then []
    else if Ignored(rec.file, ignore) then [Analyzing(rec.file), Ignoring(rec.file)]
    else [Analyzing(rec.file)]
  }

  /** The record aborts the run: it is neither skipped nor ignored and one of
      its categories is incomplete. */
  predicate Fails(rec: FileRecord, ignore: seq<string>)
  {
    !Skipped(rec.file) && !Ignored(rec.file, ignore) && CheckRecord(rec).Some?
  }

  // ---------------------------------------------------------------------
  // The whole scan

  /** Puts progress lines written earlier in front of an outcome's log. */
  function Prepend(earlier: seq<LogLine>, o: Outcome): Outcome
  {
    match o
    case Pass(log) => Pass(earlier + log)
    case Violation(rep, log) => Violation(rep, earlier + log)
  }

  /** The meaning of the scan over `records`, record by record. */
  function Scan(records: seq<FileRecord>, ignore: seq<string>): Outcome
    decreases |records|
  {
    if records == [] then Pass([])
    else
      var rec := records[0];
      if Fails(rec, ignore) then Violation(CheckRecord(rec).value, RecordLog(rec, ignore))
      else Prepend(RecordLog(rec, ignore), Scan(records[1..], ignore))
  }

  /** Prepending in two steps is prepending the concatenation. */
  lemma PrependTwice(a: seq<LogLine>, b: seq<LogLine>, o: Outcome)
    ensures Prepend(a, Prepend(b, o)) == Prepend(a + b, o)
  {
  }

  /** One step of Scan on a suffix of the records. */
  lemma ScanSuffix(records: seq<FileRecord>, i: nat, ignore: seq<string>)
    requires i < |records|
    ensures Scan(records[i..], ignore) ==
              if Fails(records[i], ignore)
              then Violation(CheckRecord(records[i]).value, RecordLog(records[i], ignore))
              else Prepend(RecordLog(records[i], ignore), Scan(records[i + 1..], ignore))
  {
    assert records[i..][0] == records[i];
    assert records[i..][1..] == records[i + 1..];
  }

  /** The inner loop over the ignore list: the index of the first entry that
      the file path includes, if any. */
  method FirstIgnoreMatch(file: string, ignore: seq<string>) returns (m: Option<nat>)
    ensures m.None? <==> !Ignored(file, ignore)
    ensures m.Some? ==> m.value < |ignore| && Includes(file, ignore[m.value])
    ensures m.Some? ==> forall k :: 0 <= k < m.value ==> !Includes(file, ignore[k])
  {
    var j := 0;
    while j < |ignore|
      invariant 0 <= j <= |ignore|
      invariant forall k :: 0 <= k < j ==> !Includes(file, ignore[k])
    {
      if Includes(file, ignore[j]) {
        return Some(j);
      }
      j := j + 1;
    }
    return None;
  }

  /** The parse callback: walk the records in report order, write progress
      lines, and stop at the first incomplete category. */
  method Gate(records: seq<FileRecord>, ignore: seq<string>) returns (o: Outcome)
    ensures o == Scan(records, ignore)
  {
    var log: seq<LogLine> := [];
    var i := 0;
    while i < |records|
      invariant 0 <= i <= |records|
      invariant Scan(records, ignore) == Prepend(log, Scan(records[i..], ignore))
    {
      var rec := records[i];
      ScanSuffix(records, i, ignore);
      ghost var before := log;
      if StartsWith(rec.file, "script") || StartsWith(rec.file, "test") {
        assert RecordLog(rec, ignore) == [];
        PrependTwice(log, [], Scan(records[i + 1..], ignore));
        assert log + [] == log;
        i := i + 1;
        continue;
      }
      log := log + [Analyzing(rec.file)];
      var m := FirstIgnoreMatch(rec.file, ignore);
      if m.Some? {
        log := log + [Ignoring(rec.file)];
        PrependTwice(before, RecordLog(rec, ignore), Scan(records[i + 1..], ignore));
        i := i + 1;
        continue;
      }
      assert RecordLog(rec, ignore) == [Analyzing(rec.file)];
      assert !Skipped(rec.file) && !Ignored(rec.file, ignore);
      var r := Analyze(rec.file, Branch, rec.branches.hit, rec.branches.found, rec.branches.details);
      if r.Some? {
        assert r == CheckRecord(rec);
        return Violation(r.value, log);
      }
      r := Analyze(rec.file, Function, rec.functions.hit, rec.functions.found, rec.functions.details);
      if r.Some? {
        assert r == CheckRecord(rec);
        return Violation(r.value, log);
      }
      r := Analyze(rec.file, Line, rec.lines.hit, rec.lines.found, rec.lines.details);
      if r.Some? {
        assert r == CheckRecord(rec);
        return Violation(r.value, log);
      }
      assert !Fails(rec, ignore);
      PrependTwice(before, RecordLog(rec, ignore), Scan(records[i + 1..], ignore));
      i := i + 1;
    }
    assert records[i..] == [];
    return Pass(log);
  }

}
