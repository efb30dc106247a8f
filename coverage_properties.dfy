/** What the coverage gate promises, stated over the Scan specification that
    Coverage.Gate is proved to compute. */
module CoverageProperties {

  import opened Wrappers
  import opened Strings
  import opened Coverage

  /** The progress lines of all records, in report order, as if none failed. */
  function Trace(records: seq<FileRecord>, ignore: seq<string>): seq<LogLine>
    decreases |records|
  {
    if records == [] then [] else RecordLog(records[0], ignore) + Trace(records[1..], ignore)
  }

  /** Number of records that name file f and are not skipped. */
  function CountVisits(records: seq<FileRecord>, f: string): nat
    decreases |records|
  {
    if records == [] then 0
    else (if records[0].file == f && !Skipped(f) then 1 else 0) + CountVisits(records[1..], f)
  }

  /** Number of records that name file f, are not skipped and are ignored. */
  function CountWaivers(records: seq<FileRecord>, ignore: seq<string>, f: string): nat
    decreases |records|
  {
    if records == [] then 0
    else (if records[0].file == f && !Skipped(f) && Ignored(f, ignore) then 1 else 0)
         + CountWaivers(records[1..], ignore, f)
  }

  // ---------------------------------------------------------------------
  // The missed-hits list

  /** A subsequence has no more of any element than the sequence it comes from. */
  lemma {:induction false} SubsequenceMultiset<T>(r: seq<T>, s: seq<T>)
    requires SubsequenceOf(r, s)
    ensures multiset(r) <= multiset(s)
    decreases |s|
  {
    if r != [] {
      assert s == [s[0]] + s[1..];
      if r[0] == s[0] && SubsequenceOf(r[1..], s[1..]) {
        SubsequenceMultiset(r[1..], s[1..]);
        assert r == [r[0]] + r[1..];
      } else {
        SubsequenceMultiset(r, s[1..]);
      }
    }
  }

  /** The missed-hits list is the only subsequence of the details that holds
      exactly the unexercised ones: its contract pins it down completely. */
  lemma {:induction false} MissedUnique(details: seq<Detail>, r: seq<Detail>)
    requires SubsequenceOf(r, details)
    requires forall i :: 0 <= i < |r| ==> Unexercised(r[i])
    requires forall d :: Unexercised(d) ==> multiset(r)[d] == multiset(details)[d]
    ensures r == Missed(details)
    decreases |details|
  {
    if details == [] {
    } else {
      var d, rest := details[0], details[1..];
      assert details == [d] + rest;
      if Unexercised(d) {
        assert multiset(r)[d] >= 1;
        assert r != [];
        assert r == [r[0]] + r[1..];
        if r[0] == d && SubsequenceOf(r[1..], rest) {
          forall e | Unexercised(e)
            ensures multiset(r[1..])[e] == multiset(rest)[e]
          {
          }
          MissedUnique(rest, r[1..]);
        } else {
          SubsequenceMultiset(r, rest);
          assert false;
        }
      } else {
        if r != [] {
          assert r[0] != d;
        }
        assert SubsequenceOf(r, rest);
        forall e | Unexercised(e)
          ensures multiset(r)[e] == multiset(rest)[e]
        {
        }
        MissedUnique(rest, r);
      }
    }
  }

  /** A detail whose `taken` and `hit` are both absent is never reported. */
  lemma AbsentCountersNeverMissed(details: seq<Detail>, d: Detail)
    requires d.taken.None? && d.hit.None?
    ensures d !in Missed(details)
  {
  }

  /** The percentage in a report is strictly below 100 and not negative. */
  lemma PercentageBelowHundred(hit: nat, found: nat)
    requires hit < found
    ensures 0.0 <= Percentage(hit, found) < 100.0
  {
  }

  // ---------------------------------------------------------------------
  // The scan

  /** The scan, when no record fails, passes and logs every record in order. */
  lemma {:induction false} ScanPasses(records: seq<FileRecord>, ignore: seq<string>)
    requires forall i :: 0 <= i < |records| ==> !Fails(records[i], ignore)
    ensures Scan(records, ignore) == Pass(Trace(records, ignore))
    decreases |records|
  {
    if records != [] {
      ScanPasses(records[1..], ignore);
    }
  }

  /** The first failing record ends the scan: its first incomplete category
      is reported, and the log holds the lines of the records before it and
      the Analyzing line of the failing one, nothing later. */
  lemma {:induction false} ScanStopsAtFirstFailure(records: seq<FileRecord>, ignore: seq<string>, k: nat)
    requires k < |records|
    requires Fails(records[k], ignore)
    requires forall i :: 0 <= i < k ==> !Fails(records[i], ignore)
    ensures Scan(records, ignore) ==
              Violation(CheckRecord(records[k]).value, Trace(records[..k], ignore) + [Analyzing(records[k].file)])
    decreases k
  {
    if k == 0 {
      assert records[..0] == [];
    } else {
      ScanStopsAtFirstFailure(records[1..], ignore, k - 1);
      assert records[..k][0] == records[0];
      assert records[..k][1..] == records[1..][..k - 1];
    }
  }

  /** The scan passes exactly when no record fails. */
  lemma {:induction false} ScanPassIff(records: seq<FileRecord>, ignore: seq<string>)
    ensures Scan(records, ignore).Pass? <==> forall i :: 0 <= i < |records| ==> !Fails(records[i], ignore)
    decreases |records|
  {
    if records != [] {
      ScanPassIff(records[1..], ignore);
      if !Fails(records[0], ignore) {
        forall i | 0 < i < |records|
          ensures Fails(records[i], ignore) <==> Fails(records[1..][i - 1], ignore)
        {
        }
      }
    }
  }

  /** What a violation tells: its file belongs to a record that is neither
      skipped nor ignored, its category is incomplete, found is positive and
      the percentage lies in [0, 100). */
  lemma {:induction false} ViolationFacts(records: seq<FileRecord>, ignore: seq<string>)
    requires Scan(records, ignore).Violation?
    ensures var rep := Scan(records, ignore).report;
            && 0 < rep.found && rep.hit < rep.found
            && 0.0 <= Percentage(rep.hit, rep.found) < 100.0
            && !Skipped(rep.file)
            && (forall e :: e in ignore ==> !Includes(rep.file, e))
            && exists k :: 0 <= k < |records| && records[k].file == rep.file && Fails(records[k], ignore)
    decreases |records|
  {
    var rep := Scan(records, ignore).report;
    if Fails(records[0], ignore) {
      var c := CategoryOf(records[0], rep.section);
      assert rep.hit == c.hit && rep.found == c.found && !Covered(c);
      PercentageBelowHundred(rep.hit, rep.found);
      forall e | e in ignore
        ensures !Includes(rep.file, e)
      {
        var k :| 0 <= k < |ignore| && ignore[k] == e;
      }
      assert records[0].file == rep.file;
    } else {
      ViolationFacts(records[1..], ignore);
      var k :| 0 <= k < |records[1..]| && records[1..][k].file == rep.file && Fails(records[1..][k], ignore);
      assert records[k + 1] == records[1..][k];
    }
  }

  /** Records after the first failing one are never reached: replacing them
      changes nothing. */
  lemma LaterRecordsUnreached(pre: seq<FileRecord>, rec: FileRecord, post1: seq<FileRecord>, post2: seq<FileRecord>, ignore: seq<string>)
    requires Fails(rec, ignore)
    requires forall i :: 0 <= i < |pre| ==> !Fails(pre[i], ignore)
    ensures Scan(pre + [rec] + post1, ignore) == Scan(pre + [rec] + post2, ignore)
  {
    var a, b := pre + [rec] + post1, pre + [rec] + post2;
    var k := |pre|;
    assert a[k] == rec && b[k] == rec;
    assert a[..k] == pre && b[..k] == pre;
    assert forall i :: 0 <= i < k ==> a[i] == pre[i] && b[i] == pre[i];
    ScanStopsAtFirstFailure(a, ignore, k);
    ScanStopsAtFirstFailure(b, ignore, k);
  }

  /** A record whose path starts with "script" or "test" is invisible: it
      writes nothing and is not checked, whatever its counts. */
  lemma {:induction false} SkippedRecordInvisible(pre: seq<FileRecord>, rec: FileRecord, post: seq<FileRecord>, ignore: seq<string>)
    requires Skipped(rec.file)
    ensures Scan(pre + [rec] + post, ignore) == Scan(pre + post, ignore)
    decreases |pre|
  {
    if pre == [] {
      assert pre + [rec] + post == [rec] + post && pre + post == post;
      assert ([rec] + post)[0] == rec && ([rec] + post)[1..] == post;
      assert !Fails(rec, ignore) && RecordLog(rec, ignore) == [];
      assert Prepend([], Scan(post, ignore)) == Scan(post, ignore);
    } else {
      SkippedRecordInvisible(pre[1..], rec, post, ignore);
      assert (pre + [rec] + post)[1..] == pre[1..] + [rec] + post;
      assert (pre + post)[1..] == pre[1..] + post;
      assert (pre + [rec] + post)[0] == pre[0] && (pre + post)[0] == pre[0];
    }
  }

  /** A record that is not skipped and whose path includes an ignore-list
      entry is waived: its counts never matter, so it can never fail. */
  lemma {:induction false} IgnoredCountsIrrelevant(pre: seq<FileRecord>, rec1: FileRecord, rec2: FileRecord, post: seq<FileRecord>, ignore: seq<string>)
    requires rec1.file == rec2.file
    requires !Skipped(rec1.file) && Ignored(rec1.file, ignore)
    ensures Scan(pre + [rec1] + post, ignore) == Scan(pre + [rec2] + post, ignore)
    decreases |pre|
  {
    var a, b := pre + [rec1] + post, pre + [rec2] + post;
    if pre == [] {
      assert a[0] == rec1 && b[0] == rec2;
      assert a[1..] == post && b[1..] == post;
    } else {
      IgnoredCountsIrrelevant(pre[1..], rec1, rec2, post, ignore);
      assert a[1..] == pre[1..] + [rec1] + post;
      assert b[1..] == pre[1..] + [rec2] + post;
      assert a[0] == pre[0] && b[0] == pre[0];
    }
  }

  /** Each record that is not skipped writes exactly one Analyzing line, and
      one Ignoring line exactly when it is ignored. */
  lemma {:induction false} TraceCounts(records: seq<FileRecord>, ignore: seq<string>, f: string)
    ensures multiset(Trace(records, ignore))[Analyzing(f)] == CountVisits(records, f)
    ensures multiset(Trace(records, ignore))[Ignoring(f)] == CountWaivers(records, ignore, f)
    decreases |records|
  {
    if records != [] {
      TraceCounts(records[1..], ignore, f);
      var r := records[0];
      assert multiset(Trace(records, ignore)) == multiset(RecordLog(r, ignore)) + multiset(Trace(records[1..], ignore));
    }
  }

  /** The Analyzing line of a record comes before its Ignoring line and before
      any check: in a violation the last line logged is the failing record's
      Analyzing line. */
  lemma {:induction false} ViolationLogEndsWithAnalyzing(records: seq<FileRecord>, ignore: seq<string>)
    requires Scan(records, ignore).Violation?
    ensures var o := Scan(records, ignore);
            |o.log| > 0 && o.log[|o.log| - 1] == Analyzing(o.report.file)
    decreases |records|
  {
    if !Fails(records[0], ignore) {
      ViolationLogEndsWithAnalyzing(records[1..], ignore);
    }
  }

}
