/** Concrete scenarios: what the coverage gate's specification gives on small
    fixed reports. */
module CoverageScenarios {

  import opened Wrappers
  import opened Coverage

  function Full(n: nat): Category
  {
    Category(n, n, [])
  }

  function LineDetail(line: int, hit: int): Detail
  {
    Detail(line, None, None, None, None, Some(hit))
  }

  /** A fully covered file writes one Analyzing line and passes. */
  lemma FullyCoveredFilePasses()
    ensures Scan([FileRecord("src/a.js", Full(10), Full(5), Full(20))], [])
            == Pass([Analyzing("src/a.js")])
  {
    var recs := [FileRecord("src/a.js", Full(10), Full(5), Full(20))];
    assert !Skipped("src/a.js") by {
      assert "src/a.js"[1] != "script"[1] && "src/a.js"[0] != "test"[0];
    }
    assert recs[1..] == [];
  }

  /** 8 of 10 lines hit: the Line category is reported at 80 percent, with
      the zero-hit line and without the hit one. */
  lemma MissedLineReported()
    ensures var lines := Category(8, 10, [LineDetail(4, 3), LineDetail(5, 0)]);
            var o := Scan([FileRecord("src/b.js", Full(2), Full(1), lines)], []);
            && o == Violation(Report("src/b.js", Line, 8, 10, [LineDetail(5, 0)]), [Analyzing("src/b.js")])
            && Percentage(o.report.hit, o.report.found) == 80.0
  {
    var lines := Category(8, 10, [LineDetail(4, 3), LineDetail(5, 0)]);
    assert !Skipped("src/b.js") by {
      assert "src/b.js"[1] != "script"[1] && "src/b.js"[0] != "test"[0];
    }
    assert Missed(lines.details) == [LineDetail(5, 0)] by {
      assert lines.details[1..] == [LineDetail(5, 0)];
    }
  }

  /** A path starting with "script" is invisible whatever its counts. */
  lemma ScriptFileNotLogged()
    ensures Scan([FileRecord("script/build.js", Full(0), Full(0), Category(0, 100, []))], []) == Pass([])
  {
    assert "script/build.js"[..6] == "script";
  }

  /** A path including an ignore-list entry is logged twice and waived. */
  lemma VendorFileWaived()
    ensures Scan([FileRecord("vendor/lib.js", Category(0, 3, []), Full(0), Category(0, 9, []))], ["vendor/"])
            == Pass([Analyzing("vendor/lib.js"), Ignoring("vendor/lib.js")])
  {
    var recs := [FileRecord("vendor/lib.js", Category(0, 3, []), Full(0), Category(0, 9, []))];
    assert !Skipped("vendor/lib.js") by {
      assert "vendor/lib.js"[0] != "script"[0] && "vendor/lib.js"[0] != "test"[0];
    }
    assert Ignored("vendor/lib.js", ["vendor/"]) by {
      assert "vendor/lib.js"[..7] == "vendor/";
      assert Strings.Includes("vendor/lib.js", ["vendor/"][0]);
    }
    assert recs[1..] == [];
  }

  /** An earlier file's Branch shortfall is reported; a later file's Line
      shortfall is never reached. */
  lemma EarlierViolationWins()
    ensures Scan([FileRecord("src/one.js", Category(1, 2, []), Full(1), Full(1)),
                  FileRecord("src/two.js", Full(1), Full(1), Category(0, 4, []))], [])
            == Violation(Report("src/one.js", Branch, 1, 2, []), [Analyzing("src/one.js")])
  {
    assert !Skipped("src/one.js") by {
      assert "src/one.js"[1] != "script"[1] && "src/one.js"[0] != "test"[0];
    }
  }

}
