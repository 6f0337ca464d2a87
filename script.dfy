/** The script's own flow: generate the table, then analyse it. The lemmas
    here connect what the generator guarantees to what the analysis shows. */
module Script {
  import opened Outcomes
  import opened Totals
  import opened Table
  import opened Catalog
  import opened Generator
  import opened Analyzer

  /** A pair of values occurs in the table exactly when some row holds it. */
  lemma PairOccurs(rows: seq<Record>, index: Field, columns: Field, r: string, c: string)
    ensures multiset(Pairs(rows, index, columns))[(r, c)] > 0 <==>
            exists i | 0 <= i < |rows| :: Get(rows[i], index) == r && Get(rows[i], columns) == c
  {
    var ps := Pairs(rows, index, columns);
    if (r, c) in ps {
      var i :| 0 <= i < |ps| && ps[i] == (r, c);
      assert Get(rows[i], index) == r && Get(rows[i], columns) == c;
    }
    if exists i | 0 <= i < |rows| :: Get(rows[i], index) == r && Get(rows[i], columns) == c {
      var i :| 0 <= i < |rows| && Get(rows[i], index) == r && Get(rows[i], columns) == c;
      assert ps[i] == (r, c);
    }
  }

  /** Every row holds catalog values, a status its timeframe can produce, and an
      ID that names its department: what the generator guarantees of each row. */
  predicate FromCatalog(rows: seq<Record>)
  {
    forall i | 0 <= i < |rows| ::
      && rows[i].department in Departments && rows[i].timeframe in Timeframes && rows[i].status in StatusOptions
      && Possible(rows[i].timeframe, rows[i].status)
      && DepartmentOf(rows[i].projectId) == Some(rows[i].department)
  }

  /** A column whose every entry is in `allowed` has only such values in its counts. */
  lemma CountsWithin(col: seq<string>, allowed: seq<string>)
    requires forall i | 0 <= i < |col| :: col[i] in allowed
    ensures forall v | v in ValueCounts(col) :: v in allowed
  {
    forall v | v in ValueCounts(col) ensures v in allowed {
      var i :| 0 <= i < |col| && col[i] == v;
    }
  }

  /** The frequency views of such a table hold only catalog values. */
  lemma CountsFromCatalog(rows: seq<Record>)
    requires FromCatalog(rows)
    ensures forall v | v in ValueCounts(Column(rows, Department)) :: v in Departments
    ensures forall v | v in ValueCounts(Column(rows, Timeframe)) :: v in Timeframes
    ensures forall v | v in ValueCounts(Column(rows, Status)) :: v in StatusOptions
  {
    CountsWithin(Column(rows, Department), Departments);
    CountsWithin(Column(rows, Timeframe), Timeframes);
    CountsWithin(Column(rows, Status), StatusOptions);
  }

  /** A (timeframe, status) pair no row holds has share 0. */
  lemma AbsentPairHasNoShare(rows: seq<Record>, tf: string, s: string)
    requires forall i | 0 <= i < |rows| :: !(rows[i].timeframe == tf && rows[i].status == s)
    ensures var p := NormalizedCrosstab(rows, Timeframe, Status);
            tf in p && s in p[tf] ==> p[tf][s] == 0.0
  {
    var p := NormalizedCrosstab(rows, Timeframe, Status);
    PairOccurs(rows, Timeframe, Status, tf, s);
    var k := multiset(Pairs(rows, Timeframe, Status))[(tf, s)];
    assert k == 0;
    if tf in p && s in p[tf] {
      var t := multiset(Column(rows, Timeframe))[tf] as real;
      assert tf in Column(rows, Timeframe);
      assert t > 0.0;
      assert p[tf][s] == 0.0 / t == 0.0;
    }
  }

  /** A status with weight 0 in a timeframe's table has share 0 in that timeframe's row. */
  lemma ImpossibleStatusHasNoShare(rows: seq<Record>)
    requires FromCatalog(rows)
    ensures var p := NormalizedCrosstab(rows, Timeframe, Status);
            forall tf, s | tf in p && s in p[tf] && !Possible(tf, s) :: p[tf][s] == 0.0
  {
    var p := NormalizedCrosstab(rows, Timeframe, Status);
    forall tf, s | tf in p && s in p[tf] && !Possible(tf, s) ensures p[tf][s] == 0.0 {
      forall i | 0 <= i < |rows| ensures !(rows[i].timeframe == tf && rows[i].status == s) {
        assert Possible(rows[i].timeframe, rows[i].status);
      }
      AbsentPairHasNoShare(rows, tf, s);
    }
  }

  /** Each example ID names the department it is listed under. */
  lemma ExampleIdsNameTheirDepartment(rows: seq<Record>)
    requires FromCatalog(rows)
    ensures var g := GroupFirst(rows, Department, ProjectId);
            forall i | 0 <= i < |g| :: DepartmentOf(g[i].1) == Some(g[i].0)
  {
    var g := GroupFirst(rows, Department, ProjectId);
    GroupFirstIsEarliestRow(rows, Department, ProjectId);
    forall i | 0 <= i < |g| ensures DepartmentOf(g[i].1) == Some(g[i].0) {
      var j := FirstIndex(Column(rows, Department), g[i].0);
      assert rows[j].department == g[i].0;
    }
  }

  /** The table the script builds from `n` draws. */
  function GeneratedRows(n: nat, d: Draws): (rows: seq<Record>)
    requires ValidDraws(n, d)
    ensures |rows| == n && FromCatalog(rows)
  {
    GeneratedTable(n, d);
    DataFrame(GenerateData(n, d)).value
  }

  /** The count views of a generated table add up to the number of records and
      hold only catalog values. */
  lemma GeneratedCounts(n: nat, d: Draws)
    requires ValidDraws(n, d)
    ensures var a := DisplayAnalysis(GeneratedRows(n, d));
            Total(a.departmentCounts) == n && Total(a.timeframeCounts) == n && Total(a.statusCounts) == n
    ensures var a := DisplayAnalysis(GeneratedRows(n, d));
            && (forall v | v in a.departmentCounts :: v in Departments)
            && (forall v | v in a.timeframeCounts :: v in Timeframes)
            && (forall v | v in a.statusCounts :: v in StatusOptions)
  {
    CountsFromCatalog(GeneratedRows(n, d));
  }

  /** In the analysis of a generated table, a status with weight 0 in a
      timeframe's table has share 0 in that timeframe's row, and each example
      project ID belongs to the department it is listed under. */
  lemma GeneratedViews(n: nat, d: Draws)
    requires ValidDraws(n, d)
    ensures var p := DisplayAnalysis(GeneratedRows(n, d)).statusByTimeframe;
            forall tf, s | tf in p && s in p[tf] && !Possible(tf, s) :: p[tf][s] == 0.0
    ensures var g := DisplayAnalysis(GeneratedRows(n, d)).exampleIds;
            forall i | 0 <= i < |g| :: DepartmentOf(g[i].1) == Some(g[i].0)
  {
    var rows := GeneratedRows(n, d);
    ImpossibleStatusHasNoShare(rows);
    ExampleIdsNameTheirDepartment(rows);
  }

  /** The script's own run of `NRecords` draws: twenty rows, and each count view adds up to twenty. */
  lemma ScriptRun(d: Draws)
    requires ValidDraws(NRecords, d)
    ensures |GeneratedRows(NRecords, d)| == 20
    ensures var a := DisplayAnalysis(GeneratedRows(NRecords, d));
            Total(a.departmentCounts) == 20 && Total(a.timeframeCounts) == 20 && Total(a.statusCounts) == 20
  {
    GeneratedCounts(NRecords, d);
  }
}
