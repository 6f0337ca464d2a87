/** The aggregate views the analysis prints, without the printing and styling:
    frequency counts per column, cross-tabulations, and the first value per group.
    All are read-only functions of the table. */
module Analyzer {
  import opened Strings
  import opened Totals
  import opened Table

  /** `series.value_counts()`: each value that occurs, with how often it occurs. */
  function ValueCounts(col: seq<string>): (m: map<string, nat>)
    ensures forall v :: v in m <==> v in col
    ensures forall v | v in m :: m[v] == multiset(col)[v] && m[v] > 0
  {
    if col == [] then map[]
    else
      var m := ValueCounts(col[..|col| - 1]);
      var v := col[|col| - 1];
      assert col == col[..|col| - 1] + [v];
      m[v := (if v in m then m[v] else 0) + 1]
  }

  /** The counts add up to the number of rows. */
  lemma {:induction false} ValueCountsTotal(col: seq<string>)
    ensures Total(ValueCounts(col)) == |col|
  {
    if col != [] {
      var init := col[..|col| - 1];
      var m := ValueCounts(init);
      var v := col[|col| - 1];
      var x := (if v in m then m[v] else 0) + 1;
      assert ValueCounts(col) == m[v := x];
      ValueCountsTotal(init);
      TotalUpdate(m, v, x);
      assert Total(m[v := x]) == Total(m) + 1;
    }
  }

  /** The (index, columns) value pair of each row. */
  function Pairs(rows: seq<Record>, index: Field, columns: Field): seq<(string, string)>
  {
    seq(|rows|, i requires 0 <= i < |rows| => (Get(rows[i], index), Get(rows[i], columns)))
  }

  lemma ColumnCons(rows: seq<Record>, f: Field)
    requires rows != []
    ensures Column(rows, f) == [Get(rows[0], f)] + Column(rows[1..], f)
  {
  }

  lemma PairsCons(rows: seq<Record>, index: Field, columns: Field)
    requires rows != []
    ensures Pairs(rows, index, columns) == [(Get(rows[0], index), Get(rows[0], columns))] + Pairs(rows[1..], index, columns)
  {
  }

  /** The `val` values of the rows whose `key` is `k`, in row order: one group of `df.groupby(key)[val]`. */
  function Select(rows: seq<Record>, key: Field, k: string, val: Field): (s: seq<string>)
    ensures |s| == multiset(Column(rows, key))[k]
    ensures forall c | c in s :: c in Column(rows, val)
  {
    if rows == [] then []
    else
      ColumnCons(rows, key);
      ColumnCons(rows, val);
      (if Get(rows[0], key) == k then [Get(rows[0], val)] else []) + Select(rows[1..], key, k, val)
  }

  /** A group holds each value as often as the table holds that (key, value) pair. */
  lemma {:induction false} SelectCounts(rows: seq<Record>, key: Field, k: string, val: Field)
    ensures forall c :: multiset(Select(rows, key, k, val))[c] == multiset(Pairs(rows, key, val))[(k, c)]
  {
    if rows != [] {
      PairsCons(rows, key, val);
      SelectCounts(rows[1..], key, k, val);
    }
  }

  /** `pd.crosstab(df[index], df[columns])`: a row per observed index value, a
      column per observed columns value, each cell the number of rows holding
      that pair (0 where the pair does not occur). */
  function Crosstab(rows: seq<Record>, index: Field, columns: Field): (ct: map<string, map<string, nat>>)
    ensures forall r :: r in ct <==> r in Column(rows, index)
    ensures forall r | r in ct :: forall c :: c in ct[r] <==> c in Column(rows, columns)
    ensures forall r, c | r in ct && c in ct[r] :: ct[r][c] == multiset(Pairs(rows, index, columns))[(r, c)]
  {
    map r | r in Column(rows, index) :: CrosstabRow(rows, index, columns, r)
  }

  /** One row of a cross-tabulation: the counts of each columns value among the rows with index value `r`. */
  function CrosstabRow(rows: seq<Record>, index: Field, columns: Field, r: string): (row: map<string, nat>)
    ensures forall c :: c in row <==> c in Column(rows, columns)
    ensures forall c | c in row :: row[c] == multiset(Pairs(rows, index, columns))[(r, c)]
  {
    var group := Select(rows, index, r, columns);
    SelectCounts(rows, index, r, columns);
    ZeroFill(ValueCounts(group), set c | c in Column(rows, columns))
  }

  /** Each row of a cross-tabulation adds up to the number of rows with that index value. */
  lemma CrosstabRowTotals(rows: seq<Record>, index: Field, columns: Field)
    ensures var ct := Crosstab(rows, index, columns);
            forall r | r in ct :: Total(ct[r]) == multiset(Column(rows, index))[r]
  {
    var ct := Crosstab(rows, index, columns);
    var labels := set c | c in Column(rows, columns);
    forall r | r in ct ensures Total(ct[r]) == multiset(Column(rows, index))[r] {
      var s := Select(rows, index, r, columns);
      assert ct[r] == CrosstabRow(rows, index, columns, r) == ZeroFill(ValueCounts(s), labels);
      ZeroFillTotal(ValueCounts(s), labels);
      ValueCountsTotal(s);
    }
  }

  /** `pd.crosstab(df[index], df[columns], normalize='index')` without the display
      rounding: each cell divided by the number of rows with its index value,
      which is the row's sum. */
  function NormalizedCrosstab(rows: seq<Record>, index: Field, columns: Field): (p: map<string, map<string, real>>)
    ensures forall r :: r in p <==> r in Column(rows, index)
    ensures forall r | r in p :: forall c :: c in p[r] <==> c in Column(rows, columns)
    ensures forall r, c | r in p && c in p[r] ::
              p[r][c] == multiset(Pairs(rows, index, columns))[(r, c)] as real / multiset(Column(rows, index))[r] as real
  {
    var ct := Crosstab(rows, index, columns);
    var counts := ValueCounts(Column(rows, index));
    map r | r in ct :: Scaled(ct[r], counts[r] as real)
  }

  /** A row divided through by its own sum sums to 1. */
  lemma DivideRowByTotal(row: map<string, nat>, t: real)
    requires t > 0.0 && Total(row) as real == t
    ensures RealTotal(Scaled(row, t)) == 1.0
  {
    ScaledTotal(row, t);
    DivideSelf(t);
  }

  lemma DivideSelf(t: real)
    requires t > 0.0
    ensures t / t == 1.0
  {
  }

  /** Every row of the normalised cross-tabulation sums to 1. */
  lemma NormalizedRowsSumToOne(rows: seq<Record>, index: Field, columns: Field)
    ensures var p := NormalizedCrosstab(rows, index, columns);
            forall r | r in p :: RealTotal(p[r]) == 1.0
  {
    var p := NormalizedCrosstab(rows, index, columns);
    var ct := Crosstab(rows, index, columns);
    CrosstabRowTotals(rows, index, columns);
    forall r | r in p ensures RealTotal(p[r]) == 1.0 {
      var t := multiset(Column(rows, index))[r] as real;
      assert p[r] == Scaled(ct[r], t);
      DivideRowByTotal(ct[r], t);
    }
  }

  /** The position of the first occurrence of `k`. */
  function FirstIndex(col: seq<string>, k: string): (i: nat)
    requires k in col
    ensures i < |col| && col[i] == k
    ensures forall j | 0 <= j < i :: col[j] != k
  {
    if col[0] == k then 0 else 1 + FirstIndex(col[1..], k)
  }

  /** The first value of a group is the `val` of the group's earliest row. */
  lemma {:induction false} SelectStartsAtFirstRow(rows: seq<Record>, key: Field, k: string, val: Field)
    requires k in Column(rows, key)
    ensures |Select(rows, key, k, val)| > 0
    ensures Select(rows, key, k, val)[0] == Get(rows[FirstIndex(Column(rows, key), k)], val)
  {
    var col := Column(rows, key);
    ColumnCons(rows, key);
    if Get(rows[0], key) == k {
      assert FirstIndex(col, k) == 0;
      assert Select(rows, key, k, val)[0] == Get(rows[0], val);
    } else {
      var tail := rows[1..];
      assert Select(rows, key, k, val) == Select(tail, key, k, val);
      assert col[1..] == Column(tail, key);
      var j := FirstIndex(Column(tail, key), k);
      assert FirstIndex(col, k) == 1 + j;
      SelectStartsAtFirstRow(tail, key, k, val);
      assert tail[j] == rows[1 + j];
    }
  }

  function GroupKeys(g: seq<(string, string)>): seq<string>
  {
    seq(|g|, i requires 0 <= i < |g| => g[i].0)
  }

  /** `df.groupby(key)[val].first().sort_index()`: each observed key, in sorted
      order, with the `val` of the first row in its group. */
  function GroupFirst(rows: seq<Record>, key: Field, val: Field): (g: seq<(string, string)>)
    ensures StrictlySorted(GroupKeys(g))
    ensures forall k :: k in GroupKeys(g) <==> k in Column(rows, key)
  {
    var keys := SortedDistinct(Column(rows, key));
    assert forall i | 0 <= i < |keys| :: keys[i] in Column(rows, key);
    var g := seq(|keys|, i requires 0 <= i < |keys| => (keys[i], Select(rows, key, keys[i], val)[0]));
    assert GroupKeys(g) == keys;
    g
  }

  /** Each group's value is the one in the earliest row, in table order, with that key. */
  lemma GroupFirstIsEarliestRow(rows: seq<Record>, key: Field, val: Field)
    ensures var g := GroupFirst(rows, key, val);
            forall i | 0 <= i < |g| ::
              g[i].0 in Column(rows, key) && g[i].1 == Get(rows[FirstIndex(Column(rows, key), g[i].0)], val)
  {
    var g := GroupFirst(rows, key, val);
    forall i | 0 <= i < |g|
      ensures g[i].0 in Column(rows, key) && g[i].1 == Get(rows[FirstIndex(Column(rows, key), g[i].0)], val)
    {
      assert GroupKeys(g)[i] == g[i].0;
      SelectStartsAtFirstRow(rows, key, g[i].0, val);
    }
  }

  /** The six views the analysis shows. */
  datatype Analysis = Analysis(
    departmentCounts: map<string, nat>,
    timeframeCounts: map<string, nat>,
    statusCounts: map<string, nat>,
    statusByTimeframe: map<string, map<string, real>>,
    departmentByTimeframe: map<string, map<string, nat>>,
    exampleIds: seq<(string, string)>)

  /** What the analysis computes from a table: each count view adds up to the
      number of rows, each normalised row to 1, each department-by-timeframe row
      to that department's count; an empty table gives empty views. */
  function DisplayAnalysis(rows: seq<Record>): (a: Analysis)
    ensures Total(a.departmentCounts) == |rows|
    ensures Total(a.timeframeCounts) == |rows|
    ensures Total(a.statusCounts) == |rows|
    ensures forall tf | tf in a.statusByTimeframe :: RealTotal(a.statusByTimeframe[tf]) == 1.0
    ensures forall d | d in a.departmentByTimeframe ::
              d in a.departmentCounts && Total(a.departmentByTimeframe[d]) == a.departmentCounts[d]
    ensures StrictlySorted(GroupKeys(a.exampleIds))
    ensures rows == [] ==> a == Analysis(map[], map[], map[], map[], map[], [])
  {
    ValueCountsTotal(Column(rows, Department));
    ValueCountsTotal(Column(rows, Timeframe));
    ValueCountsTotal(Column(rows, Status));
    NormalizedRowsSumToOne(rows, Timeframe, Status);
    CrosstabRowTotals(rows, Department, Timeframe);
    var a := Analysis(
      ValueCounts(Column(rows, Department)),
      ValueCounts(Column(rows, Timeframe)),
      ValueCounts(Column(rows, Status)),
      NormalizedCrosstab(rows, Timeframe, Status),
      Crosstab(rows, Department, Timeframe),
      GroupFirst(rows, Department, ProjectId));
    assert rows == [] ==> a.exampleIds == [] by {
      if rows == [] { assert |SortedDistinct(Column(rows, Department))| == 0; }
    }
    a
  }
}
