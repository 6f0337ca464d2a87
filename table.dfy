/** The generated table: its rows, its columns (the dictionary of lists the
    DataFrame is built from), and the conversion between the two. */
module Table {
  import opened Outcomes

  /** One row, in the table's column order. */
  datatype Record = Record(projectId: string, department: string, projectName: string, timeframe: string, status: string)

  /** The columns of the table, keyed by column name in the source's dictionary. */
  datatype Columns = Columns(projectId: seq<string>, department: seq<string>, projectName: seq<string>,
                             timeframe: seq<string>, status: seq<string>)

  /** The column names: `df['project_id']` and so on. */
  datatype Field = ProjectId | Department | ProjectName | Timeframe | Status

  function Get(r: Record, f: Field): string
  {
    match f
    case ProjectId => r.projectId
    case Department => r.department
    case ProjectName => r.projectName
    case Timeframe => r.timeframe
    case Status => r.status
  }

  /** `df[f]` as a list, in row order. */
  function Column(rows: seq<Record>, f: Field): seq<string>
  {
    seq(|rows|, i requires 0 <= i < |rows| => Get(rows[i], f))
  }

  predicate SameLengths(data: Columns)
  {
    && |data.department| == |data.projectId|
    && |data.projectName| == |data.projectId|
    && |data.timeframe| == |data.projectId|
    && |data.status| == |data.projectId|
  }

  function ToColumns(rows: seq<Record>): (data: Columns)
    ensures SameLengths(data) && |data.projectId| == |rows|
  {
    Columns(Column(rows, ProjectId), Column(rows, Department), Column(rows, ProjectName),
            Column(rows, Timeframe), Column(rows, Status))
  }

  /** `pd.DataFrame(data)`: rows from equally long columns; pandas refuses columns
      of different lengths. Taking the columns back out gives the input again. */
  function DataFrame(data: Columns): (rows: Result<seq<Record>>)
    ensures rows.Ok? <==> SameLengths(data)
    ensures rows.Err? ==> rows.error == ValueError("All arrays must be of the same length")
    ensures rows.Ok? ==> ToColumns(rows.value) == data
  {
    if !SameLengths(data) then Err(ValueError("All arrays must be of the same length"))
    else
      var n := |data.projectId|;
      Ok(seq(n, i requires 0 <= i < n =>
        Record(data.projectId[i], data.department[i], data.projectName[i], data.timeframe[i], data.status[i])))
  }

  /** Building a frame from a table's own columns gives the table back. */
  lemma DataFrameOfColumns(rows: seq<Record>)
    ensures DataFrame(ToColumns(rows)) == Ok(rows)
  {
    var data := ToColumns(rows);
    var r := DataFrame(data).value;
    assert |r| == |rows|;
    forall i | 0 <= i < |rows| ensures r[i] == rows[i] {
      assert r[i] == Record(data.projectId[i], data.department[i], data.projectName[i], data.timeframe[i], data.status[i]);
    }
    assert r == rows;
  }
}
