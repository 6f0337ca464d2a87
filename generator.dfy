/** The generator: project names, project IDs, statuses drawn by timeframe, and
    the column-wise construction of the table. Every random draw is an input;
    `Draws` holds the ones a run consumes. */
module Generator {
  import opened Outcomes
  import opened Strings
  import opened Sampling
  import opened Catalog
  import opened Table

  /** Prefix word and project type joined by a space. The draws are the indices
      `random.choice` picks. The name splits back at its first space into the two tokens. */
  function GenerateProjectName(prefixDraw: nat, typeDraw: nat): (name: string)
    requires prefixDraw < |ProjectPrefixes| && typeDraw < |ProjectTypes|
    ensures SplitAt(name, ' ') == Some((ProjectPrefixes[prefixDraw], ProjectTypes[typeDraw]))
  {
    ProjectPrefixesHaveNoSpace();
    SplitAtJoin(ProjectPrefixes[prefixDraw], ' ', ProjectTypes[typeDraw]);
    ProjectPrefixes[prefixDraw] + " " + ProjectTypes[typeDraw]
  }

  /** The department's prefix, '-', and the decimal text of `index + 1000`. An
      unknown department is the dictionary's KeyError. */
  function GenerateProjectId(department: string, index: int): (id: Result<string>)
    ensures id.Ok? <==> department in DeptToPrefix
    ensures id.Err? ==> id.error == KeyError(department)
  {
    if department !in DeptToPrefix then Err(KeyError(department))
    else Ok(DeptToPrefix[department] + "-" + IntToString(index + 1000))
  }

  /** A generated ID reads back as its department's prefix and `index + 1000`. */
  lemma ProjectIdRoundTrip(department: string, index: int)
    requires department in DeptToPrefix
    ensures SplitProjectId(GenerateProjectId(department, index).value) == Some((DeptToPrefix[department], index + 1000))
    ensures var parts := SplitAt(GenerateProjectId(department, index).value, '-');
            parts.Some? && (index + 1000 > 0 ==> |parts.value.1| > 0 && AllDigits(parts.value.1) && parts.value.1[0] != '0')
  {
    PrefixesInjective();
    SplitAtJoin(DeptToPrefix[department], '-', IntToString(index + 1000));
    ParseIntToString(index + 1000);
  }

  /** Reads a project ID back: the text before its first '-' and the integer after it. */
  function SplitProjectId(id: string): Option<(string, int)>
  {
    match SplitAt(id, '-')
    case None => None
    case Some(parts) =>
      match ParseInt(parts.1)
      case None => None
      case Some(n) => Some((parts.0, n))
  }

  /** The first department in `ds` whose prefix is `prefix`. */
  function FindDepartment(ds: seq<string>, prefix: string): Option<string>
  {
    if ds == [] then None
    else if ds[0] in DeptToPrefix && DeptToPrefix[ds[0]] == prefix then Some(ds[0])
    else FindDepartment(ds[1..], prefix)
  }

  /** The department an ID belongs to, recovered from its prefix alone. */
  function DepartmentOf(id: string): Option<string>
  {
    match SplitProjectId(id)
    case None => None
    case Some(parts) => FindDepartment(Departments, parts.0)
  }

  lemma {:induction false} FindDepartmentAt(ds: seq<string>, prefix: string, j: nat)
    requires j < |ds| && ds[j] in DeptToPrefix && DeptToPrefix[ds[j]] == prefix
    requires forall i | 0 <= i < j :: !(ds[i] in DeptToPrefix && DeptToPrefix[ds[i]] == prefix)
    ensures FindDepartment(ds, prefix) == Some(ds[j])
  {
    if j > 0 {
      assert !(ds[0] in DeptToPrefix && DeptToPrefix[ds[0]] == prefix);
      FindDepartmentAt(ds[1..], prefix, j - 1);
    }
  }

  /** The prefix of a generated ID names its department, since prefixes are unique. */
  lemma ProjectIdNamesDepartment(department: string, index: int)
    requires department in DeptToPrefix
    ensures DepartmentOf(GenerateProjectId(department, index).value) == Some(department)
  {
    PrefixMapTotal();
    PrefixesInjective();
    var j :| 0 <= j < |Departments| && Departments[j] == department;
    FindDepartmentAt(Departments, DeptToPrefix[department], j);
    ProjectIdRoundTrip(department, index);
  }

  /** Two IDs built from different departments or different row indices differ. */
  lemma ProjectIdsDiffer(d1: string, i1: int, d2: string, i2: int)
    requires d1 in DeptToPrefix && d2 in DeptToPrefix
    requires d1 != d2 || i1 != i2
    ensures GenerateProjectId(d1, i1).value != GenerateProjectId(d2, i2).value
  {
    ProjectIdNamesDepartment(d1, i1);
    ProjectIdNamesDepartment(d2, i2);
    ProjectIdRoundTrip(d1, i1);
    ProjectIdRoundTrip(d2, i2);
  }

  /** `random.choices(keys, weights=values, k=1)[0]` over the timeframe's table,
      for the scaled draw `draw`; an unknown timeframe is the dictionary's KeyError. */
  function GenerateStatus(timeframe: string, draw: nat): (s: Result<string>)
    ensures timeframe !in StatusProbabilities ==> s == Err(KeyError(timeframe))
    ensures timeframe in StatusProbabilities ==> s.Ok? && s.value in StatusOptions
  {
    if timeframe !in StatusProbabilities then Err(KeyError(timeframe))
    else
      var probs := StatusProbabilities[timeframe];
      TableWellFormedAt(timeframe);
      ChoicesOverTable(probs, draw);
      Choices(Keys(probs), Weights(probs), draw)
  }

  /** Weighted choice over a well-formed status table always succeeds with a status option. */
  lemma ChoicesOverTable(t: WeightTable, draw: nat)
    requires TableWellFormed(t)
    ensures Choices(Keys(t), Weights(t), draw).Ok?
    ensures Choices(Keys(t), Weights(t), draw).value in StatusOptions
  {
    assert Choices(Keys(t), Weights(t), draw).value in Keys(t);
  }

  /** `status` has a positive weight in `timeframe`'s table. */
  predicate Possible(timeframe: string, status: string)
  {
    timeframe in StatusProbabilities
    && WeightOf(StatusProbabilities[timeframe], status).Some?
    && WeightOf(StatusProbabilities[timeframe], status).value > 0
  }

  lemma {:induction false} WeightOfAt(t: WeightTable, i: nat)
    requires i < |t| && NoDuplicates(Keys(t))
    ensures WeightOf(t, t[i].0) == Some(t[i].1)
  {
    if i > 0 {
      assert Keys(t)[0] != Keys(t)[i];
      assert Keys(t[1..]) == Keys(t)[1..];
      WeightOfAt(t[1..], i - 1);
    }
  }

  lemma ChoicePossible(t: WeightTable, draw: nat)
    requires TableWellFormed(t) && draw < Sum(Weights(t))
    ensures WeightOf(t, Choices(Keys(t), Weights(t), draw).value).Some?
    ensures WeightOf(t, Choices(Keys(t), Weights(t), draw).value).value > 0
  {
    var k := ChoiceIndex(Weights(t), draw);
    ChoiceIndexPositive(Weights(t), draw);
    WeightOfAt(t, k);
  }

  /** A draw below the timeframe's total weight never yields a status whose weight is 0. */
  lemma GenerateStatusIsPossible(timeframe: string, draw: nat)
    requires timeframe in StatusProbabilities && draw < StatusTotal(timeframe)
    ensures Possible(timeframe, GenerateStatus(timeframe, draw).value)
  {
    var t := StatusProbabilities[timeframe];
    TableWellFormedAt(timeframe);
    ChoicePossible(t, draw);
  }

  /** The status at position i of the table is drawn exactly when the draw falls in
      [Sum(weights[..i]), Sum(weights[..i + 1])), so statuses are drawn in proportion to their weights. */
  lemma GenerateStatusDistribution(timeframe: string, draw: nat, i: nat)
    requires timeframe in StatusProbabilities && draw < StatusTotal(timeframe)
    requires i < |StatusProbabilities[timeframe]|
    ensures var t := StatusProbabilities[timeframe];
            GenerateStatus(timeframe, draw) == Ok(t[i].0)
            <==> Sum(Weights(t)[..i]) <= draw < Sum(Weights(t)[..i + 1])
  {
    TableWellFormedAt(timeframe);
    ChoiceDistribution(StatusProbabilities[timeframe], draw, i);
  }

  lemma ChoiceDistribution(t: WeightTable, draw: nat, i: nat)
    requires NoDuplicates(Keys(t)) && draw < Sum(Weights(t)) && i < |t|
    ensures Choices(Keys(t), Weights(t), draw) == Ok(t[i].0)
            <==> Sum(Weights(t)[..i]) <= draw < Sum(Weights(t)[..i + 1])
  {
    var w := Weights(t);
    ChoiceIndexInterval(w, draw, i);
    var k := ChoiceIndex(w, draw);
    assert Choices(Keys(t), w, draw) == Ok(Keys(t)[k]);
    if k != i {
      assert Keys(t)[k] != Keys(t)[i];
    }
  }

  /** The statuses each timeframe can produce: past is never committed or in
      backlog, current is never cancelled, future is never completed or cancelled. */
  lemma StatusSupport()
    ensures forall s :: Possible("past", s) <==> s in ["completed", "cancelled", "in_progress"]
    ensures forall s :: Possible("current", s) <==> s in ["in_progress", "committed", "backlog", "completed"]
    ensures forall s :: Possible("future", s) <==> s in ["backlog", "committed", "in_progress"]
  {
    WeightOfFive(StatusProbabilities["past"]);
    WeightOfFive(StatusProbabilities["current"]);
    WeightOfFive(StatusProbabilities["future"]);
  }

  /** The weight of `s` in a five-entry table, written out entry by entry. */
  function WeightOfFiveEntries(t: WeightTable, s: string): Option<nat>
    requires |t| == 5
  {
    if s == t[0].0 then Some(t[0].1) else if s == t[1].0 then Some(t[1].1)
    else if s == t[2].0 then Some(t[2].1) else if s == t[3].0 then Some(t[3].1)
    else if s == t[4].0 then Some(t[4].1) else None
  }

  lemma WeightOfFive(t: WeightTable)
    requires |t| == 5
    ensures forall s :: WeightOf(t, s) == WeightOfFiveEntries(t, s)
  {
    var t1 := t[1..];
    var t2 := t1[1..];
    var t3 := t2[1..];
    var t4 := t3[1..];
    assert t1[0] == t[1] && t2[0] == t[2] && t3[0] == t[3] && t4[0] == t[4] && t4[1..] == [];
    forall s ensures WeightOf(t, s) == WeightOfFiveEntries(t, s) {
      assert WeightOf(t4[1..], s) == None;
      assert WeightOf(t4, s) == if s == t[4].0 then Some(t[4].1) else None;
      assert WeightOf(t3, s) == if s == t[3].0 then Some(t[3].1) else WeightOf(t4, s);
      assert WeightOf(t2, s) == if s == t[2].0 then Some(t[2].1) else WeightOf(t3, s);
      assert WeightOf(t1, s) == if s == t[1].0 then Some(t[1].1) else WeightOf(t2, s);
    }
  }

  /** The draws one run consumes, one sequence per call site: indices into the
      department list, the timeframe list and the two name vocabularies, and the
      scaled status draw of each row. */
  datatype Draws = Draws(departments: seq<nat>, timeframes: seq<nat>, namePrefixes: seq<nat>,
                         nameTypes: seq<nat>, statuses: seq<nat>)

  /** `n` draws of each kind, each in the range its generator produces. */
  predicate ValidDraws(n: nat, d: Draws)
  {
    && |d.departments| == n && |d.timeframes| == n && |d.namePrefixes| == n
    && |d.nameTypes| == n && |d.statuses| == n
    && (forall i | 0 <= i < n :: d.departments[i] < |Departments|)
    && (forall i | 0 <= i < n :: d.namePrefixes[i] < |ProjectPrefixes| && d.nameTypes[i] < |ProjectTypes|)
    && (forall i | 0 <= i < n ::
          d.timeframes[i] < |Timeframes| && d.statuses[i] < StatusTotal(Timeframes[d.timeframes[i]]))
  }

  /** The record count the script uses. */
  const NRecords: nat := 20

  /** The project_id column: each department with its row index. */
  function ProjectIds(departmentsData: seq<string>): (ids: seq<string>)
    requires forall i | 0 <= i < |departmentsData| :: departmentsData[i] in DeptToPrefix
    ensures |ids| == |departmentsData|
    ensures forall i | 0 <= i < |ids| :: Ok(ids[i]) == GenerateProjectId(departmentsData[i], i)
  {
    seq(|departmentsData|, i requires 0 <= i < |departmentsData| => GenerateProjectId(departmentsData[i], i).value)
  }

  /** The project_name column, one name per pair of vocabulary draws. */
  function ProjectNames(prefixDraws: seq<nat>, typeDraws: seq<nat>): (names: seq<string>)
    requires |prefixDraws| == |typeDraws|
    requires forall i | 0 <= i < |prefixDraws| :: prefixDraws[i] < |ProjectPrefixes| && typeDraws[i] < |ProjectTypes|
    ensures |names| == |prefixDraws|
    ensures forall i | 0 <= i < |names| ::
              SplitAt(names[i], ' ') == Some((ProjectPrefixes[prefixDraws[i]], ProjectTypes[typeDraws[i]]))
  {
    seq(|prefixDraws|, i requires 0 <= i < |prefixDraws| => GenerateProjectName(prefixDraws[i], typeDraws[i]))
  }

  /** The status column: each row's status drawn from its own timeframe's table. */
  function Statuses(timeframesData: seq<string>, draws: seq<nat>): (statuses: seq<string>)
    requires |draws| == |timeframesData|
    requires forall i | 0 <= i < |timeframesData| :: timeframesData[i] in StatusProbabilities
    ensures |statuses| == |timeframesData|
    ensures forall i | 0 <= i < |statuses| :: Ok(statuses[i]) == GenerateStatus(timeframesData[i], draws[i])
  {
    seq(|timeframesData|, i requires 0 <= i < |timeframesData| => GenerateStatus(timeframesData[i], draws[i]).value)
  }

  /** The data dictionary of the script: departments and timeframes drawn
      uniformly from the catalog lists, then the columns above built from them. */
  function GenerateData(n: nat, d: Draws): (data: Columns)
    requires ValidDraws(n, d)
    ensures SameLengths(data) && |data.projectId| == n
    ensures forall i | 0 <= i < n ::
              data.department[i] == Departments[d.departments[i]] && data.timeframe[i] == Timeframes[d.timeframes[i]]
    ensures forall i | 0 <= i < n :: Ok(data.projectId[i]) == GenerateProjectId(data.department[i], i)
    ensures forall i | 0 <= i < n ::
              SplitAt(data.projectName[i], ' ') == Some((ProjectPrefixes[d.namePrefixes[i]], ProjectTypes[d.nameTypes[i]]))
    ensures forall i | 0 <= i < n :: Ok(data.status[i]) == GenerateStatus(data.timeframe[i], d.statuses[i])
  {
    CatalogListsResolve();
    var departmentsData := seq(n, i requires 0 <= i < n => Departments[d.departments[i]]);
    var timeframesData := seq(n, i requires 0 <= i < n => Timeframes[d.timeframes[i]]);
    Columns(ProjectIds(departmentsData), departmentsData, ProjectNames(d.namePrefixes, d.nameTypes),
            timeframesData, Statuses(timeframesData, d.statuses))
  }

  /** The generated frame has n rows; its IDs are pairwise distinct and each names
      its row's department; each status is possible for its row's timeframe. */
  lemma GeneratedTable(n: nat, d: Draws)
    requires ValidDraws(n, d)
    ensures DataFrame(GenerateData(n, d)).Ok?
    ensures var rows := DataFrame(GenerateData(n, d)).value;
            && |rows| == n
            && (forall i, j | 0 <= i < j < n :: rows[i].projectId != rows[j].projectId)
            && (forall i | 0 <= i < n :: SplitProjectId(rows[i].projectId) == Some((DeptToPrefix[rows[i].department], i + 1000)))
            && (forall i | 0 <= i < n :: DepartmentOf(rows[i].projectId) == Some(rows[i].department))
            && (forall i | 0 <= i < n :: Possible(rows[i].timeframe, rows[i].status))
            && (forall i | 0 <= i < n ::
                  rows[i].department in Departments && rows[i].timeframe in Timeframes && rows[i].status in StatusOptions)
  {
    var data := GenerateData(n, d);
    var rows := DataFrame(data).value;
    assert ToColumns(rows) == data;
    CatalogListsResolve();
    forall i | 0 <= i < n
      ensures rows[i].department in DeptToPrefix && rows[i].timeframe in StatusProbabilities
      ensures rows[i].projectId == GenerateProjectId(rows[i].department, i).value
      ensures rows[i].status == GenerateStatus(rows[i].timeframe, d.statuses[i]).value
      ensures rows[i].department in Departments && rows[i].timeframe in Timeframes && rows[i].status in StatusOptions
    {
      assert rows[i].projectId == data.projectId[i] && rows[i].department == data.department[i];
      assert rows[i].status == data.status[i] && rows[i].timeframe == data.timeframe[i];
    }
    forall i, j | 0 <= i < j < n ensures rows[i].projectId != rows[j].projectId {
      ProjectIdsDiffer(rows[i].department, i, rows[j].department, j);
    }
    forall i | 0 <= i < n
      ensures SplitProjectId(rows[i].projectId) == Some((DeptToPrefix[rows[i].department], i + 1000))
      ensures DepartmentOf(rows[i].projectId) == Some(rows[i].department)
      ensures Possible(rows[i].timeframe, rows[i].status)
    {
      ProjectIdRoundTrip(rows[i].department, i);
      ProjectIdNamesDepartment(rows[i].department, i);
      GenerateStatusIsPossible(rows[i].timeframe, d.statuses[i]);
    }
  }

  /** The decimal text of 1000 + k for k < 10. */
  lemma ThousandsText(k: nat)
    requires k < 10
    ensures IntToString(1000 + k) == "100" + [DigitChar(k)]
  {
    assert NatToString(1) == "1";
    assert NatToString(10) == NatToString(1) + "0" == "10";
    assert NatToString(100) == NatToString(10) + "0" == "100";
    assert NatToString(1000 + k) == NatToString(100) + [DigitChar(k)];
  }

  lemma SampleProjectId(department: string, index: nat)
    requires department in DeptToPrefix && index < 10
    ensures GenerateProjectId(department, index) == Ok(DeptToPrefix[department] + "-100" + [DigitChar(index)])
  {
    ThousandsText(index);
    assert DeptToPrefix[department] + "-" + ("100" + [DigitChar(index)]) == DeptToPrefix[department] + "-100" + [DigitChar(index)];
  }

  /** Departments IB, RISK, IB, WM, RISK in rows 0 to 4 get IDs numbered by row, not per department. */
  lemma FiveRowProjectIds()
    ensures var ids := ProjectIds(["Investment Banking", "Risk Management", "Investment Banking", "Wealth Management", "Risk Management"]);
            && |ids| == 5 && ids[0] == "IB-1000" && ids[1] == "RISK-1001" && ids[2] == "IB-1002"
            && ids[3] == "WM-1003" && ids[4] == "RISK-1004"
  {
    var ds := ["Investment Banking", "Risk Management", "Investment Banking", "Wealth Management", "Risk Management"];
    var ids := ProjectIds(ds);
    assert ids[0] == "IB-1000" by {
      SampleProjectId(ds[0], 0);
      assert "IB" + "-100" + [DigitChar(0)] == "IB-1000";
    }
    assert ids[1] == "RISK-1001" by {
      SampleProjectId(ds[1], 1);
      assert "RISK" + "-100" + [DigitChar(1)] == "RISK-1001";
    }
    assert ids[2] == "IB-1002" by {
      SampleProjectId(ds[2], 2);
      assert "IB" + "-100" + [DigitChar(2)] == "IB-1002";
    }
    assert ids[3] == "WM-1003" by {
      SampleProjectId(ds[3], 3);
      assert "WM" + "-100" + [DigitChar(3)] == "WM-1003";
    }
    assert ids[4] == "RISK-1004" by {
      SampleProjectId(ds[4], 4);
      assert "RISK" + "-100" + [DigitChar(4)] == "RISK-1004";
    }
  }

}
