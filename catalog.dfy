/** The static catalog of the generator: departments and their ticket prefixes,
    the project-name vocabularies, the timeframes, the status options and the
    status weights per timeframe. Weights are the source's probabilities scaled
    by 100, so each timeframe's weights total 100. */
module Catalog {
  import opened Outcomes
  import opened Sampling

  const Departments: seq<string> := [
    "Investment Banking",
    "Risk Management",
    "Wealth Management",
    "Corporate Finance",
    "Trading & Securities",
    "Compliance & Legal",
    "Financial Planning",
    "Asset Management",
    "Treasury Operations",
    "Credit Analysis"
  ]

  const DeptToPrefix: map<string, string> := map[
    "Investment Banking" := "IB",
    "Risk Management" := "RISK",
    "Wealth Management" := "WM",
    "Corporate Finance" := "FIN",
    "Trading & Securities" := "TRADE",
    "Compliance & Legal" := "COMPL",
    "Financial Planning" := "FP",
    "Asset Management" := "AM",
    "Treasury Operations" := "TREAS",
    "Credit Analysis" := "CRED"
  ]

  const ProjectPrefixes: seq<string> := [
    "Digital", "Smart", "Automated", "Integrated", "Enhanced",
    "Real-time", "AI-Driven", "Cloud-Based", "Secure", "Advanced"
  ]

  const ProjectTypes: seq<string> := [
    "Portfolio Management", "Risk Assessment", "Trading Platform",
    "Compliance System", "Analytics Dashboard", "Reporting Framework",
    "Client Portal", "Payment Gateway", "Fraud Detection", "Data Pipeline"
  ]

  const Timeframes: seq<string> := ["past", "current", "future"]

  const StatusOptions: seq<string> := ["backlog", "committed", "in_progress", "completed", "cancelled"]

  /** A dictionary from status to weight, in its insertion order (the order
      `keys()` and `values()` list it in). */
  type WeightTable = seq<(string, nat)>

  const StatusProbabilities: map<string, WeightTable> := map["past" := PastTable, "current" := CurrentTable, "future" := FutureTable]

  const PastTable: WeightTable :=
    [("completed", 70), ("cancelled", 25), ("in_progress", 5), ("committed", 0), ("backlog", 0)]
  const CurrentTable: WeightTable :=
    [("in_progress", 60), ("committed", 20), ("backlog", 10), ("completed", 10), ("cancelled", 0)]
  const FutureTable: WeightTable :=
    [("backlog", 70), ("committed", 25), ("in_progress", 5), ("completed", 0), ("cancelled", 0)]

  /** `list(t.keys())` */
  function Keys(t: WeightTable): seq<string>
  {
    seq(|t|, i requires 0 <= i < |t| => t[i].0)
  }

  /** `list(t.values())` */
  function Weights(t: WeightTable): seq<nat>
  {
    seq(|t|, i requires 0 <= i < |t| => t[i].1)
  }

  /** `t[s]`: the weight stored under `s`. */
  function WeightOf(t: WeightTable, s: string): Option<nat>
  {
    if t == [] then None else if t[0].0 == s then Some(t[0].1) else WeightOf(t[1..], s)
  }

  predicate NoDuplicates(s: seq<string>)
  {
    forall i, j | 0 <= i < j < |s| :: s[i] != s[j]
  }

  /** The total weight of a timeframe's table; 0 for a name that is not a timeframe. */
  function StatusTotal(timeframe: string): nat
  {
    if timeframe in StatusProbabilities then Sum(Weights(StatusProbabilities[timeframe])) else 0
  }

  /** The department list and the prefix dictionary have the same ten departments. */
  lemma PrefixMapTotal()
    ensures |Departments| == 10 && NoDuplicates(Departments)
    ensures forall d :: d in DeptToPrefix <==> d in Departments
  {
  }

  /** Every entry of the department and timeframe lists has its dictionary entry. */
  lemma CatalogListsResolve()
    ensures forall k | 0 <= k < |Departments| :: Departments[k] in DeptToPrefix
    ensures forall k | 0 <= k < |Timeframes| :: Timeframes[k] in StatusProbabilities
  {
  }

  /** No two departments share a prefix, and no prefix contains '-'. */
  lemma PrefixesInjective()
    ensures forall i, j | 0 <= i < j < |Departments| :: DeptToPrefix[Departments[i]] != DeptToPrefix[Departments[j]]
    ensures forall d | d in DeptToPrefix :: '-' !in DeptToPrefix[d]
  {
    var ps := ["IB", "RISK", "WM", "FIN", "TRADE", "COMPL", "FP", "AM", "TREAS", "CRED"];
    assert NoDuplicates(ps);
    assert forall i | 0 <= i < |Departments| :: DeptToPrefix[Departments[i]] == ps[i] by {
      forall i | 0 <= i < |Departments| ensures DeptToPrefix[Departments[i]] == ps[i] {
        if i == 0 {} else if i == 1 {} else if i == 2 {} else if i == 3 {} else if i == 4 {}
        else if i == 5 {} else if i == 6 {} else if i == 7 {} else if i == 8 {} else {}
      }
    }
  }

  /** Name prefixes are single words, so a name splits back at its first space. */
  lemma ProjectPrefixesHaveNoSpace()
    ensures |ProjectPrefixes| == 10 && |ProjectTypes| == 10
    ensures forall p | p in ProjectPrefixes :: ' ' !in p
  {
  }

  /** A status table lists the five status options once each, with weights totalling 100. */
  predicate TableWellFormed(t: WeightTable)
  {
    && NoDuplicates(Keys(t)) && |t| == |StatusOptions|
    && (forall s | s in Keys(t) :: s in StatusOptions) && (forall s | s in StatusOptions :: s in Keys(t))
    && Sum(Weights(t)) == 100
  }

  /** Every timeframe has a table, and every table is well formed. */
  lemma StatusTablesWellFormed()
    ensures forall tf :: tf in StatusProbabilities <==> tf in Timeframes
    ensures forall tf | tf in StatusProbabilities :: TableWellFormed(StatusProbabilities[tf])
  {
    PastTableWellFormed();
    CurrentTableWellFormed();
    FutureTableWellFormed();
  }

  lemma TableWellFormedAt(tf: string)
    requires tf in StatusProbabilities
    ensures TableWellFormed(StatusProbabilities[tf])
  {
    StatusTablesWellFormed();
  }

  lemma PastTableWellFormed()
    ensures TableWellFormed(PastTable)
  {
    var t := PastTable;
    assert Keys(t) == ["completed", "cancelled", "in_progress", "committed", "backlog"];
    SumOfFive(Weights(t));
  }

  lemma CurrentTableWellFormed()
    ensures TableWellFormed(CurrentTable)
  {
    var t := CurrentTable;
    assert Keys(t) == ["in_progress", "committed", "backlog", "completed", "cancelled"];
    SumOfFive(Weights(t));
  }

  lemma FutureTableWellFormed()
    ensures TableWellFormed(FutureTable)
  {
    var t := FutureTable;
    assert Keys(t) == ["backlog", "committed", "in_progress", "completed", "cancelled"];
    SumOfFive(Weights(t));
  }

  lemma SumOfFive(w: seq<nat>)
    requires |w| == 5
    ensures Sum(w) == w[0] + w[1] + w[2] + w[3] + w[4]
  {
    assert w[..5] == w;
    SumStep(w, 0); SumStep(w, 1); SumStep(w, 2); SumStep(w, 3); SumStep(w, 4);
  }
}
