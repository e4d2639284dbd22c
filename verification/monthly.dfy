/** The monthly rightsizing analysis: the history rows of the last 30 days
    are grouped by instance ID, every instance with at least a week of rows
    gets one recommendation, and the recommendations are folded into a
    summary of actions, money and coverage. */
module MonthlyAnalysis {
  import opened Options
  import opened RealSeq
  import opened SeqUtil
  import opened UtilStats
  import opened InstanceCatalog
  import opened Recommender

  /** One history row, reduced to the columns the analysis reads. The date
      is a day number; a metric cell is `None` when it holds no number. */
  datatype Row = Row(date: int, service: Service, id: string, name: string, instanceType: string,
                     cpu: Option<real>, ram: Option<real>, disk: Option<real>)

  /** The three metric columns. */
  datatype Metric = Cpu | Ram | Disk

  /** The fewest rows an instance needs for a recommendation: a week. */
  const MinimumDataPoints: nat := 7

  function Cell(row: Row, m: Metric): Option<real> {
    match m
    case Cpu => row.cpu
    case Ram => row.ram
    case Disk => row.disk
  }

  /** One metric column of `rows`, in row order. */
  function Column(rows: seq<Row>, m: Metric): (col: seq<Option<real>>)
    ensures |col| == |rows|
    ensures forall i :: 0 <= i < |rows| ==> col[i] == Cell(rows[i], m)
  {
    if rows == [] then [] else [Cell(rows[0], m)] + Column(rows[1..], m)
  }

  /** The `ID` column. */
  function Ids(rows: seq<Row>): (ids: seq<string>)
    ensures |ids| == |rows|
    ensures forall i :: 0 <= i < |rows| ==> ids[i] == rows[i].id
  {
    if rows == [] then [] else [rows[0].id] + Ids(rows[1..])
  }

  /** The `Date` column. */
  function Dates(rows: seq<Row>): (dates: seq<int>)
    ensures |dates| == |rows|
    ensures forall i :: 0 <= i < |rows| ==> dates[i] == rows[i].date
  {
    if rows == [] then [] else [rows[0].date] + Dates(rows[1..])
  }

  /** The rows dated on or after `cutoff`, in their original order. */
  function Recent(rows: seq<Row>, cutoff: int): (recent: seq<Row>)
    ensures |recent| <= |rows|
    ensures forall r :: r in recent ==> r in rows && r.date >= cutoff
    ensures forall r :: r in rows && r.date >= cutoff ==> r in recent
  {
    if rows == [] then []
    else
      var rest := Recent(rows[1..], cutoff);
      assert forall r :: r in rows ==> r == rows[0] || r in rows[1..];
      if rows[0].date >= cutoff then [rows[0]] + rest else rest
  }

  /** The rows of one service. */
  function ServiceRows(rows: seq<Row>, service: Service): (selected: seq<Row>)
    ensures |selected| <= |rows|
    ensures forall r :: r in selected ==> r in rows && r.service == service
    ensures forall r :: r in rows && r.service == service ==> r in selected
  {
    if rows == [] then []
    else
      var rest := ServiceRows(rows[1..], service);
      assert forall r :: r in rows ==> r == rows[0] || r in rows[1..];
      if rows[0].service == service then [rows[0]] + rest else rest
  }

  /** Selecting a service distributes over concatenation: its rows keep
      their order and their multiplicity. */
  lemma {:induction false} ServiceRowsAppend(xs: seq<Row>, ys: seq<Row>, service: Service)
    ensures ServiceRows(xs + ys, service) == ServiceRows(xs, service) + ServiceRows(ys, service)
  {
    if xs == [] {
      assert xs + ys == ys;
    } else {
      assert (xs + ys)[0] == xs[0];
      assert (xs + ys)[1..] == xs[1..] + ys;
      ServiceRowsAppend(xs[1..], ys, service);
    }
  }

  /** A single row is selected exactly when it belongs to the service; with
      `ServiceRowsAppend` every row of the service is counted once. */
  lemma ServiceRowsOfOne(r: Row, service: Service)
    ensures ServiceRows([r], service) == if r.service == service then [r] else []
  {
    assert [r][1..] == [];
  }

  /** The rows of one instance, in their original order. */
  function InstanceRows(rows: seq<Row>, id: string): (group: seq<Row>)
    ensures |group| <= |rows|
    ensures forall r :: r in group ==> r in rows && r.id == id
    ensures forall r :: r in rows && r.id == id ==> r in group
    ensures id in Ids(rows) <==> group != []
  {
    if rows == [] then []
    else
      var rest := InstanceRows(rows[1..], id);
      assert forall r :: r in rows ==> r == rows[0] || r in rows[1..];
      assert Ids(rows) == [rows[0].id] + Ids(rows[1..]);
      if rows[0].id == id then [rows[0]] + rest else rest
  }

  /** Grouping distributes over concatenation: the rows of an instance keep
      their order and their multiplicity. */
  lemma {:induction false} InstanceRowsAppend(xs: seq<Row>, ys: seq<Row>, id: string)
    ensures InstanceRows(xs + ys, id) == InstanceRows(xs, id) + InstanceRows(ys, id)
  {
    if xs == [] {
      assert xs + ys == ys;
    } else {
      assert (xs + ys)[0] == xs[0];
      assert (xs + ys)[1..] == xs[1..] + ys;
      InstanceRowsAppend(xs[1..], ys, id);
    }
  }

  /** A single row is its own group when it carries the ID and forms no
      group otherwise; with `InstanceRowsAppend` this counts every row of
      the instance once. */
  lemma InstanceRowsOfOne(r: Row, id: string)
    ensures InstanceRows([r], id) == if r.id == id then [r] else []
  {
    assert [r][1..] == [];
  }

  /** The row of the latest date (the last of them on a tie): the last row
      after sorting by date. */
  function Latest(group: seq<Row>): (latest: Row)
    requires group != []
    ensures latest in group
    ensures forall i :: 0 <= i < |group| ==> group[i].date <= latest.date
  {
    if |group| == 1 then group[0]
    else
      var rest := Latest(group[1..]);
      assert forall i :: 1 <= i < |group| ==> group[i] == group[1..][i - 1];
      if group[0].date > rest.date then group[0] else rest
  }

  /** Disk statistics exist only when the disk column holds some number. */
  function DiskStats(group: seq<Row>): (stats: Option<UtilizationStats>)
    ensures stats.None? <==> forall i :: 0 <= i < |group| ==> group[i].disk.None?
    ensures stats.Some? ==> stats.value.Stats?
    ensures stats.Some? ==> stats.value == Calculate(Column(group, Disk))
  {
    var column := Column(group, Disk);
    if Numeric(column) == [] then None else Some(Calculate(column))
  }

  /** The recommendation for one instance's rows, described by its latest
      row. */
  function RecommendFor(group: seq<Row>, id: string): (r: Recommendation)
    requires group != []
    ensures r.instanceId == id && r.dataPoints == |group|
    ensures r.currentType == Latest(group).instanceType && r.service == Latest(group).service
    ensures r.name == Latest(group).name
    ensures r.cpuStats == Calculate(Column(group, Cpu)) && r.ramStats == Calculate(Column(group, Ram))
    ensures r.diskStats == DiskStats(group)
  {
    var latest := Latest(group);
    Classify(id, latest.name, latest.service, latest.instanceType,
             Calculate(Column(group, Cpu)), Calculate(Column(group, Ram)), DiskStats(group),
             |group|)
  }

  /** The instance IDs of a list of recommendations. */
  function RecommendedIds(recs: seq<Recommendation>): (ids: seq<string>)
    ensures |ids| == |recs|
    ensures forall k :: 0 <= k < |recs| ==> ids[k] == recs[k].instanceId
  {
    if recs == [] then [] else [recs[0].instanceId] + RecommendedIds(recs[1..])
  }

  /** The IDs among `ids` with at least a week of rows, in order. */
  function QualifyingIds(recent: seq<Row>, ids: seq<string>): (qualifying: seq<string>)
    ensures forall id :: id in qualifying <==>
              id in ids && |InstanceRows(recent, id)| >= MinimumDataPoints
    ensures NoDuplicates(ids) ==> NoDuplicates(qualifying)
  {
    if ids == [] then []
    else
      var rest := QualifyingIds(recent, ids[1..]);
      assert forall x :: x in ids <==> x == ids[0] || x in ids[1..];
      assert NoDuplicates(ids) ==> ids[0] !in ids[1..];
      if |InstanceRows(recent, ids[0])| >= MinimumDataPoints then [ids[0]] + rest else rest
  }

  /** The qualifying IDs keep the order of `ids`: filtering distributes
      over concatenation. */
  lemma {:induction false} QualifyingIdsAppend(recent: seq<Row>, a: seq<string>, b: seq<string>)
    ensures QualifyingIds(recent, a + b) == QualifyingIds(recent, a) + QualifyingIds(recent, b)
  {
    if a == [] {
      assert a + b == b;
    } else {
      assert (a + b)[0] == a[0];
      assert (a + b)[1..] == a[1..] + b;
      QualifyingIdsAppend(recent, a[1..], b);
    }
  }

  /** The per-instance loop of `analyze_monthly_trends`: one
      recommendation for each instance with at least a week of rows, in
      order of first appearance. */
  function Recommendations(recent: seq<Row>): (recs: seq<Recommendation>)
    ensures |recs| == |QualifyingIds(recent, Unique(Ids(recent)))|
  {
    var ids := QualifyingIds(recent, Unique(Ids(recent)));
    seq(|ids|, k requires 0 <= k < |ids| => RecommendFor(InstanceRows(recent, ids[k]), ids[k]))
  }

  /** The `k`-th recommendation is for the `k`-th qualifying instance and
      counts its rows. */
  lemma RecommendationAt(recent: seq<Row>, k: nat)
    requires k < |Recommendations(recent)|
    ensures var ids := QualifyingIds(recent, Unique(Ids(recent)));
      && Recommendations(recent)[k].instanceId == ids[k]
      && Recommendations(recent)[k].dataPoints == |InstanceRows(recent, ids[k])|
      && Recommendations(recent)[k].cpuStats == Calculate(Column(InstanceRows(recent, ids[k]), Cpu))
      && Recommendations(recent)[k].ramStats == Calculate(Column(InstanceRows(recent, ids[k]), Ram))
      && Recommendations(recent)[k].diskStats == DiskStats(InstanceRows(recent, ids[k]))
  {
    var ids := QualifyingIds(recent, Unique(Ids(recent)));
    var r := Recommendations(recent)[k];
    assert r == RecommendFor(InstanceRows(recent, ids[k]), ids[k]);
  }

  /** The recommendation list has one entry per instance with at least a
      week of rows and none for any other instance, and each entry counts
      that instance's rows. */
  lemma OneRecommendationPerQualifyingInstance(recent: seq<Row>, id: string)
    ensures id in RecommendedIds(Recommendations(recent)) <==>
              |InstanceRows(recent, id)| >= MinimumDataPoints
    ensures NoDuplicates(RecommendedIds(Recommendations(recent)))
    ensures forall k :: 0 <= k < |Recommendations(recent)| ==>
              var r := Recommendations(recent)[k];
              r.dataPoints == |InstanceRows(recent, r.instanceId)| >= MinimumDataPoints
  {
    var ids := QualifyingIds(recent, Unique(Ids(recent)));
    var recs := Recommendations(recent);
    forall k | 0 <= k < |recs|
      ensures recs[k].instanceId == ids[k]
      ensures recs[k].dataPoints == |InstanceRows(recent, ids[k])|
    {
      RecommendationAt(recent, k);
    }
    assert RecommendedIds(recs) == ids;
    assert ids[..] == ids;
    if |InstanceRows(recent, id)| >= MinimumDataPoints {
      assert id in Ids(recent);
    }
    forall k | 0 <= k < |recs|
      ensures recs[k].dataPoints == |InstanceRows(recent, recs[k].instanceId)| >= MinimumDataPoints
    {
      assert ids[k] in ids;
    }
  }

  /** How many recommendations carry `action`. */
  function CountAction(recs: seq<Recommendation>, action: Action): (n: nat)
    ensures n <= |recs|
  {
    if recs == [] then 0
    else CountAction(recs[..|recs| - 1], action) + (if recs[|recs| - 1].action == action then 1 else 0)
  }

  /** How many recommendations have high priority. */
  function CountHighPriority(recs: seq<Recommendation>): (n: nat)
    ensures n <= |recs|
  {
    if recs == [] then 0
    else CountHighPriority(recs[..|recs| - 1]) + (if recs[|recs| - 1].priority == High then 1 else 0)
  }

  function TotalSavings(recs: seq<Recommendation>): real {
    if recs == [] then 0.0
    else TotalSavings(recs[..|recs| - 1]) + recs[|recs| - 1].estimatedMonthlySavings
  }

  function TotalCostIncrease(recs: seq<Recommendation>): real {
    if recs == [] then 0.0
    else TotalCostIncrease(recs[..|recs| - 1]) + recs[|recs| - 1].estimatedMonthlyCostIncrease
  }

  /** Extending a prefix by one recommendation adds that recommendation's
      share to each count and total. */
  lemma PrefixStep(recs: seq<Recommendation>, i: nat)
    requires i < |recs|
    ensures forall a :: CountAction(recs[..i + 1], a)
                        == CountAction(recs[..i], a) + (if recs[i].action == a then 1 else 0)
    ensures CountHighPriority(recs[..i + 1])
            == CountHighPriority(recs[..i]) + (if recs[i].priority == High then 1 else 0)
    ensures TotalSavings(recs[..i + 1]) == TotalSavings(recs[..i]) + recs[i].estimatedMonthlySavings
    ensures TotalCostIncrease(recs[..i + 1])
            == TotalCostIncrease(recs[..i]) + recs[i].estimatedMonthlyCostIncrease
  {
    assert recs[..i + 1][..i] == recs[..i];
  }

  /** Every recommendation has exactly one of the five actions. */
  lemma {:induction false} ActionCountsSum(recs: seq<Recommendation>)
    ensures CountAction(recs, Monitor) + CountAction(recs, Downsize) + CountAction(recs, Upsize)
            + CountAction(recs, OptimizeMemory) + CountAction(recs, IncreaseStorage) == |recs|
  {
    if recs != [] {
      ActionCountsSum(recs[..|recs| - 1]);
    }
  }

  /** Totals of non-negative savings and increases are non-negative. */
  lemma {:induction false} TotalsNonNegative(recs: seq<Recommendation>)
    requires forall k :: 0 <= k < |recs| ==>
               recs[k].estimatedMonthlySavings >= 0.0 && recs[k].estimatedMonthlyCostIncrease >= 0.0
    ensures TotalSavings(recs) >= 0.0 && TotalCostIncrease(recs) >= 0.0
  {
    if recs != [] {
      TotalsNonNegative(recs[..|recs| - 1]);
    }
  }

  /** The count an action breakdown holds for `action`, 0 when absent. */
  function Tally(breakdown: map<Action, nat>, action: Action): nat {
    if action in breakdown then breakdown[action] else 0
  }

  function BreakdownTotal(breakdown: map<Action, nat>): nat {
    Tally(breakdown, Monitor) + Tally(breakdown, Downsize) + Tally(breakdown, Upsize)
    + Tally(breakdown, OptimizeMemory) + Tally(breakdown, IncreaseStorage)
  }

  /** A service's average of one metric: not reported when the service has
      no rows, `NoNumbers` (pandas' NaN) when none of them holds a number. */
  datatype ColumnAverage = NotReported | NoNumbers | Average(value: real)

  function ServiceAverage(data: seq<Row>, service: Service, m: Metric): (avg: ColumnAverage)
    ensures avg.NotReported? <==> ServiceRows(data, service) == []
    ensures avg.NoNumbers? <==>
              var rows := ServiceRows(data, service);
              rows != [] && forall i :: 0 <= i < |rows| ==> Cell(rows[i], m).None?
    ensures avg.Average? ==>
              var values := Numeric(Column(ServiceRows(data, service), m));
              && values != []
              && avg.value == Mean(values)
              && Minimum(values) <= avg.value <= Maximum(values)
  {
    var rows := ServiceRows(data, service);
    if rows == [] then NotReported
    else
      var values := Numeric(Column(rows, m));
      if values == [] then NoNumbers
      else
        MeanBetweenExtremes(values);
        Average(Mean(values))
  }

  datatype MonthlySummary = MonthlySummary(
    totalRecommendations: nat, actionBreakdown: map<Action, nat>,
    estimatedMonthlySavings: real, estimatedMonthlyCostIncrease: real, netImpact: real,
    highPriorityCount: nat, ec2InstancesAnalyzed: nat, rdsInstancesAnalyzed: nat,
    avgEc2Cpu: ColumnAverage, avgEc2Ram: ColumnAverage,
    avgRdsCpu: ColumnAverage, avgRdsRam: ColumnAverage)

  /** What `_generate_monthly_summary` promises about its result. */
  ghost predicate Summarizes(data: seq<Row>, recs: seq<Recommendation>, s: MonthlySummary) {
    && (forall a :: a in s.actionBreakdown <==> CountAction(recs, a) > 0)
    && (forall a :: a in s.actionBreakdown ==> s.actionBreakdown[a] == CountAction(recs, a))
    && BreakdownTotal(s.actionBreakdown) == |recs|
    && s.totalRecommendations + CountAction(recs, Monitor) == |recs|
    && s.estimatedMonthlySavings == TotalSavings(recs)
    && s.estimatedMonthlyCostIncrease == TotalCostIncrease(recs)
    && s.netImpact == s.estimatedMonthlySavings - s.estimatedMonthlyCostIncrease
    && s.highPriorityCount == CountHighPriority(recs)
    && s.ec2InstancesAnalyzed == |Unique(Ids(ServiceRows(data, EC2)))|
    && s.rdsInstancesAnalyzed == |Unique(Ids(ServiceRows(data, RDS)))|
    && s.avgEc2Cpu == ServiceAverage(data, EC2, Cpu) && s.avgEc2Ram == ServiceAverage(data, EC2, Ram)
    && s.avgRdsCpu == ServiceAverage(data, RDS, Cpu) && s.avgRdsRam == ServiceAverage(data, RDS, Ram)
  }

  /** A breakdown that holds exactly the actions present, each with its
      count, adds up to the number of recommendations. */
  lemma BreakdownAddsUp(breakdown: map<Action, nat>, recs: seq<Recommendation>)
    requires forall a :: a in breakdown <==> CountAction(recs, a) > 0
    requires forall a :: a in breakdown ==> breakdown[a] == CountAction(recs, a)
    ensures BreakdownTotal(breakdown) == |recs|
  {
    ActionCountsSum(recs);
    assert forall a :: Tally(breakdown, a) == CountAction(recs, a);
  }

  /** The loop of `_generate_monthly_summary`: one pass over the
      recommendations counts each action, the non-monitoring and the
      high-priority entries, and sums savings and increases. */
  method TallyRecommendations(recs: seq<Recommendation>)
    returns (counts: map<Action, nat>, active: nat, high: nat, savings: real, increase: real)
    ensures forall a :: a in counts <==> CountAction(recs, a) > 0
    ensures forall a :: a in counts ==> counts[a] == CountAction(recs, a)
    ensures active + CountAction(recs, Monitor) == |recs|
    ensures high == CountHighPriority(recs)
    ensures savings == TotalSavings(recs) && increase == TotalCostIncrease(recs)
  {
    counts, active, high, savings, increase := map[], 0, 0, 0.0, 0.0;
    var i := 0;
    while i < |recs|
      invariant 0 <= i <= |recs|
      invariant forall a :: a in counts <==> CountAction(recs[..i], a) > 0
      invariant forall a :: a in counts ==> counts[a] == CountAction(recs[..i], a)
      invariant active + CountAction(recs[..i], Monitor) == i
      invariant high == CountHighPriority(recs[..i])
      invariant savings == TotalSavings(recs[..i])
      invariant increase == TotalCostIncrease(recs[..i])
    {
      var r := recs[i];
      PrefixStep(recs, i);
      counts := counts[r.action := Tally(counts, r.action) + 1];
      if r.action != Monitor {
        active := active + 1;
      }
      if r.priority == High {
        high := high + 1;
      }
      savings := savings + r.estimatedMonthlySavings;
      increase := increase + r.estimatedMonthlyCostIncrease;
      i := i + 1;
    }
    assert recs[..|recs|] == recs;
  }

  /** `_generate_monthly_summary`: the breakdown's counts add up to the
      number of recommendations, the non-monitoring ones are the total,
      and the net impact is savings minus increase. */
  method Summarize(data: seq<Row>, recs: seq<Recommendation>) returns (s: MonthlySummary)
    ensures Summarizes(data, recs, s)
  {
    var counts, active, high, savings, increase := TallyRecommendations(recs);
    BreakdownAddsUp(counts, recs);
    s := MonthlySummary(
      active, counts, savings, increase, savings - increase, high,
      |Unique(Ids(ServiceRows(data, EC2)))|, |Unique(Ids(ServiceRows(data, RDS)))|,
      ServiceAverage(data, EC2, Cpu), ServiceAverage(data, EC2, Ram),
      ServiceAverage(data, RDS, Cpu), ServiceAverage(data, RDS, Ram));
  }

  /** The coverage figures of the analysed window. */
  datatype Overview = Overview(totalInstances: nat, analysisPeriodDays: nat, dataPoints: nat)

  /** The outcome of `analyze_monthly_trends`: nothing when there is no
      history or no row inside the window. */
  datatype MonthlyResult =
    | NoData
    | Analysis(recommendations: seq<Recommendation>, summary: MonthlySummary, overview: Overview)

  /** `analyze_monthly_trends` with "30 days ago" passed in as `cutoff`. */
  method AnalyzeMonthlyTrends(history: seq<Row>, cutoff: int) returns (result: MonthlyResult)
    ensures result.NoData? <==> forall i :: 0 <= i < |history| ==> history[i].date < cutoff
    ensures result.Analysis? ==>
      var recent := Recent(history, cutoff);
      && result.recommendations == Recommendations(recent)
      && Summarizes(recent, result.recommendations, result.summary)
      && result.overview.totalInstances == |Unique(Ids(recent))|
      && result.overview.analysisPeriodDays == |Unique(Dates(recent))|
      && result.overview.dataPoints == |recent| > 0
  {
    var recent := Recent(history, cutoff);
    if recent == [] {
      assert forall i :: 0 <= i < |history| ==> history[i] in history;
      return NoData;
    }
    assert recent[0] in history;
    var recs := Recommendations(recent);
    var summary := Summarize(recent, recs);
    result := Analysis(recs, summary,
                       Overview(|Unique(Ids(recent))|, |Unique(Dates(recent))|, |recent|));
  }
}
