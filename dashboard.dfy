/**
 * The dashboard (components/Dashboard.tsx): the bar chart of average score
 * per area, highest first, the overall average, the open and closed action
 * counts, the colour bands, the compliance pie and the chart's height.
 */
module Dashboard {
  import opened Seqs
  import opened Types
  import Scoring
  import opened AreaTotals

  /** `chartData`: one bar per area (name, rounded average, audits), highest average first. */
  function ChartData(records: seq<AuditRecord>): seq<AreaStat>
  {
    SortBy(AreaStats(records), NegatedAverage)
  }

  /** The `records.forEach` into the dictionary, the `map` and the descending `sort`. */
  method BuildChartData(records: seq<AuditRecord>) returns (chartData: seq<AreaStat>)
    ensures chartData == ChartData(records)
  {
    var areaStats := ComputeAreaStats(records);
    chartData := SortBy(areaStats, NegatedAverage);
  }

  /** No area has two bars. */
  lemma ChartDataDistinct(records: seq<AuditRecord>)
    ensures DistinctBy(ChartData(records), StatName)
  {
    AreaStatsDistinct(records);
    SortByKeepsDistinct(AreaStats(records), NegatedAverage, StatName);
  }

  /** Every area of the records has a bar. */
  lemma ChartDataCoversAreas(records: seq<AuditRecord>)
    ensures forall i :: 0 <= i < |records| ==>
              exists k :: 0 <= k < |ChartData(records)| && ChartData(records)[k].name == records[i].area
  {
    var stats := AreaStats(records);
    var chart := ChartData(records);
    AreaStatsCover(records);
    SortByFacts(stats, NegatedAverage);
    forall i | 0 <= i < |records|
      ensures exists k :: 0 <= k < |chart| && chart[k].name == records[i].area
    {
      var m :| 0 <= m < |stats| && stats[m].name == records[i].area;
      assert stats[m] in multiset(chart);
      var k :| 0 <= k < |chart| && chart[k] == stats[m];
    }
  }

  /** Every bar is the area of some record. */
  lemma ChartDataOnlyAreas(records: seq<AuditRecord>)
    ensures forall k :: 0 <= k < |ChartData(records)| ==>
              exists i :: 0 <= i < |records| && records[i].area == ChartData(records)[k].name
  {
    var stats := AreaStats(records);
    var chart := ChartData(records);
    AreaStatsFromRecords(records);
    SortByFacts(stats, NegatedAverage);
    forall k | 0 <= k < |chart| ensures exists i :: 0 <= i < |records| && records[i].area == chart[k].name {
      assert chart[k] in multiset(stats);
      var m :| 0 <= m < |stats| && stats[m] == chart[k];
    }
  }

  /** The bars' audit counts add up to the number of records. */
  lemma ChartDataCountsAll(records: seq<AuditRecord>)
    ensures SumBy(ChartData(records), StatCount) == |records|
  {
    AreaStatsCountAll(records);
    SortByKeepsSum(AreaStats(records), NegatedAverage, StatCount);
  }

  /** The bars are ordered by average, non-increasing. */
  lemma ChartDataDescending(records: seq<AuditRecord>)
    ensures forall i, j :: 0 <= i < j < |ChartData(records)| ==>
              ChartData(records)[i].average >= ChartData(records)[j].average
  {
    var chart := ChartData(records);
    SortByFacts(AreaStats(records), NegatedAverage);
    forall i, j | 0 <= i < j < |chart| ensures chart[i].average >= chart[j].average {
      assert NegatedAverage(chart[i]) <= NegatedAverage(chart[j]);
    }
  }

  /**
   * `averageScore`: 0 without records, otherwise the mean of the scores
   * rounded half up.
   */
  function AverageScore(records: seq<AuditRecord>): (r: int)
    ensures |records| == 0 ==> r == 0
    ensures |records| > 0 ==>
              |records| * (2 * r - 1) <= 2 * SumBy(records, RecordScore) < |records| * (2 * r + 1)
  {
    if |records| > 0 then Scoring.RoundDiv(SumBy(records, RecordScore), |records|) else 0
  }

  /** The overall average lies in 0..100 when every score does. */
  lemma AverageScoreInRange(records: seq<AuditRecord>)
    requires forall i :: 0 <= i < |records| ==> 0 <= records[i].score <= 100
    ensures 0 <= AverageScore(records) <= 100
  {
    if |records| > 0 {
      SumOfBoundedScores(records);
      Scoring.RoundDivBetween(SumBy(records, RecordScore), |records|, 0, 100);
    }
  }

  lemma {:induction false} SumOfEqualScores(records: seq<AuditRecord>, c: int)
    requires forall i :: 0 <= i < |records| ==> records[i].score == c
    ensures SumBy(records, RecordScore) == c * |records|
  {
    if records != [] {
      SumOfEqualScores(records[1..], c);
    }
  }

  /** When every audit has the same score, that is the average. */
  lemma AverageOfEqualScores(records: seq<AuditRecord>, c: int)
    requires |records| > 0
    requires forall i :: 0 <= i < |records| ==> records[i].score == c
    ensures AverageScore(records) == c
  {
    SumOfEqualScores(records, c);
    Scoring.RoundDivUnique(c * |records|, |records|, c);
  }

  function NotClosed(): ActionItem -> bool
  {
    (a: ActionItem) => a.status != CLOSED
  }

  function IsClosed(): ActionItem -> bool
  {
    (a: ActionItem) => a.status == CLOSED
  }

  /** `openActions`: the actions not closed. */
  function OpenActions(actions: seq<ActionItem>): nat
  {
    |Filter(actions, NotClosed())|
  }

  /** `closedActions`. */
  function ClosedActions(actions: seq<ActionItem>): nat
  {
    |Filter(actions, IsClosed())|
  }

  /** Every action is either open or closed. */
  lemma OpenPlusClosed(actions: seq<ActionItem>)
    ensures OpenActions(actions) + ClosedActions(actions) == |actions|
  {
    FilterPartition(actions, NotClosed(), IsClosed());
  }

  // -------------------------------------------------------------- colours

  /** The three colour bands both colour functions use. */
  datatype Band = Green | Yellow | Red

  function BandOf(score: int): (b: Band)
    ensures b == Green <==> score >= 90
    ensures b == Yellow <==> 70 <= score < 90
    ensures b == Red <==> score < 70
  {
    if score >= 90 then Green else if score >= 70 then Yellow else Red
  }

  /** `getScoreColor`: the classes of the score badge. */
  function ScoreColor(score: int): string
  {
    if score >= 90 then "text-green-600 bg-green-50 border-green-200"
    else if score >= 70 then "text-yellow-600 bg-yellow-50 border-yellow-200"
    else "text-red-600 bg-red-50 border-red-200"
  }

  /** `getBarColor`: the fill of a bar and of the pie's first slice. */
  function BarColor(score: int): string
  {
    if score >= 90 then "#22c55e"
    else if score >= 70 then "#eab308"
    else "#ef4444"
  }

  /** The class of the overall average under the pie. */
  function AverageTextColor(score: int): string
  {
    if score >= 90 then "text-green-600" else if score >= 70 then "text-yellow-600" else "text-red-600"
  }

  /**
   * The colour functions apply the same thresholds: two scores get the same
   * badge exactly when they get the same bar colour, exactly when they get
   * the same average colour, exactly when they are in the same band.
   */
  lemma ColoursAgree(s: int, t: int)
    ensures ScoreColor(s) == ScoreColor(t) <==> BandOf(s) == BandOf(t)
    ensures BarColor(s) == BarColor(t) <==> BandOf(s) == BandOf(t)
    ensures AverageTextColor(s) == AverageTextColor(t) <==> BandOf(s) == BandOf(t)
  {
    if BandOf(s) != BandOf(t) {
      assert ScoreColor(s)[5] != ScoreColor(t)[5];
      assert BarColor(s)[2] != BarColor(t)[2];
      assert AverageTextColor(s)[5] != AverageTextColor(t)[5];
    }
  }

  // ---------------------------------------------------------- pie, height

  datatype PieSlice = PieSlice(name: string, value: int)

  /** `pieData`: compliance and the gap to 100. */
  function PieData(averageScore: int): seq<PieSlice>
  {
    [PieSlice("Cumplimiento", averageScore), PieSlice("Brecha", 100 - averageScore)]
  }

  /** `pieColors`: the band colour of the average, then a fixed grey. */
  function PieColors(averageScore: int): seq<string>
  {
    [BarColor(averageScore), "#f3f4f6"]
  }

  /** The two slices add up to 100, and with an average in 0..100 both are within 0..100. */
  lemma PieFacts(averageScore: int)
    ensures |PieData(averageScore)| == 2
    ensures PieData(averageScore)[0].value + PieData(averageScore)[1].value == 100
    ensures 0 <= averageScore <= 100 ==>
              0 <= PieData(averageScore)[0].value <= 100 && 0 <= PieData(averageScore)[1].value <= 100
  {
  }

  /** `chartHeight`: 60 pixels per bar, never below 300. */
  function ChartHeight(bars: nat): (h: int)
    ensures h >= 300 && h >= 60 * bars
    ensures h == 300 || h == 60 * bars
  {
    if 60 * bars > 300 then 60 * bars else 300
  }
}
