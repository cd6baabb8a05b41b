/**
 * The per-area reduction that both the dashboard (components/Dashboard.tsx)
 * and the consolidated view (components/ConsolidatedView.tsx) perform: a
 * dictionary from area name to the total score and the number of its audits,
 * filled by one pass over the records, then turned into one row per area
 * with the rounded average.  JavaScript keeps string keys in insertion order,
 * so the dictionary is a sequence of entries in first-seen order.
 */
module AreaTotals {
  import opened Seqs
  import opened Types
  import Scoring

  datatype AreaAcc = AreaAcc(area: string, totalScore: int, count: nat)

  /** A row of `areaStats` / `chartData`: name, rounded average, number of audits. */
  datatype AreaStat = AreaStat(name: string, average: int, count: nat)

  function IsArea(name: string): AreaAcc -> bool
  {
    (e: AreaAcc) => e.area == name
  }

  function InArea(name: string): AuditRecord -> bool
  {
    (r: AuditRecord) => r.area == name
  }

  function AccArea(e: AreaAcc): string { e.area }
  function AccCount(e: AreaAcc): int { e.count }
  function RecordScore(r: AuditRecord): int { r.score }

  /** One step of the `forEach`: create the entry when it is missing, then add the record. */
  function AddRecord(acc: seq<AreaAcc>, r: AuditRecord): seq<AreaAcc>
  {
    match Find(acc, IsArea(r.area))
    case None => acc + [AreaAcc(r.area, r.score, 1)]
    case Some(i) => acc[i := AreaAcc(r.area, acc[i].totalScore + r.score, acc[i].count + 1)]
  }

  /** The dictionary after the records `rs`, in order. */
  function Totals(rs: seq<AuditRecord>): seq<AreaAcc>
  {
    if rs == [] then [] else AddRecord(Totals(rs[..|rs| - 1]), rs[|rs| - 1])
  }

  /** The `records.forEach` that fills the dictionary, field by field. */
  method Accumulate(records: seq<AuditRecord>) returns (acc: seq<AreaAcc>)
    ensures acc == Totals(records)
  {
    acc := [];
    var i := 0;
    while i < |records|
      invariant 0 <= i <= |records|
      invariant acc == Totals(records[..i])
    {
      var r := records[i];
      assert records[..i + 1][..i] == records[..i];
      ghost var before := acc;
      var found := Find(acc, IsArea(r.area));
      var k: nat;
      if found.None? {
        acc := acc + [AreaAcc(r.area, 0, 0)];
        k := |acc| - 1;
      } else {
        k := found.value;
      }
      acc := acc[k := acc[k].(totalScore := acc[k].totalScore + r.score)];
      acc := acc[k := acc[k].(count := acc[k].count + 1)];
      assert acc == AddRecord(before, r);
      i := i + 1;
    }
    assert records[..i] == records;
  }

  /** The records of one area. */
  function RecordsIn(rs: seq<AuditRecord>, name: string): seq<AuditRecord>
  {
    Filter(rs, InArea(name))
  }

  /** Each entry holds exactly the records of its area: their number and their total score. */
  ghost predicate Counts(acc: seq<AreaAcc>, rs: seq<AuditRecord>)
  {
    forall k :: 0 <= k < |acc| ==>
      && acc[k].count == |RecordsIn(rs, acc[k].area)|
      && acc[k].totalScore == SumBy(RecordsIn(rs, acc[k].area), RecordScore)
      && acc[k].count >= 1
  }

  /** Every record's area has an entry. */
  ghost predicate Covers(acc: seq<AreaAcc>, rs: seq<AuditRecord>)
  {
    forall i :: 0 <= i < |rs| ==> Find(acc, IsArea(rs[i].area)).Some?
  }

  ghost predicate Summarises(acc: seq<AreaAcc>, rs: seq<AuditRecord>)
  {
    && DistinctBy(acc, AccArea)
    && Counts(acc, rs)
    && Covers(acc, rs)
    && SumBy(acc, AccCount) == |rs|
  }

  lemma {:induction false} TotalsSummarise(rs: seq<AuditRecord>)
    ensures Summarises(Totals(rs), rs)
  {
    if rs != [] {
      var init, r := rs[..|rs| - 1], rs[|rs| - 1];
      assert rs == init + [r];
      TotalsSummarise(init);
      var acc := Totals(init);
      StepDistinct(acc, r);
      StepCounts(acc, init, r);
      StepCovers(acc, init, r);
      StepSum(acc, init, r);
    }
  }

  lemma RecordsInStep(rs: seq<AuditRecord>, r: AuditRecord, a: string)
    ensures RecordsIn(rs + [r], a) == RecordsIn(rs, a) + (if r.area == a then [r] else [])
    ensures SumBy(RecordsIn(rs + [r], a), RecordScore)
         == SumBy(RecordsIn(rs, a), RecordScore) + (if r.area == a then r.score else 0)
  {
    FilterAppend(rs, [r], InArea(a));
    assert [r][1..] == [];
    SumByAppend(RecordsIn(rs, a), if r.area == a then [r] else [], RecordScore);
  }

  lemma StepDistinct(acc: seq<AreaAcc>, r: AuditRecord)
    requires DistinctBy(acc, AccArea)
    ensures DistinctBy(AddRecord(acc, r), AccArea)
  {
    var acc' := AddRecord(acc, r);
    forall i, j | 0 <= i < j < |acc'| ensures AccArea(acc'[i]) != AccArea(acc'[j]) {
      if j == |acc| {
        assert !IsArea(r.area)(acc[i]);
      }
    }
  }

  lemma StepCounts(acc: seq<AreaAcc>, rs: seq<AuditRecord>, r: AuditRecord)
    requires DistinctBy(acc, AccArea) && Counts(acc, rs) && Covers(acc, rs)
    ensures Counts(AddRecord(acc, r), rs + [r])
  {
    var acc' := AddRecord(acc, r);
    forall k | 0 <= k < |acc'|
      ensures && acc'[k].count == |RecordsIn(rs + [r], acc'[k].area)|
              && acc'[k].totalScore == SumBy(RecordsIn(rs + [r], acc'[k].area), RecordScore)
              && acc'[k].count >= 1
    {
      RecordsInStep(rs, r, acc'[k].area);
      if k == |acc| {
        NoRecordsOfMissingArea(acc, rs, r.area);
      } else if Find(acc, IsArea(r.area)).Some? && k != Find(acc, IsArea(r.area)).value {
        assert AccArea(acc[k]) != AccArea(acc[Find(acc, IsArea(r.area)).value]);
      }
    }
  }

  lemma NoRecordsOfMissingArea(acc: seq<AreaAcc>, rs: seq<AuditRecord>, a: string)
    requires Covers(acc, rs) && Find(acc, IsArea(a)).None?
    ensures RecordsIn(rs, a) == []
  {
    forall i | 0 <= i < |rs| ensures !InArea(a)(rs[i]) {
      var j := Find(acc, IsArea(rs[i].area)).value;
    }
    FilterDropsAll(rs, InArea(a));
  }

  lemma StepCovers(acc: seq<AreaAcc>, rs: seq<AuditRecord>, r: AuditRecord)
    requires Covers(acc, rs)
    ensures Covers(AddRecord(acc, r), rs + [r])
  {
    var acc', rs' := AddRecord(acc, r), rs + [r];
    forall i | 0 <= i < |rs'| ensures Find(acc', IsArea(rs'[i].area)).Some? {
      var j := if i < |rs| then Find(acc, IsArea(rs[i].area)).value
               else if Find(acc, IsArea(r.area)).Some? then Find(acc, IsArea(r.area)).value
               else |acc|;
      assert IsArea(rs'[i].area)(acc'[j]);
    }
  }

  lemma StepSum(acc: seq<AreaAcc>, rs: seq<AuditRecord>, r: AuditRecord)
    requires SumBy(acc, AccCount) == |rs|
    ensures SumBy(AddRecord(acc, r), AccCount) == |rs| + 1
  {
    match Find(acc, IsArea(r.area))
    case None =>
      SumByAppend(acc, [AreaAcc(r.area, r.score, 1)], AccCount);
      assert [AreaAcc(r.area, r.score, 1)][1..] == [];
    case Some(j) =>
      SumByUpdate(acc, j, AreaAcc(r.area, acc[j].totalScore + r.score, acc[j].count + 1), AccCount);
  }

  /** `Object.entries(areaMap).map(...)`: one row per entry, with `Math.round(totalScore / count)`. */
  function StatsOf(t: seq<AreaAcc>): (stats: seq<AreaStat>)
    requires forall k :: 0 <= k < |t| ==> t[k].count >= 1
    ensures |stats| == |t|
    ensures forall k :: 0 <= k < |t| ==> stats[k].name == t[k].area && stats[k].count == t[k].count
    ensures forall k :: 0 <= k < |t| ==>
              t[k].count * (2 * stats[k].average - 1) <= 2 * t[k].totalScore < t[k].count * (2 * stats[k].average + 1)
  {
    seq(|t|, k requires 0 <= k < |t| => AreaStat(t[k].area, Scoring.RoundDiv(t[k].totalScore, t[k].count), t[k].count))
  }

  /** `areaStats` of a list of records. */
  function AreaStats(rs: seq<AuditRecord>): (stats: seq<AreaStat>)
    ensures |stats| == |Totals(rs)|
  {
    TotalsSummarise(rs);
    StatsOf(Totals(rs))
  }

  /** The dictionary pass followed by the `map` over its entries. */
  method ComputeAreaStats(records: seq<AuditRecord>) returns (stats: seq<AreaStat>)
    ensures stats == AreaStats(records)
  {
    var acc := Accumulate(records);
    TotalsSummarise(records);
    stats := StatsOf(acc);
  }

  function StatName(s: AreaStat): string { s.name }
  function StatCount(s: AreaStat): int { s.count }
  function StatAverage(s: AreaStat): int { s.average }
  function NegatedAverage(s: AreaStat): int { -s.average }

  /** No area has two rows. */
  lemma AreaStatsDistinct(rs: seq<AuditRecord>)
    ensures DistinctBy(AreaStats(rs), StatName)
  {
    var t := Totals(rs);
    TotalsSummarise(rs);
    var st := AreaStats(rs);
    forall i, j | 0 <= i < j < |st| ensures st[i].name != st[j].name {
      assert AccArea(t[i]) != AccArea(t[j]);
    }
  }

  /**
   * Each row's count is the number of audits of its area, at least one, and
   * its average is their mean score rounded half up.
   */
  lemma AreaStatsGroups(rs: seq<AuditRecord>)
    ensures forall k :: 0 <= k < |AreaStats(rs)| ==>
              && AreaStats(rs)[k].count == |RecordsIn(rs, AreaStats(rs)[k].name)| >= 1
              && AreaStats(rs)[k].average
                 == Scoring.RoundDiv(SumBy(RecordsIn(rs, AreaStats(rs)[k].name), RecordScore),
                                     |RecordsIn(rs, AreaStats(rs)[k].name)|)
  {
    TotalsSummarise(rs);
  }

  /** Every record's area has a row. */
  lemma AreaStatsCover(rs: seq<AuditRecord>)
    ensures forall i :: 0 <= i < |rs| ==> exists k :: 0 <= k < |AreaStats(rs)| && AreaStats(rs)[k].name == rs[i].area
  {
    var t := Totals(rs);
    TotalsSummarise(rs);
    var st := AreaStats(rs);
    forall i | 0 <= i < |rs| ensures exists k :: 0 <= k < |st| && st[k].name == rs[i].area {
      var k := Find(t, IsArea(rs[i].area)).value;
      assert st[k].name == rs[i].area;
    }
  }

  /** Every row is the area of some record. */
  lemma AreaStatsFromRecords(rs: seq<AuditRecord>)
    ensures forall k :: 0 <= k < |AreaStats(rs)| ==> exists i :: 0 <= i < |rs| && rs[i].area == AreaStats(rs)[k].name
  {
    AreaStatsGroups(rs);
    var st := AreaStats(rs);
    forall k | 0 <= k < |st| ensures exists i :: 0 <= i < |rs| && rs[i].area == st[k].name {
      var group := RecordsIn(rs, st[k].name);
      assert group[0] in rs && InArea(st[k].name)(group[0]);
      var i :| 0 <= i < |rs| && rs[i] == group[0];
      assert rs[i].area == st[k].name;
    }
  }

  lemma {:induction false} SumOfStatCounts(t: seq<AreaAcc>, st: seq<AreaStat>)
    requires |st| == |t|
    requires forall k :: 0 <= k < |t| ==> st[k].count == t[k].count
    ensures SumBy(st, StatCount) == SumBy(t, AccCount)
  {
    if t != [] {
      SumOfStatCounts(t[1..], st[1..]);
    }
  }

  /** The rows' audit counts add up to the number of records. */
  lemma AreaStatsCountAll(rs: seq<AuditRecord>)
    ensures SumBy(AreaStats(rs), StatCount) == |rs|
  {
    TotalsSummarise(rs);
    SumOfStatCounts(Totals(rs), AreaStats(rs));
  }

  lemma {:induction false} SumOfBoundedScores(rs: seq<AuditRecord>)
    requires forall i :: 0 <= i < |rs| ==> 0 <= rs[i].score <= 100
    ensures 0 <= SumBy(rs, RecordScore) <= 100 * |rs|
  {
    if rs != [] {
      SumOfBoundedScores(rs[1..]);
    }
  }

  /** When every score is within 0..100, so is every area's average. */
  lemma AreaAveragesInRange(rs: seq<AuditRecord>)
    requires forall i :: 0 <= i < |rs| ==> 0 <= rs[i].score <= 100
    ensures forall k :: 0 <= k < |AreaStats(rs)| ==> 0 <= AreaStats(rs)[k].average <= 100
  {
    AreaStatsGroups(rs);
    forall k | 0 <= k < |AreaStats(rs)| ensures 0 <= AreaStats(rs)[k].average <= 100 {
      var group := RecordsIn(rs, AreaStats(rs)[k].name);
      SumOfBoundedScores(group);
      Scoring.RoundDivBetween(SumBy(group, RecordScore), |group|, 0, 100);
    }
  }
}
