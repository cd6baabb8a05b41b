/**
 * The consolidated analysis screen (components/ConsolidatedView.tsx): the
 * compliance of every question across all audits, the questions with the
 * lowest and the highest compliance, and the areas with the lowest and the
 * highest average score.  The area lists come from splitting the areas,
 * sorted by average, at the midpoint, so that no area is in both.
 */
module ConsolidatedView {
  import opened Seqs
  import opened Types
  import Scoring
  import opened AreaTotals

  /** A question with its compliance percentage and the number of answers that counted. */
  datatype QuestionStat = QuestionStat(id: nat, text: string, percentage: int, count: nat)

  function ForQuestion(qid: nat): Answer -> bool
  {
    (a: Answer) => a.questionId == qid
  }

  /** `record.answers.find(a => a.questionId === q.id)`, reduced to its rating. */
  function FirstAnswer(answers: seq<Answer>, qid: nat): (r: Option<Rating>)
    ensures r.Some? <==> exists i :: 0 <= i < |answers| && answers[i].questionId == qid
    ensures r.Some? ==> exists i :: 0 <= i < |answers| && answers[i].questionId == qid && r.value == answers[i].rating
                                   && (forall j :: 0 <= j < i ==> answers[j].questionId != qid)
  {
    match Find(answers, ForQuestion(qid))
    case None =>
      assert forall i :: 0 <= i < |answers| ==> !ForQuestion(qid)(answers[i]);
      None
    case Some(i) => Some(answers[i].rating)
  }

  /** The ratings the records give question `qid`: one per record that answers it, in order. */
  function RatingsFor(rs: seq<AuditRecord>, qid: nat): seq<Rating>
  {
    if rs == [] then []
    else
      RatingsFor(rs[..|rs| - 1], qid)
      + match FirstAnswer(rs[|rs| - 1].answers, qid)
        case None => []
        case Some(r) => [r]
  }

  /** The entry of `questionStats` for question `q`. */
  function StatFor(rs: seq<AuditRecord>, q: Question): QuestionStat
  {
    var ratings := RatingsFor(rs, q.id);
    QuestionStat(q.id, q.text, Scoring.Score(ratings), Scoring.MaxPoints(ratings))
  }

  /** `questionStats`: one entry per question of the fixed list, in its order. */
  function StatsFor(questions: seq<Question>, rs: seq<AuditRecord>): (stats: seq<QuestionStat>)
    ensures |stats| == |questions|
  {
    seq(|questions|, i requires 0 <= i < |questions| => StatFor(rs, questions[i]))
  }

  /** The records whose first answer to `qid` is counted, that is, is not NA. */
  function Counted(qid: nat): AuditRecord -> bool
  {
    (r: AuditRecord) => FirstAnswer(r.answers, qid).Some? && FirstAnswer(r.answers, qid).value != NA
  }

  lemma PointsStep(s: seq<Rating>, r: Rating)
    ensures Scoring.Points(s + [r]) == Scoring.Points(s) + Scoring.Halves(r)
    ensures Scoring.MaxPoints(s + [r]) == Scoring.MaxPoints(s) + Scoring.Weight(r)
  {
    assert (s + [r])[..|s|] == s;
  }

  lemma {:induction false} CountIsCountedRecords(rs: seq<AuditRecord>, qid: nat)
    ensures Scoring.MaxPoints(RatingsFor(rs, qid)) == |Filter(rs, Counted(qid))|
  {
    if rs != [] {
      var init, last := rs[..|rs| - 1], rs[|rs| - 1];
      assert rs == init + [last];
      CountIsCountedRecords(init, qid);
      FilterAppend(init, [last], Counted(qid));
      assert [last][1..] == [];
      match FirstAnswer(last.answers, qid)
      case None =>
        assert RatingsFor(rs, qid) == RatingsFor(init, qid) + [];
        assert RatingsFor(init, qid) + [] == RatingsFor(init, qid);
      case Some(r) =>
        PointsStep(RatingsFor(init, qid), r);
    }
  }

  /**
   * Each question's entry keeps its id and text; its percentage is the score
   * of the ratings the records give it, within 0..100; its count is the
   * number of records whose first answer to it is not NA.
   */
  lemma StatMeaning(rs: seq<AuditRecord>, q: Question)
    ensures StatFor(rs, q).id == q.id && StatFor(rs, q).text == q.text
    ensures StatFor(rs, q).percentage == Scoring.Score(RatingsFor(rs, q.id))
    ensures 0 <= StatFor(rs, q).percentage <= 100
    ensures StatFor(rs, q).count == |Filter(rs, Counted(q.id))|
  {
    Scoring.ScoreInRange(RatingsFor(rs, q.id));
    CountIsCountedRecords(rs, q.id);
  }

  /** A question nobody has rated other than NA shows 0% on a base of 0. */
  lemma UnratedQuestion(rs: seq<AuditRecord>, q: Question)
    requires forall i :: 0 <= i < |rs| ==> !Counted(q.id)(rs[i])
    ensures StatFor(rs, q).count == 0 && StatFor(rs, q).percentage == 0
  {
    CountIsCountedRecords(rs, q.id);
    FilterDropsAll(rs, Counted(q.id));
  }

  /** What one more record adds to the points and the maximum of a question. */
  lemma CountStep(rs: seq<AuditRecord>, i: nat, qid: nat)
    requires i < |rs|
    ensures Scoring.Points(RatingsFor(rs[..i + 1], qid))
         == Scoring.Points(RatingsFor(rs[..i], qid))
            + (if FirstAnswer(rs[i].answers, qid).Some? then Scoring.Halves(FirstAnswer(rs[i].answers, qid).value) else 0)
    ensures Scoring.MaxPoints(RatingsFor(rs[..i + 1], qid))
         == Scoring.MaxPoints(RatingsFor(rs[..i], qid))
            + (if FirstAnswer(rs[i].answers, qid).Some? then Scoring.Weight(FirstAnswer(rs[i].answers, qid).value) else 0)
  {
    assert rs[..i + 1][..i] == rs[..i];
    var before := RatingsFor(rs[..i], qid);
    match FirstAnswer(rs[i].answers, qid)
    case None =>
      assert before + [] == before;
    case Some(r) =>
      PointsStep(before, r);
  }

  lemma StatOfTotals(rs: seq<AuditRecord>, q: Question, totalHalves: nat, maxPoints: nat)
    requires totalHalves == Scoring.Points(RatingsFor(rs, q.id))
    requires maxPoints == Scoring.MaxPoints(RatingsFor(rs, q.id))
    ensures StatFor(rs, q)
         == QuestionStat(q.id, q.text, if maxPoints == 0 then 0 else Scoring.RoundDiv(100 * totalHalves, 2 * maxPoints), maxPoints)
  {
  }

  /** One record's answer added to a question's running points and maximum; N/A adds nothing. */
  method AddRating(totalHalves: nat, maxPoints: nat, rating: Rating) returns (halves: nat, points: nat)
    ensures halves == totalHalves + Scoring.Halves(rating)
    ensures points == maxPoints + Scoring.Weight(rating)
  {
    halves, points := totalHalves, maxPoints;
    if rating == SI {
      halves := halves + 2;
      points := points + 1;
    } else if rating == PARCIAL {
      halves := halves + 1;
      points := points + 1;
    } else if rating == NO {
      points := points + 1;
    }
  }

  /** The inner `records.forEach` for one question, accumulating points and maximum. */
  method QuestionStatOf(q: Question, records: seq<AuditRecord>) returns (stat: QuestionStat)
    ensures stat == StatFor(records, q)
  {
    var totalHalves := 0;
    var maxPoints := 0;
    var i := 0;
    while i < |records|
      invariant 0 <= i <= |records|
      invariant totalHalves == Scoring.Points(RatingsFor(records[..i], q.id))
      invariant maxPoints == Scoring.MaxPoints(RatingsFor(records[..i], q.id))
    {
      var answer := FirstAnswer(records[i].answers, q.id);
      CountStep(records, i, q.id);
      if answer.Some? {
        totalHalves, maxPoints := AddRating(totalHalves, maxPoints, answer.value);
      }
      i := i + 1;
    }
    assert records[..i] == records;
    var percentage := if maxPoints == 0 then 0 else Scoring.RoundDiv(100 * totalHalves, 2 * maxPoints);
    stat := QuestionStat(q.id, q.text, percentage, maxPoints);
    StatOfTotals(records, q, totalHalves, maxPoints);
  }

  /** `QUESTIONS.map(...)`. */
  method QuestionStats(questions: seq<Question>, records: seq<AuditRecord>) returns (stats: seq<QuestionStat>)
    ensures stats == StatsFor(questions, records)
  {
    stats := [];
    var i := 0;
    while i < |questions|
      invariant 0 <= i <= |questions|
      invariant stats == StatsFor(questions[..i], records)
    {
      var stat := QuestionStatOf(questions[i], records);
      stats := stats + [stat];
      i := i + 1;
    }
    assert questions[..i] == questions;
  }

  // ------------------------------------------------------------ questions

  function IsActive(): QuestionStat -> bool
  {
    (s: QuestionStat) => s.count > 0
  }

  function Percentage(s: QuestionStat): int { s.percentage }
  function NegatedPercentage(s: QuestionStat): int { -s.percentage }

  /** `activeQuestions`. */
  function ActiveQuestions(stats: seq<QuestionStat>): seq<QuestionStat>
  {
    Filter(stats, IsActive())
  }

  /** `topLowestQuestions`: the five lowest percentages, ascending (ties in question order). */
  function LowestQuestions(active: seq<QuestionStat>): seq<QuestionStat>
  {
    Take(SortBy(active, Percentage), 5)
  }

  /** `topHighestQuestions`: the five highest percentages, descending (ties in question order). */
  function HighestQuestions(active: seq<QuestionStat>): seq<QuestionStat>
  {
    Take(SortBy(active, NegatedPercentage), 5)
  }

  /** The active questions are exactly those with a non-zero count, in their original order. */
  lemma ActiveQuestionsExact(stats: seq<QuestionStat>)
    ensures Subsequence(ActiveQuestions(stats), stats)
    ensures forall i :: 0 <= i < |ActiveQuestions(stats)| ==> ActiveQuestions(stats)[i].count > 0
    ensures forall i :: 0 <= i < |stats| && stats[i].count > 0 ==> stats[i] in ActiveQuestions(stats)
    ensures forall s :: multiset(ActiveQuestions(stats))[s] == if s.count > 0 then multiset(stats)[s] else 0
  {
    FilterIsSubsequence(stats, IsActive());
    FilterMultiset(stats, IsActive());
  }

  /**
   * The lowest list holds at most five of the active questions, ascending,
   * and every active question left out has a percentage at least as high
   * as each listed one.
   */
  lemma LowestQuestionsFacts(active: seq<QuestionStat>)
    ensures |LowestQuestions(active)| == if |active| <= 5 then |active| else 5
    ensures forall i, j :: 0 <= i < j < |LowestQuestions(active)| ==>
              LowestQuestions(active)[i].percentage <= LowestQuestions(active)[j].percentage
    ensures multiset(LowestQuestions(active)) <= multiset(active)
    ensures forall x :: x in multiset(active) - multiset(LowestQuestions(active)) ==>
              forall i :: 0 <= i < |LowestQuestions(active)| ==> LowestQuestions(active)[i].percentage <= x.percentage
  {
    SortByFacts(active, Percentage);
    TakeOfSorted(SortBy(active, Percentage), Percentage, 5);
  }

  /**
   * The highest list holds at most five of the active questions, descending,
   * and every active question left out has a percentage no higher than each
   * listed one.
   */
  lemma HighestQuestionsFacts(active: seq<QuestionStat>)
    ensures |HighestQuestions(active)| == if |active| <= 5 then |active| else 5
    ensures forall i, j :: 0 <= i < j < |HighestQuestions(active)| ==>
              HighestQuestions(active)[i].percentage >= HighestQuestions(active)[j].percentage
    ensures multiset(HighestQuestions(active)) <= multiset(active)
    ensures forall x :: x in multiset(active) - multiset(HighestQuestions(active)) ==>
              forall i :: 0 <= i < |HighestQuestions(active)| ==> HighestQuestions(active)[i].percentage >= x.percentage
  {
    SortByFacts(active, NegatedPercentage);
    TakeOfSorted(SortBy(active, NegatedPercentage), NegatedPercentage, 5);
    var h := HighestQuestions(active);
    forall i, j | 0 <= i < j < |h| ensures h[i].percentage >= h[j].percentage {
      assert NegatedPercentage(h[i]) <= NegatedPercentage(h[j]);
    }
  }

  /**
   * The two question lists are not kept apart: with one to five active
   * questions, both lists hold every one of them.
   */
  lemma QuestionListsOverlap(active: seq<QuestionStat>)
    requires 1 <= |active| <= 5
    ensures multiset(LowestQuestions(active)) == multiset(active)
    ensures multiset(HighestQuestions(active)) == multiset(active)
    ensures active[0] in LowestQuestions(active) && active[0] in HighestQuestions(active)
  {
    SortByFacts(active, Percentage);
    SortByFacts(active, NegatedPercentage);
    assert active[0] in multiset(active);
  }

  // ---------------------------------------------------------------- areas

  function SortedAreas(stats: seq<AreaStat>): seq<AreaStat>
  {
    SortBy(stats, StatAverage)
  }

  /** `worstCandidates`: the lower half of the ascending list. */
  function WorstCandidates(stats: seq<AreaStat>): seq<AreaStat>
  {
    var sorted := SortedAreas(stats);
    sorted[..|sorted| / 2]
  }

  /** `bestCandidates`: the rest, from the midpoint on. */
  function BestCandidates(stats: seq<AreaStat>): seq<AreaStat>
  {
    var sorted := SortedAreas(stats);
    sorted[|sorted| / 2..]
  }

  /** `topLowestAreas`. */
  function LowestAreas(stats: seq<AreaStat>): seq<AreaStat>
  {
    Take(WorstCandidates(stats), 5)
  }

  /** `topHighestAreas`: the upper half reversed, so the highest comes first. */
  function HighestAreas(stats: seq<AreaStat>): seq<AreaStat>
  {
    Take(Reverse(BestCandidates(stats)), 5)
  }

  /** `Array.prototype.reverse`, in place. */
  method ReverseInPlace<T>(a: array<T>)
    modifies a
    ensures a[..] == Reverse(old(a[..]))
  {
    ghost var original := a[..];
    var n := a.Length;
    var i := 0;
    while i < n / 2
      invariant 0 <= i <= n / 2
      invariant forall k :: 0 <= k < i ==> a[k] == original[n - 1 - k] && a[n - 1 - k] == original[k]
      invariant forall k :: i <= k < n - i ==> a[k] == original[k]
    {
      a[i], a[n - 1 - i] := a[n - 1 - i], a[i];
      i := i + 1;
    }
    ReverseAt(original);
    assert forall k :: 0 <= k < n ==> a[..][k] == Reverse(original)[k];
  }

  /** The area half of the view: the dictionary pass, the sort, the split and the in-place reverse. */
  method RankAreas(records: seq<AuditRecord>) returns (lowest: seq<AreaStat>, highest: seq<AreaStat>)
    ensures lowest == LowestAreas(AreaStats(records))
    ensures highest == HighestAreas(AreaStats(records))
  {
    var areaStats := ComputeAreaStats(records);
    var sorted := SortBy(areaStats, StatAverage);
    var midPoint := |sorted| / 2;
    var worst := sorted[..midPoint];
    assert worst == WorstCandidates(areaStats);
    var best := new AreaStat[|sorted| - midPoint](k requires 0 <= k < |sorted| - midPoint => sorted[midPoint + k]);
    assert best[..] == BestCandidates(areaStats);
    ReverseInPlace(best);
    lowest := Take(worst, 5);
    highest := Take(best[..], 5);
  }

  lemma SplitLengths(stats: seq<AreaStat>)
    ensures |SortedAreas(stats)| == |stats|
    ensures |WorstCandidates(stats)| == |stats| / 2
    ensures |BestCandidates(stats)| == |stats| - |stats| / 2
  {
  }

  lemma LowestPositions(stats: seq<AreaStat>)
    ensures forall i :: 0 <= i < |LowestAreas(stats)| ==>
              i < |stats| / 2 && LowestAreas(stats)[i] == SortedAreas(stats)[i]
  {
    SplitLengths(stats);
    var sorted, worst, low := SortedAreas(stats), WorstCandidates(stats), LowestAreas(stats);
    assert worst == sorted[..|stats| / 2];
    assert low == worst[..|low|] && |low| <= |worst|;
  }

  lemma HighestPositions(stats: seq<AreaStat>)
    ensures forall j :: 0 <= j < |HighestAreas(stats)| ==>
              |stats| / 2 <= |stats| - 1 - j && HighestAreas(stats)[j] == SortedAreas(stats)[|stats| - 1 - j]
  {
    SplitLengths(stats);
    var sorted := SortedAreas(stats);
    var best := BestCandidates(stats);
    var high := HighestAreas(stats);
    assert best == sorted[|stats| / 2..];
    ReverseAt(best);
    assert |high| <= |best|;
    forall j | 0 <= j < |high|
      ensures |stats| / 2 <= |stats| - 1 - j && high[j] == sorted[|stats| - 1 - j]
    {
      assert high[j] == Reverse(best)[j] == best[|best| - 1 - j];
    }
  }

  /**
   * The split gives the lower half floor(n/2) areas and the upper half the
   * rest, so with at least one area there is at least one highest area; each
   * list shows at most five.
   */
  lemma AreaSplitSizes(stats: seq<AreaStat>)
    ensures |WorstCandidates(stats)| == |stats| / 2
    ensures |BestCandidates(stats)| == |stats| - |stats| / 2
    ensures |LowestAreas(stats)| <= 5 && |HighestAreas(stats)| <= 5
    ensures |stats| >= 1 ==> |HighestAreas(stats)| >= 1
    ensures |stats| >= 2 ==> |LowestAreas(stats)| >= 1
  {
    SplitLengths(stats);
    LowestPositions(stats);
    HighestPositions(stats);
  }

  /** With distinct area names, no area is both among the lowest and the highest. */
  lemma AreaListsDisjoint(stats: seq<AreaStat>)
    requires DistinctBy(stats, StatName)
    ensures forall i, j :: 0 <= i < |LowestAreas(stats)| && 0 <= j < |HighestAreas(stats)| ==>
              LowestAreas(stats)[i].name != HighestAreas(stats)[j].name
  {
    SplitLengths(stats);
    LowestPositions(stats);
    HighestPositions(stats);
    SortByKeepsDistinct(stats, StatAverage, StatName);
    var sorted := SortedAreas(stats);
    forall i, j | 0 <= i < |LowestAreas(stats)| && 0 <= j < |HighestAreas(stats)|
      ensures LowestAreas(stats)[i].name != HighestAreas(stats)[j].name
    {
      assert StatName(sorted[i]) != StatName(sorted[|stats| - 1 - j]);
    }
  }

  /** The lowest list is ascending and the highest list descending. */
  lemma AreaListsSorted(stats: seq<AreaStat>)
    ensures forall i, j :: 0 <= i < j < |LowestAreas(stats)| ==>
              LowestAreas(stats)[i].average <= LowestAreas(stats)[j].average
    ensures forall i, j :: 0 <= i < j < |HighestAreas(stats)| ==>
              HighestAreas(stats)[i].average >= HighestAreas(stats)[j].average
  {
    SplitLengths(stats);
    LowestPositions(stats);
    HighestPositions(stats);
    SortByFacts(stats, StatAverage);
  }

  /** No average in the lowest list exceeds one in the highest list. */
  lemma AreaListsSeparated(stats: seq<AreaStat>)
    ensures forall i, j :: 0 <= i < |LowestAreas(stats)| && 0 <= j < |HighestAreas(stats)| ==>
              LowestAreas(stats)[i].average <= HighestAreas(stats)[j].average
  {
    SplitLengths(stats);
    LowestPositions(stats);
    HighestPositions(stats);
    SortByFacts(stats, StatAverage);
  }

  /** The first highest area has the greatest average of all. */
  lemma HighestAreaIsBest(stats: seq<AreaStat>)
    requires |stats| >= 1
    ensures |HighestAreas(stats)| >= 1
    ensures forall k :: 0 <= k < |stats| ==> stats[k].average <= HighestAreas(stats)[0].average
  {
    SplitLengths(stats);
    LowestPositions(stats);
    HighestPositions(stats);
    var sorted := SortedAreas(stats);
    SortByFacts(stats, StatAverage);
    forall k | 0 <= k < |stats| ensures stats[k].average <= HighestAreas(stats)[0].average {
      assert stats[k] in multiset(sorted);
      var m :| 0 <= m < |sorted| && sorted[m] == stats[k];
      assert StatAverage(sorted[m]) <= StatAverage(sorted[|stats| - 1]);
    }
  }

  /** For the records, the two area lists name distinct, real areas of at least one audit each. */
  lemma AreaListsOfRecords(records: seq<AuditRecord>)
    ensures forall i, j :: 0 <= i < |LowestAreas(AreaStats(records))| && 0 <= j < |HighestAreas(AreaStats(records))| ==>
              LowestAreas(AreaStats(records))[i].name != HighestAreas(AreaStats(records))[j].name
    ensures forall i :: 0 <= i < |LowestAreas(AreaStats(records))| ==> LowestAreas(AreaStats(records))[i].count >= 1
    ensures forall j :: 0 <= j < |HighestAreas(AreaStats(records))| ==> HighestAreas(AreaStats(records))[j].count >= 1
  {
    var stats := AreaStats(records);
    AreaStatsDistinct(records);
    AreaStatsGroups(records);
    AreaListsDisjoint(stats);
    SplitLengths(stats);
    LowestPositions(stats);
    HighestPositions(stats);
    SortByFacts(stats, StatAverage);
    var sorted := SortedAreas(stats);
    forall m | 0 <= m < |sorted| ensures sorted[m].count >= 1 {
      assert sorted[m] in multiset(stats);
      var k :| 0 <= k < |stats| && stats[k] == sorted[m];
    }
  }

  /** The whole view: the four lists it shows. */
  method Consolidate(questions: seq<Question>, records: seq<AuditRecord>)
    returns (lowestQuestions: seq<QuestionStat>, highestQuestions: seq<QuestionStat>,
             lowestAreas: seq<AreaStat>, highestAreas: seq<AreaStat>)
    ensures lowestQuestions == LowestQuestions(ActiveQuestions(StatsFor(questions, records)))
    ensures highestQuestions == HighestQuestions(ActiveQuestions(StatsFor(questions, records)))
    ensures lowestAreas == LowestAreas(AreaStats(records))
    ensures highestAreas == HighestAreas(AreaStats(records))
  {
    var questionStats := QuestionStats(questions, records);
    var activeQuestions := ActiveQuestions(questionStats);
    lowestQuestions := LowestQuestions(activeQuestions);
    highestQuestions := HighestQuestions(activeQuestions);
    lowestAreas, highestAreas := RankAreas(records);
  }
}
