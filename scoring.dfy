/**
 * The compliance score of a list of ratings.  SI earns one point out of one,
 * PARCIAL half a point out of one, NO nothing out of one, and NA is left out
 * of both the points and the maximum.  The score is the rounded percentage of
 * points over the maximum, or 0 when the maximum is 0.
 *
 * Points are counted in halves (SI = 2, PARCIAL = 1, NO = 0), so that the
 * floating-point `Math.round((total / max) * 100)` becomes exact integer
 * arithmetic.
 */
module Scoring {
  import opened Types

  /** `Math.round(n / d)` for a positive `d`: the nearest integer, halves rounded up. */
  function RoundDiv(n: int, d: int): (r: int)
    requires d > 0
    ensures d * (2 * r - 1) <= 2 * n < d * (2 * r + 1)
  {
    var q := (2 * n + d) / (2 * d);
    assert 2 * n + d == 2 * d * q + (2 * n + d) % (2 * d);
    q
  }

  /** Round-half-up is determined by the bounds it satisfies. */
  lemma RoundDivUnique(n: int, d: int, r: int)
    requires d > 0
    requires d * (2 * r - 1) <= 2 * n < d * (2 * r + 1)
    ensures RoundDiv(n, d) == r
  {
    var q := RoundDiv(n, d);
    CancelLess(d, 2 * q - 1, 2 * r + 1);
    CancelLess(d, 2 * r - 1, 2 * q + 1);
  }

  /** A mean of values within `lo..hi` rounds to something within `lo..hi`. */
  lemma RoundDivBetween(n: int, d: int, lo: int, hi: int)
    requires d > 0 && d * lo <= n <= d * hi
    ensures lo <= RoundDiv(n, d) <= hi
  {
    var r := RoundDiv(n, d);
    Halfway(d, hi);
    Halfway(d, lo - 1);
    CancelLess(d, 2 * r - 1, 2 * hi + 1);
    CancelLess(d, 2 * (lo - 1) + 1, 2 * r + 1);
  }

  lemma Halfway(d: int, x: int)
    ensures d * (2 * x + 1) == 2 * (d * x) + d
  {
  }

  /** A positive factor can be cancelled from a strict inequality. */
  lemma CancelLess(d: int, a: int, b: int)
    requires d > 0 && d * a < d * b
    ensures a < b
  {
    assert d * b - d * a == d * (b - a);
  }

  /** The points of one rating, in halves. */
  function Halves(r: Rating): nat
  {
    match r
    case SI => 2
    case PARCIAL => 1
    case NO => 0
    case NA => 0
  }

  /** What one rating adds to the maximum. */
  function Weight(r: Rating): nat
  {
    if r == NA then 0 else 1
  }

  /** `totalPoints`, in halves, after the ratings `s` in order. */
  function Points(s: seq<Rating>): nat
  {
    if s == [] then 0 else Points(s[..|s| - 1]) + Halves(s[|s| - 1])
  }

  /** `maxPoints` after the ratings `s` in order. */
  function MaxPoints(s: seq<Rating>): nat
  {
    if s == [] then 0 else MaxPoints(s[..|s| - 1]) + Weight(s[|s| - 1])
  }

  /** The rounded percentage of `halves / 2` points out of `max`. */
  function Percent(halves: nat, max: nat): int
  {
    if max == 0 then 0 else RoundDiv(100 * halves, 2 * max)
  }

  /** The score of a list of ratings. */
  function Score(s: seq<Rating>): int
  {
    Percent(Points(s), MaxPoints(s))
  }

  lemma {:induction false} PointsAtMostMax(s: seq<Rating>)
    ensures Points(s) <= 2 * MaxPoints(s)
  {
    if s != [] {
      PointsAtMostMax(s[..|s| - 1]);
    }
  }

  lemma PercentInRange(halves: nat, max: nat)
    requires halves <= 2 * max
    ensures 0 <= Percent(halves, max) <= 100
  {
    if max > 0 {
      RoundDivBetween(100 * halves, 2 * max, 0, 100);
    }
  }

  /** The score always lies in 0..100. */
  lemma ScoreInRange(s: seq<Rating>)
    ensures 0 <= Score(s) <= 100
  {
    PointsAtMostMax(s);
    PercentInRange(Points(s), MaxPoints(s));
  }

  lemma {:induction false} MaxPointsZeroIff(s: seq<Rating>)
    ensures MaxPoints(s) == 0 <==> forall i :: 0 <= i < |s| ==> s[i] == NA
  {
    if s != [] {
      var init := s[..|s| - 1];
      MaxPointsZeroIff(init);
      assert forall i :: 0 <= i < |init| ==> init[i] == s[i];
    }
  }

  /** No ratings, or only NA ratings, score 0. */
  lemma ScoreOfOnlyNA(s: seq<Rating>)
    requires forall i :: 0 <= i < |s| ==> s[i] == NA
    ensures Score(s) == 0
  {
    MaxPointsZeroIff(s);
  }

  lemma {:induction false} AllSIPoints(s: seq<Rating>)
    requires forall i :: 0 <= i < |s| ==> s[i] == SI
    ensures Points(s) == 2 * |s| && MaxPoints(s) == |s|
  {
    if s != [] {
      AllSIPoints(s[..|s| - 1]);
    }
  }

  /** A non-empty list of SI ratings scores 100. */
  lemma ScoreOfOnlySI(s: seq<Rating>)
    requires |s| > 0
    requires forall i :: 0 <= i < |s| ==> s[i] == SI
    ensures Score(s) == 100
  {
    AllSIPoints(s);
    RoundDivUnique(100 * (2 * |s|), 2 * |s|, 100);
  }

  lemma {:induction false} PointsAppend(a: seq<Rating>, b: seq<Rating>)
    ensures Points(a + b) == Points(a) + Points(b)
    ensures MaxPoints(a + b) == MaxPoints(a) + MaxPoints(b)
  {
    if b == [] {
      assert a + b == a;
    } else {
      var init := b[..|b| - 1];
      PointsAppend(a, init);
      assert (a + b)[..|a + b| - 1] == a + init;
    }
  }

  /** Adding (or, read backwards, removing) an NA rating anywhere never changes the score. */
  lemma ScoreIgnoresNA(a: seq<Rating>, b: seq<Rating>)
    ensures Score(a + [NA] + b) == Score(a + b)
  {
    PointsAppend(a, [NA]);
    PointsAppend(a + [NA], b);
    PointsAppend(a, b);
    assert Points([NA]) == 0 && MaxPoints([NA]) == 0 by {
      assert [NA][..0] == [];
    }
  }

  /** For ratings SI, NO, PARCIAL, NA: 1.5 points out of 3, so 50. */
  lemma ScoreOfMixedExample()
    ensures Score([SI, NO, PARCIAL, NA]) == 50
  {
    var s := [SI, NO, PARCIAL, NA];
    assert s[..3] == [SI, NO, PARCIAL];
    assert s[..3][..2] == [SI, NO];
    assert s[..3][..2][..1] == [SI];
    assert [SI][..0] == [];
    assert Points([SI]) == 2 && MaxPoints([SI]) == 1;
    assert Points([SI, NO]) == 2 && MaxPoints([SI, NO]) == 2;
    assert Points([SI, NO, PARCIAL]) == 3 && MaxPoints([SI, NO, PARCIAL]) == 3;
    assert Points(s) == 3 && MaxPoints(s) == 3;
    RoundDivUnique(300, 6, 50);
  }
}
