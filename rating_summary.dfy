/**
 * The rating summary above the review list: nothing for no review; otherwise
 * the average rating and one bar per star, from five stars down to one, with
 * the number of reviews of exactly that rating and its share in percent.
 * Ratings are whole numbers (the review form and the content schema offer
 * only 1 to 5); the arithmetic is exact.
 */
module RatingSummary {
  import opened Wrappers

  /** How many of the ratings equal `stars`: `reviews.filter(r => r.rating === stars).length`. */
  function Count(ratings: seq<int>, stars: int): (c: nat)
    ensures c <= |ratings|
  {
    if |ratings| == 0 then 0
    else (if ratings[0] == stars then 1 else 0) + Count(ratings[1..], stars)
  }

  /** The `reduce` that adds up the ratings. */
  function Sum(ratings: seq<int>): int
  {
    if |ratings| == 0 then 0 else ratings[0] + Sum(ratings[1..])
  }

  predicate AllInRange(ratings: seq<int>)
  {
    forall i :: 0 <= i < |ratings| ==> 1 <= ratings[i] <= 5
  }

  datatype Bar = Bar(stars: int, count: nat, percentage: real)

  datatype Summary = Summary(average: real, bars: seq<Bar>)

  /** `averageRating`: the sum of the ratings over their number. */
  function Mean(ratings: seq<int>): (a: real)
    requires |ratings| > 0
    ensures a * (|ratings| as real) == Sum(ratings) as real
  {
    Sum(ratings) as real / |ratings| as real
  }

  /** `count / reviews.length * 100`, exactly. */
  function Percent(count: nat, n: nat): (p: real)
    requires n > 0
    ensures p * (n as real) == (count as real) * 100.0
  {
    (count as real / n as real) * 100.0
  }

  /** One entry of `ratingCounts`. */
  function BarOf(ratings: seq<int>, stars: int): (b: Bar)
    requires |ratings| > 0
    ensures b.stars == stars && b.count == Count(ratings, stars)
    ensures b.percentage == Percent(b.count, |ratings|)
  {
    var c := Count(ratings, stars);
    Bar(stars, c, Percent(c, |ratings|))
  }

  /**
   * The component: `None` for an empty list (so nothing is divided by zero),
   * otherwise the average and the bars for 5, 4, 3, 2 and 1 stars in that order.
   */
  function Summarize(ratings: seq<int>): (s: Option<Summary>)
    ensures s.None? <==> |ratings| == 0
    ensures s.Some? ==> s.value.average == Mean(ratings)
    ensures s.Some? ==> |s.value.bars| == 5 && forall k :: 0 <= k < 5 ==>
      s.value.bars[k].stars == 5 - k && s.value.bars[k].count == Count(ratings, 5 - k) &&
      s.value.bars[k].percentage == Percent(s.value.bars[k].count, |ratings|)
  {
    if |ratings| == 0 then None
    else
      Some(Summary(Mean(ratings),
        [BarOf(ratings, 5), BarOf(ratings, 4), BarOf(ratings, 3), BarOf(ratings, 2), BarOf(ratings, 1)]))
  }

  /** The count of a star is how often it occurs in the list. */
  lemma {:induction false} CountIsMultiplicity(ratings: seq<int>, stars: int)
    ensures Count(ratings, stars) == multiset(ratings)[stars]
  {
    if |ratings| > 0 {
      CountIsMultiplicity(ratings[1..], stars);
      assert ratings == [ratings[0]] + ratings[1..];
    }
  }

  /** With every rating between 1 and 5, the five counts add up to the number of reviews. */
  lemma {:induction false} CountsAddUp(ratings: seq<int>)
    requires AllInRange(ratings)
    ensures Count(ratings, 5) + Count(ratings, 4) + Count(ratings, 3) + Count(ratings, 2) + Count(ratings, 1)
      == |ratings|
  {
    if |ratings| > 0 {
      assert AllInRange(ratings[1..]) by {
        forall i | 0 <= i < |ratings[1..]| ensures 1 <= ratings[1..][i] <= 5 {
          assert ratings[1..][i] == ratings[i + 1];
        }
      }
      CountsAddUp(ratings[1..]);
      assert 1 <= ratings[0] <= 5;
    }
  }

  /** Multiplying by a positive number can be undone. */
  lemma CancelPositive(x: real, y: real, n: real)
    requires n > 0.0 && x * n == y * n
    ensures x == y
  {
  }

  /** Five shares of a whole, each scaled to percent, add up to 100. */
  lemma SharesAddUp(p0: real, p1: real, p2: real, p3: real, p4: real,
                    c0: real, c1: real, c2: real, c3: real, c4: real, n: real)
    requires n > 0.0 && c0 + c1 + c2 + c3 + c4 == n
    requires p0 * n == c0 * 100.0 && p1 * n == c1 * 100.0 && p2 * n == c2 * 100.0
    requires p3 * n == c3 * 100.0 && p4 * n == c4 * 100.0
    ensures p0 + p1 + p2 + p3 + p4 == 100.0
  {
    assert (p0 + p1 + p2 + p3 + p4) * n == p0 * n + p1 * n + p2 * n + p3 * n + p4 * n;
    CancelPositive(p0 + p1 + p2 + p3 + p4, 100.0, n);
  }

  /** Percentages of five counts that make up the whole add up to 100. */
  lemma PercentsAddUp(c0: nat, c1: nat, c2: nat, c3: nat, c4: nat, n: nat)
    requires n > 0 && c0 + c1 + c2 + c3 + c4 == n
    ensures Percent(c0, n) + Percent(c1, n) + Percent(c2, n) + Percent(c3, n) + Percent(c4, n) == 100.0
  {
    var p0, p1, p2, p3, p4 := Percent(c0, n), Percent(c1, n), Percent(c2, n), Percent(c3, n), Percent(c4, n);
    var r0, r1, r2, r3, r4 := c0 as real, c1 as real, c2 as real, c3 as real, c4 as real;
    assert r0 + r1 + r2 + r3 + r4 == n as real;
    SharesAddUp(p0, p1, p2, p3, p4, r0, r1, r2, r3, r4, n as real);
  }

  /** With every rating between 1 and 5, the percentages of the bars add up to exactly 100. */
  lemma PercentagesAddUp(ratings: seq<int>)
    requires |ratings| > 0 && AllInRange(ratings)
    ensures var bars := Summarize(ratings).value.bars;
      bars[0].percentage + bars[1].percentage + bars[2].percentage + bars[3].percentage + bars[4].percentage
        == 100.0
  {
    CountsAddUp(ratings);
    PercentsAddUp(Count(ratings, 5), Count(ratings, 4), Count(ratings, 3), Count(ratings, 2), Count(ratings, 1),
      |ratings|);
  }

  /** A share of a whole, scaled to percent, lies between 0 and 100. */
  lemma ShareInRange(p: real, c: real, n: real)
    requires 0.0 <= c <= n && n > 0.0 && p * n == c * 100.0
    ensures 0.0 <= p <= 100.0
  {
  }

  /** The percentage of a part of a whole lies between 0 and 100. */
  lemma PercentInRange(c: nat, n: nat)
    requires 0 < n && c <= n
    ensures 0.0 <= Percent(c, n) <= 100.0
  {
    ShareInRange(Percent(c, n), c as real, n as real);
  }

  /** Every bar's count lies between 0 and n and its percentage between 0 and 100. */
  lemma BarBounds(ratings: seq<int>, k: int)
    requires |ratings| > 0 && 0 <= k < 5
    ensures var b := Summarize(ratings).value.bars[k];
      b.count <= |ratings| && 0.0 <= b.percentage <= 100.0
  {
    PercentInRange(Count(ratings, 5 - k), |ratings|);
  }

  /** With every rating between 1 and 5, the sum lies between n and 5n. */
  lemma {:induction false} SumBounds(ratings: seq<int>)
    requires AllInRange(ratings)
    ensures |ratings| <= Sum(ratings) <= 5 * |ratings|
  {
    if |ratings| > 0 {
      assert AllInRange(ratings[1..]) by {
        forall i | 0 <= i < |ratings[1..]| ensures 1 <= ratings[1..][i] <= 5 {
          assert ratings[1..][i] == ratings[i + 1];
        }
      }
      SumBounds(ratings[1..]);
    }
  }

  /** A total between n and 5n, divided by n, lies between 1 and 5. */
  lemma MeanInRange(a: real, total: real, n: real)
    requires n > 0.0 && n <= total <= 5.0 * n && a * n == total
    ensures 1.0 <= a <= 5.0
  {
  }

  /** With every rating between 1 and 5, so is the average. */
  lemma AverageInRange(ratings: seq<int>)
    requires |ratings| > 0 && AllInRange(ratings)
    ensures 1.0 <= Summarize(ratings).value.average <= 5.0
  {
    SumBounds(ratings);
    MeanInRange(Mean(ratings), Sum(ratings) as real, |ratings| as real);
  }
}
