/** Largest-Triangle-Three-Buckets (Steinarsson 2013, section 4.2). */
module Downsample {
  import opened Prelude
  import opened Division

  // From each bucket, the point making the largest triangle with the last kept point and
  // the centre of the next bucket. Bucket edges are exact rationals rounded down.

  /** Where bucket `i` starts; `floor(i * every) + 1`. */
  function Start(n: nat, t: nat, i: nat): nat
    requires 3 <= t < n
  {
    i * (n - 2) / (t - 2) + 1
  }

  /** Where it ends, never past the series. */
  function End(n: nat, t: nat, i: nat): nat
    requires 3 <= t < n
  {
    if Start(n, t, i + 1) < n then Start(n, t, i + 1) else n
  }

  function SumX(from: nat, to: nat): real
    requires from <= to
  {
    if from == to then 0.0 else SumX(from, to - 1) + (to - 1) as real
  }

  function SumY(ys: seq<real>, from: nat, to: nat): real
    requires from <= to <= |ys|
  {
    if from == to then 0.0 else SumY(ys, from, to - 1) + ys[to - 1]
  }

  datatype Point = Point(x: real, y: real)

  /** The centre of mass of a bucket. */
  function Centre(ys: seq<real>, from: nat, to: nat): Point
    requires from < to <= |ys|
  {
    Point(SumX(from, to) / (to - from) as real, SumY(ys, from, to) / (to - from) as real)
  }

  function Abs(x: real): real {
    if x < 0.0 then -x else x
  }

  function Triangle(a: Point, ahead: Point, candidate: Point): real {
    Abs((a.x - ahead.x) * (candidate.y - a.y) - (a.x - candidate.x) * (ahead.y - a.y)) / 2.0
  }

  /** The triangle over the last kept point `a`, the candidate `j` and the centre ahead. */
  function Area(ys: seq<real>, a: nat, ahead: Point, j: nat): real
    requires a < |ys| && j < |ys|
  {
    Triangle(Point(a as real, ys[a]), ahead, Point(j as real, ys[j]))
  }

  /** `j` is the earliest point of `[from, to)` whose triangle none beats. */
  ghost predicate EarliestLargest(ys: seq<real>, a: nat, ahead: Point, from: nat, to: nat, j: nat)
    requires a < |ys| && to <= |ys|
  {
    && from <= j < to
    && (forall k | from <= k < to :: Area(ys, a, ahead, k) <= Area(ys, a, ahead, j))
    && (forall k | from <= k < j :: Area(ys, a, ahead, k) < Area(ys, a, ahead, j))
  }

  /** The pick from bucket `i`, given the pick before it. */
  ghost predicate PicksFromBucket(ys: seq<real>, t: nat, i: nat, a: nat, j: nat)
    requires 3 <= t < |ys| && i < t - 2 && a < |ys|
  {
    var n := |ys|;
    Start(n, t, i + 1) < End(n, t, i + 1) && End(n, t, i + 1) <= n
    && EarliestLargest(ys, a, Centre(ys, Start(n, t, i + 1), End(n, t, i + 1)), Start(n, t, i), End(n, t, i), j)
  }

  /** What the algorithm is meant to select: both ends, and one pick per interior bucket. */
  ghost predicate IsSelection(ys: seq<real>, t: nat, picks: seq<nat>)
    requires 3 <= t < |ys|
  {
    && |picks| == t
    && picks[0] == 0
    && picks[t - 1] == |ys| - 1
    && (forall k | 0 <= k < t :: picks[k] < |ys|)
    && (forall i | 0 <= i < t - 2 :: PicksFromBucket(ys, t, i, picks[i], picks[i + 1]))
  }

  function Gather<T>(data: seq<T>, picks: seq<nat>): (r: seq<T>)
    requires forall k | 0 <= k < |picks| :: picks[k] < |data|
    ensures |r| == |picks| && forall k | 0 <= k < |picks| :: r[k] == data[picks[k]]
  {
    seq(|picks|, k requires 0 <= k < |picks| => data[picks[k]])
  }

  // ---- The buckets ----------------------------------------------------------------------

  /** Each bucket holds a point, the first starts just after the first point, the last stops at the last. */
  lemma {:induction false} BucketsAreNeverEmpty(n: nat, t: nat, i: nat)
    requires 3 <= t < n
    ensures Start(n, t, 0) == 1
    ensures Start(n, t, t - 2) == n - 1
    ensures Start(n, t, i) < Start(n, t, i + 1)
  {
    var m, k := n - 2, t - 2;
    assert i * m + m == (i + 1) * m;
    DivideStep(i * m, k);
    DivideMonotone(i * m + k, i * m + m, k);
    QuotientIs(k * m, k, m, 0);
    QuotientIs(0, k, 0, 0);
  }

  lemma {:induction false} StartsAscend(n: nat, t: nat, i: nat, j: nat)
    requires 3 <= t < n && i <= j
    ensures Start(n, t, i) + (j - i) <= Start(n, t, j)
    decreases j
  {
    if i < j {
      StartsAscend(n, t, i, j - 1);
      BucketsAreNeverEmpty(n, t, j - 1);
    }
  }

  /** An interior bucket ends where the next starts; the bucket looked ahead to is never empty. */
  lemma {:induction false} BucketEdges(n: nat, t: nat, i: nat)
    requires 3 <= t < n && i < t - 2
    ensures 1 <= Start(n, t, i) < End(n, t, i) == Start(n, t, i + 1) <= n - 1
    ensures Start(n, t, i + 1) < End(n, t, i + 1) <= n
  {
    BucketsAreNeverEmpty(n, t, i);
    StartsAscend(n, t, 0, i);
    StartsAscend(n, t, i + 1, t - 2);
    BucketsAreNeverEmpty(n, t, i + 1);
  }

  /** Every interior point lies in one bucket, and in no other. */
  lemma {:induction false} BucketsPartition(n: nat, t: nat, x: nat) returns (i: nat)
    requires 3 <= t < n && 1 <= x <= n - 2
    ensures i < t - 2 && Start(n, t, i) <= x < End(n, t, i)
    ensures forall k | 0 <= k < t - 2 && Start(n, t, k) <= x < End(n, t, k) :: k == i
  {
    BucketsAreNeverEmpty(n, t, 0);
    i := 0;
    while Start(n, t, i + 1) <= x
      invariant i < t - 2 && Start(n, t, i) <= x
      decreases t - 2 - i
    {
      i := i + 1;
    }
    BucketEdges(n, t, i);
    forall k | 0 <= k < t - 2 && Start(n, t, k) <= x < End(n, t, k) ensures k == i {
      BucketEdges(n, t, k);
      if k < i {
        StartsAscend(n, t, k + 1, i);
      } else if i < k {
        StartsAscend(n, t, i + 1, k);
      }
    }
  }

  // ---- The algorithm ----------------------------------------------------------------------

  method CentreOf<T>(data: seq<T>, getY: T -> real, from: nat, to: nat) returns (centre: Point)
    requires from < to <= |data|
    ensures centre == Centre(Map(getY, data), from, to)
  {
    var avgX, avgY, count := 0.0, 0.0, 0;
    for j := from to to
      invariant count == j - from
      invariant avgX == SumX(from, j) && avgY == SumY(Map(getY, data), from, j)
    {
      avgX := avgX + j as real;
      avgY := avgY + getY(data[j]);
      count := count + 1;
    }
    if count > 0 {
      avgX := avgX / count as real;
      avgY := avgY / count as real;
    }
    return Point(avgX, avgY);
  }

  method LargestTriangle<T>(data: seq<T>, getY: T -> real, a: nat, ahead: Point, from: nat, to: nat)
    returns (maxIndex: nat)
    requires a < |data| && from < to <= |data|
    ensures EarliestLargest(Map(getY, data), a, ahead, from, to, maxIndex)
  {
    ghost var ys := Map(getY, data);
    var kept := Point(a as real, getY(data[a]));
    var maxArea := -1.0;
    maxIndex := from;
    for j := from to to
      invariant from <= maxIndex < to && (j > from ==> maxIndex < j && maxArea == Area(ys, a, ahead, maxIndex))
      invariant j == from ==> maxArea == -1.0
      invariant forall k | from <= k < j :: Area(ys, a, ahead, k) <= maxArea
      invariant forall k | from <= k < maxIndex :: Area(ys, a, ahead, k) < maxArea
    {
      var area := Triangle(kept, ahead, Point(j as real, getY(data[j])));
      if area > maxArea {
        maxArea := area;
        maxIndex := j;
      }
    }
  }

  /** The series itself when there is nothing to thin, and otherwise the selected points of it. */
  method Downsample<T>(data: seq<T>, threshold: int, getY: T -> real) returns (sampled: seq<T>, ghost picks: seq<nat>)
    ensures threshold >= |data| || threshold < 3 ==> sampled == data
    ensures 3 <= threshold < |data| ==>
              IsSelection(Map(getY, data), threshold, picks) && sampled == Gather(data, picks)
  {
    var n := |data|;
    if threshold >= n || threshold < 3 {
      return data, [];
    }
    ghost var ys := Map(getY, data);
    sampled, picks := [data[0]], [0];
    var a := 0;
    for i := 0 to threshold - 2
      invariant |picks| == i + 1 && picks[0] == 0 && picks[i] == a
      invariant forall k | 0 <= k <= i :: picks[k] < n
      invariant |sampled| == i + 1 && forall k | 0 <= k <= i :: sampled[k] == data[picks[k]]
      invariant forall k | 0 <= k < i :: PicksFromBucket(ys, threshold, k, picks[k], picks[k + 1])
    {
      BucketEdges(n, threshold, i);
      var ahead := CentreOf(data, getY, Start(n, threshold, i + 1), End(n, threshold, i + 1));
      var maxIndex := LargestTriangle(data, getY, a, ahead, Start(n, threshold, i), End(n, threshold, i));
      sampled, picks := sampled + [data[maxIndex]], picks + [maxIndex];
      a := maxIndex;
    }
    sampled, picks := sampled + [data[n - 1]], picks + [n - 1];
  }

  // ---- What a selection is ------------------------------------------------------------------

  /** Picks are strictly increasing positions, so order is kept and no point is repeated. */
  lemma {:induction false} PicksAscend(ys: seq<real>, t: nat, picks: seq<nat>, i: nat, j: nat)
    requires 3 <= t < |ys| && IsSelection(ys, t, picks) && i < j < t
    ensures picks[i] < picks[j]
    decreases j
  {
    var n := |ys|;
    if i < j - 1 {
      PicksAscend(ys, t, picks, i, j - 1);
    }
    if j < t - 1 {
      assert PicksFromBucket(ys, t, j - 1, picks[j - 1], picks[j]);
      BucketEdges(n, t, j - 1);
    }
    if j >= 2 {
      assert PicksFromBucket(ys, t, j - 2, picks[j - 2], picks[j - 1]);
      BucketEdges(n, t, j - 2);
    }
  }

  /** The description leaves no choice: a series has one selection at each threshold. */
  lemma {:induction false} SelectionIsUnique(ys: seq<real>, t: nat, picks: seq<nat>, other: seq<nat>)
    requires 3 <= t < |ys| && IsSelection(ys, t, picks) && IsSelection(ys, t, other)
    ensures picks == other
  {
    SamePicks(ys, t, picks, other, t - 2);
  }

  lemma {:induction false} SamePicks(ys: seq<real>, t: nat, picks: seq<nat>, other: seq<nat>, i: nat)
    requires 3 <= t < |ys| && IsSelection(ys, t, picks) && IsSelection(ys, t, other) && i <= t - 2
    ensures picks[..i + 1] == other[..i + 1]
  {
    if i > 0 {
      SamePicks(ys, t, picks, other, i - 1);
      assert picks[..i][i - 1] == picks[i - 1] && other[..i][i - 1] == other[i - 1];
      assert PicksFromBucket(ys, t, i - 1, picks[i - 1], picks[i]);
      assert PicksFromBucket(ys, t, i - 1, other[i - 1], other[i]);
      var n := |ys|;
      EarliestIsUnique(ys, picks[i - 1], Centre(ys, Start(n, t, i), End(n, t, i)), Start(n, t, i - 1),
        End(n, t, i - 1), picks[i], other[i]);
      assert picks[..i + 1] == picks[..i] + [picks[i]] && other[..i + 1] == other[..i] + [other[i]];
    }
  }

  lemma {:induction false} EarliestIsUnique(
    ys: seq<real>, a: nat, ahead: Point, from: nat, to: nat, j: nat, k: nat)
    requires a < |ys| && to <= |ys|
    requires EarliestLargest(ys, a, ahead, from, to, j) && EarliestLargest(ys, a, ahead, from, to, k)
    ensures j == k
  {
    assert Area(ys, a, ahead, j) <= Area(ys, a, ahead, k) && Area(ys, a, ahead, k) <= Area(ys, a, ahead, j);
  }

  // ---- A spike survives -----------------------------------------------------------------------

  lemma {:induction false} SumXBound(from: nat, to: nat)
    requires from <= to
    ensures SumX(from, to) >= (to - from) as real * from as real
  {
    if from < to {
      SumXBound(from, to - 1);
      assert (to - from) as real == (to - 1 - from) as real + 1.0;
      assert (to - from) as real * from as real == (to - 1 - from) as real * from as real + from as real;
    }
  }

  lemma {:induction false} SumYFlat(ys: seq<real>, from: nat, to: nat, level: real)
    requires from <= to <= |ys| && forall k | from <= k < to :: ys[k] == level
    ensures SumY(ys, from, to) == (to - from) as real * level
  {
    if from < to {
      SumYFlat(ys, from, to - 1, level);
      assert (to - from) as real == (to - 1 - from) as real + 1.0;
      assert (to - from) as real * level == (to - 1 - from) as real * level + level;
    }
  }

  lemma {:induction false} QuotientBound(sum: real, count: real, low: real)
    requires count > 0.0
    ensures sum >= count * low ==> sum / count >= low
    ensures sum == count * low ==> sum / count == low
  {
    assert sum - count * low == count * (sum / count - low);
  }

  /** Over a flat stretch, a triangle has area exactly when its candidate stands off the level. */
  lemma {:induction false} OnlyTheSpikeHasArea(ys: seq<real>, a: nat, ahead: Point, j: nat, level: real)
    requires a < |ys| && j < |ys| && ys[a] == level && ahead.y == level && ahead.x > a as real
    ensures Area(ys, a, ahead, j) >= 0.0
    ensures Area(ys, a, ahead, j) == 0.0 <==> ys[j] == level
  {
    var base, height := a as real - ahead.x, ys[j] - level;
    assert (a as real - j as real) * (ahead.y - ys[a]) == 0.0;
    if height > 0.0 {
      assert base * height < 0.0;
    } else if height < 0.0 {
      assert base * height > 0.0;
    }
  }

  /** The centre of a flat bucket ahead lies to the right, on the level. */
  lemma {:induction false} FlatCentre(ys: seq<real>, a: nat, from: nat, to: nat, level: real)
    requires a < from < to <= |ys| && forall k | from <= k < to :: ys[k] == level
    ensures Centre(ys, from, to).x > a as real && Centre(ys, from, to).y == level
  {
    SumXBound(from, to);
    SumYFlat(ys, from, to, level);
    QuotientBound(SumX(from, to), (to - from) as real, from as real);
    QuotientBound(SumY(ys, from, to), (to - from) as real, level);
  }

  /** The pick before a bucket lies before it. */
  lemma {:induction false} LastPickIsBefore(ys: seq<real>, t: nat, picks: seq<nat>, i: nat)
    requires 3 <= t < |ys| && IsSelection(ys, t, picks) && i < t - 2
    ensures picks[i] < Start(|ys|, t, i)
  {
    BucketEdges(|ys|, t, i);
    if i > 0 {
      assert PicksFromBucket(ys, t, i - 1, picks[i - 1], picks[i]);
      BucketEdges(|ys|, t, i - 1);
    }
  }

  /** One point off an otherwise flat series is always kept, wherever the buckets fall. */
  lemma {:induction false} SpikeSurvives(ys: seq<real>, t: nat, picks: seq<nat>, s: nat, level: real)
    requires 3 <= t < |ys| && IsSelection(ys, t, picks) && s < |ys|
    requires ys[s] != level && forall k | 0 <= k < |ys| && k != s :: ys[k] == level
    ensures s in picks
  {
    var n := |ys|;
    if s == 0 || s == n - 1 {
      assert picks[0] == 0 && picks[t - 1] == n - 1;
    } else {
      var i := BucketsPartition(n, t, s);
      BucketEdges(n, t, i);
      LastPickIsBefore(ys, t, picks, i);
      SpikeIsPicked(ys, t, i, picks[i], picks[i + 1], s, level);
    }
  }

  lemma {:induction false} SpikeIsPicked(ys: seq<real>, t: nat, i: nat, a: nat, j: nat, s: nat, level: real)
    requires 3 <= t < |ys| && i < t - 2
    requires Start(|ys|, t, i) <= s < End(|ys|, t, i) == Start(|ys|, t, i + 1) && a < Start(|ys|, t, i)
    requires ys[s] != level && forall k | 0 <= k < |ys| && k != s :: ys[k] == level
    requires PicksFromBucket(ys, t, i, a, j)
    ensures j == s
  {
    var from, to := Start(|ys|, t, i + 1), End(|ys|, t, i + 1);
    FlatCentre(ys, a, from, to, level);
    OnlyTheSpikeHasArea(ys, a, Centre(ys, from, to), s, level);
    OnlyTheSpikeHasArea(ys, a, Centre(ys, from, to), j, level);
  }
}
