/** The triangles, buckets and centres of the downsampler. */
module ChartGeometry {
  import opened Division
  import opened Downsample

  /** The area is the shoelace formula's, and so nothing exactly where the three points are in line. */
  lemma {:induction false} TriangleIsShoelace(a: Point, b: Point, c: Point)
    ensures var cross := a.x * (b.y - c.y) + b.x * (c.y - a.y) + c.x * (a.y - b.y);
            && Triangle(a, b, c) >= 0.0
            && (2.0 * Triangle(a, b, c) == cross || 2.0 * Triangle(a, b, c) == -cross)
    ensures Triangle(a, b, c) == 0.0 <==> (c.y - a.y) * (b.x - a.x) == (b.y - a.y) * (c.x - a.x)
  {
    var along, across := (a.x - b.x) * (c.y - a.y), (a.x - c.x) * (b.y - a.y);
    assert along == a.x * c.y - a.x * a.y - b.x * c.y + b.x * a.y;
    assert across == a.x * b.y - a.x * a.y - c.x * b.y + c.x * a.y;
    Expanded(a, b, c);
    assert (c.y - a.y) * (b.x - a.x) == -along && (b.y - a.y) * (c.x - a.x) == -across;
  }

  lemma {:induction false} Expanded(a: Point, b: Point, c: Point)
    ensures a.x * (b.y - c.y) + b.x * (c.y - a.y) + c.x * (a.y - b.y)
         == a.x * b.y - a.x * c.y + b.x * c.y - b.x * a.y + c.x * a.y - c.x * b.y
  {
  }

  /** A bucket starts just after `i` bucket widths, rounded down; a width is `(n - 2) / (t - 2)`. */
  lemma {:induction false} StartIsRoundedDown(n: nat, t: nat, i: nat)
    requires 3 <= t < n
    ensures (Start(n, t, i) - 1) * (t - 2) <= i * (n - 2) < Start(n, t, i) * (t - 2)
  {
    var q, k := i * (n - 2) / (t - 2), t - 2;
    assert i * (n - 2) == k * q + i * (n - 2) % k;
    assert k * q == q * k && (q + 1) * k == q * k + k;
  }

  /** The quotient is the one number whose multiple is within one step of the total. */
  lemma {:induction false} NearQuotient(w: int, k: int, m: int)
    requires k > 0 && m - k < k * w < m + k
    ensures w == m / k || w == m / k + 1
  {
    var q := m / k;
    assert m == k * q + m % k;
    assert k * (w - q) == k * w - k * q && k * (w - q - 1) == k * w - k * q - k;
    Multiples(k, w - q);
    Multiples(k, w - q - 1);
  }

  lemma {:induction false} WidthIsNear(from: int, to: int, k: int, at: int, m: int)
    requires (from - 1) * k <= at < from * k && (to - 1) * k <= at + m < to * k
    ensures m - k < k * (to - from) < m + k
  {
    assert (from - 1) * k == from * k - k && (to - 1) * k == to * k - k;
    assert k * (to - from) == to * k - from * k;
  }

  /** No bucket is more than one point wider than another. */
  lemma {:induction false} BucketsAreEven(n: nat, t: nat, i: nat)
    requires 3 <= t < n && i < t - 2
    ensures var width := End(n, t, i) - Start(n, t, i);
            width == (n - 2) / (t - 2) || width == (n - 2) / (t - 2) + 1
  {
    BucketEdges(n, t, i);
    StartIsRoundedDown(n, t, i);
    StartIsRoundedDown(n, t, i + 1);
    assert (i + 1) * (n - 2) == i * (n - 2) + (n - 2);
    WidthIsNear(Start(n, t, i), Start(n, t, i + 1), t - 2, i * (n - 2), n - 2);
    NearQuotient(Start(n, t, i + 1) - Start(n, t, i), t - 2, n - 2);
  }

  /** The centre of one point is that point. */
  lemma {:induction false} CentreOfOne(ys: seq<real>, j: nat)
    requires j < |ys|
    ensures Centre(ys, j, j + 1) == Point(j as real, ys[j])
  {
    assert SumX(j, j) == 0.0 && SumY(ys, j, j) == 0.0;
  }

  lemma {:induction false} SumsSplit(ys: seq<real>, a: nat, b: nat, c: nat)
    requires a <= b <= c <= |ys|
    ensures SumX(a, c) == SumX(a, b) + SumX(b, c)
    ensures SumY(ys, a, c) == SumY(ys, a, b) + SumY(ys, b, c)
    decreases c
  {
    if b < c {
      SumsSplit(ys, a, b, c - 1);
    }
  }

  /** The centre of two stretches together is their centres weighed by their lengths. */
  lemma {:induction false} CentresCombine(ys: seq<real>, a: nat, b: nat, c: nat)
    requires a < b < c <= |ys|
    ensures var left, right, both := Centre(ys, a, b), Centre(ys, b, c), Centre(ys, a, c);
            && both.x * (c - a) as real == left.x * (b - a) as real + right.x * (c - b) as real
            && both.y * (c - a) as real == left.y * (b - a) as real + right.y * (c - b) as real
  {
    SumsSplit(ys, a, b, c);
    TimesCount(SumX(a, b), (b - a) as real);
    TimesCount(SumX(b, c), (c - b) as real);
    TimesCount(SumX(a, c), (c - a) as real);
    TimesCount(SumY(ys, a, b), (b - a) as real);
    TimesCount(SumY(ys, b, c), (c - b) as real);
    TimesCount(SumY(ys, a, c), (c - a) as real);
  }

  lemma {:induction false} TimesCount(sum: real, count: real)
    requires count > 0.0
    ensures sum / count * count == sum
  {
  }
}
