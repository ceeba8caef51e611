/**
 * The Wilson score interval of the adoption report (adoption_probe.py), over exact reals.
 */
module Wilson {
  import opened Wrappers
  import opened Reals

  datatype Interval = Interval(lo: real, hi: real)

  /** What is under the square root: (p(1-p) + z^2/4n) / n. */
  function Radicand(k: int, n: int, z: real): real
    requires n > 0
  {
    var p := k as real / n as real;
    (p * (1.0 - p) + z * z / (4.0 * n as real)) / n as real
  }

  function Center(k: int, n: int, z: real): real
    requires n > 0
  {
    var p, z2 := k as real / n as real, z * z;
    assert z2 / n as real >= 0.0;
    (p + z2 / (2.0 * n as real)) / (1.0 + z2 / n as real)
  }

  /** `root` stands for the square root of the radicand. */
  function Margin(n: int, z: real, root: real): real
    requires n > 0
  {
    var z2 := z * z;
    assert z2 / n as real >= 0.0;
    (z * root) / (1.0 + z2 / n as real)
  }

  function WilsonInterval(k: int, n: int, z: real, root: real): Option<Interval> {
    if n <= 0 then None
    else
      var center, margin := Center(k, n, z), Margin(n, z, root);
      Some(Interval(Max(0.0, center - margin), Min(1.0, center + margin)))
  }

  ghost predicate SquareRoot(root: real, x: real) {
    root >= 0.0 && root * root == x
  }

  /** The score test at level z does not reject the success probability x: n(p-x)^2 <= z^2 x(1-x). */
  predicate NotRejected(k: int, n: int, z: real, x: real)
    requires n > 0
  {
    var p := k as real / n as real;
    (p - x) * (p - x) <= z * z * (x * (1.0 - x)) / n as real
  }

  // --- the algebra, with p the proportion, t = z^2/n and s = z * root ---

  lemma MulPositive(x: real, y: real)
    requires x > 0.0 && y > 0.0
    ensures x * y > 0.0
  {
  }

  /** Multiplying by a positive number keeps the order, both ways. */
  lemma Scaled(a: real, b: real, d: real)
    requires d > 0.0
    ensures a * d <= b * d <==> a <= b
    ensures a * d == b * d <==> a == b
  {
    if a < b { MulPositive(b - a, d); }
    if b < a { MulPositive(a - b, d); }
  }

  lemma Unscaled(x: real, xd: real, y: real, yd: real, d: real)
    requires d > 0.0 && x * d == xd && y * d == yd && xd <= yd
    ensures x <= y
  {
    Scaled(x, y, d);
  }

  lemma Distribute(a: real, b: real, d: real)
    ensures (a + b) * d == a * d + b * d && (a - b) * d == a * d - b * d
  {
  }

  lemma Quotient(x: real, d: real)
    requires d != 0.0
    ensures (x / d) * d == x
  {
  }

  lemma SquaresOrdered(a: real, b: real)
    requires b >= 0.0 && a * a <= b * b
    ensures -b <= a <= b
  {
    if a > b { MulPositive(a - b, a + b); }
    if a < -b { MulPositive(-a - b, -a + b); }
  }

  lemma OrderedSquares(a: real, b: real)
    requires -b <= a <= b
    ensures a * a <= b * b
  {
    MulNonNegative(b - a, b + a);
  }

  /** s^2 in terms of p and t. */
  predicate SpreadOf(p: real, t: real, s: real) {
    s >= 0.0 && s * s == t * (p * (1.0 - p)) + t * t / 4.0
  }

  /** The lower end lies between 0 and p. */
  lemma LowerEnd(p: real, t: real, d: real, s: real)
    requires 0.0 <= p <= 1.0 && t >= 0.0 && d == 1.0 + t && SpreadOf(p, t, s)
    ensures 0.0 <= p + t / 2.0 - s
    ensures p + t / 2.0 - s <= p * d
  {
    var a, c, w := p + t / 2.0, t * (0.5 - p), p * (1.0 - p);
    MulNonNegative(p, p);
    MulNonNegative(p * p, 1.0 + t);
    assert a * a - s * s == p * p * (1.0 + t);
    SquaresOrdered(s, a);
    MulNonNegative(p, 1.0 - p);
    MulNonNegative(t, w);
    MulNonNegative(t, t * w);
    assert (0.5 - p) * (0.5 - p) == 0.25 - w;
    assert c * c == (t * t) * ((0.5 - p) * (0.5 - p));
    assert (t * t) * (0.25 - w) == t * t / 4.0 - t * (t * w);
    assert s * s - c * c == t * w + t * (t * w);
    SquaresOrdered(c, s);
    assert p * (1.0 + t) == p + t / 2.0 - c;
  }

  /** Mirroring p swaps the two ends. */
  lemma UpperEnd(p: real, t: real, d: real, s: real)
    requires 0.0 <= p <= 1.0 && t >= 0.0 && d == 1.0 + t && SpreadOf(p, t, s)
    ensures p * d <= p + t / 2.0 + s <= d
  {
    var q := 1.0 - p;
    assert q * (1.0 - q) == p * (1.0 - p);
    LowerEnd(q, t, d, s);
    Distribute(1.0, p, d);
  }

  /** z^2/2n and z^2/4n as shares of t. */
  lemma Shares(z2: real, d: real)
    requires d > 0.0
    ensures z2 / (2.0 * d) == (z2 / d) / 2.0 && z2 / (4.0 * d) == (z2 / d) / 4.0
  {
    var t := z2 / d;
    Quotient(z2, d);
    Quotient(z2, 2.0 * d);
    Quotient(z2, 4.0 * d);
    assert (t / 2.0) * (2.0 * d) == t * d && (t / 4.0) * (4.0 * d) == t * d;
    Scaled(z2 / (2.0 * d), t / 2.0, 2.0 * d);
    Scaled(z2 / (4.0 * d), t / 4.0, 4.0 * d);
  }

  lemma Proportion(k: int, n: int)
    requires 0 <= k <= n && n > 0
    ensures 0.0 <= k as real / n as real <= 1.0
    ensures (n - k) as real / n as real == 1.0 - k as real / n as real
  {
    var d := n as real;
    Quotient(k as real, d);
    Quotient((n - k) as real, d);
    Scaled(0.0, k as real / d, d);
    Scaled(k as real / d, 1.0, d);
    Scaled((n - k) as real / d, 1.0 - k as real / d, d);
  }

  lemma SpreadSquare(w: real, t: real, d: real, z: real, root: real)
    requires d > 0.0 && t * d == z * z && (root * root) * d == w + t / 4.0
    ensures (z * root) * (z * root) == t * w + t * t / 4.0
  {
    assert (z * root) * (z * root) == (z * z) * (root * root);
    assert (t * d) * (root * root) == t * ((root * root) * d);
    assert t * (w + t / 4.0) == t * w + t * t / 4.0;
  }

  /** Proportion p, spread s, and an interval around a/d with half-width s/d, where d = 1+t. */
  ghost predicate Shape(p: real, t: real, d: real, s: real, center: real, margin: real) {
    && 0.0 <= p <= 1.0 && t >= 0.0 && d == 1.0 + t && SpreadOf(p, t, s)
    && center * d == p + t / 2.0
    && margin * d == s
  }

  lemma SpreadOfRoot(k: int, n: int, z: real, root: real)
    requires 0 <= k <= n && n > 0 && z >= 0.0 && SquareRoot(root, Radicand(k, n, z))
    ensures z * z / n as real >= 0.0
    ensures SpreadOf(k as real / n as real, z * z / n as real, z * root)
  {
    var d := n as real;
    var p, t := k as real / d, z * z / d;
    var w := p * (1.0 - p);
    Quotient(z * z, d);
    MulNonNegative(z, z);
    Scaled(0.0, t, d);
    Shares(z * z, d);
    Quotient(w + t / 4.0, d);
    SpreadSquare(w, t, d, z, root);
    MulNonNegative(z, root);
  }

  /** The interval has that shape. */
  lemma Shaped(k: int, n: int, z: real, root: real) returns (p: real, t: real, d: real, s: real, center: real, margin: real)
    requires 0 <= k <= n && n > 0 && z >= 0.0 && SquareRoot(root, Radicand(k, n, z))
    ensures p == k as real / n as real && t == z * z / n as real
    ensures center == Center(k, n, z) && margin == Margin(n, z, root)
    ensures Shape(p, t, d, s, center, margin)
  {
    p, t, s := k as real / n as real, z * z / n as real, z * root;
    d := 1.0 + t;
    center, margin := Center(k, n, z), Margin(n, z, root);
    Proportion(k, n);
    SpreadOfRoot(k, n, z, root);
    Shares(z * z, n as real);
    Quotient(p + t / 2.0, d);
    Quotient(s, d);
  }

  lemma Ends(p: real, t: real, d: real, s: real, center: real, margin: real)
    requires Shape(p, t, d, s, center, margin)
    ensures 0.0 <= center - margin <= p <= center + margin <= 1.0
  {
    LowerEnd(p, t, d, s);
    UpperEnd(p, t, d, s);
    EndsOrdered(p, center, margin, p + t / 2.0, s, d);
  }

  lemma EndsOrdered(p: real, center: real, margin: real, a: real, s: real, d: real)
    requires d > 0.0 && center * d == a && margin * d == s
    requires 0.0 <= a - s <= p * d <= a + s <= d
    ensures 0.0 <= center - margin <= p <= center + margin <= 1.0
  {
    Distribute(center, margin, d);
    Unscaled(0.0, 0.0, center - margin, a - s, d);
    Unscaled(center - margin, a - s, p, p * d, d);
    Unscaled(p, p * d, center + margin, a + s, d);
    Unscaled(center + margin, a + s, 1.0, d, d);
  }

  /**
   * For every 0 <= k <= n with n > 0 and z >= 0: the interval contains the observed
   * proportion, lies inside [0, 1], and neither clamp ever changes a value.
   */
  lemma WilsonBounds(k: int, n: int, z: real, root: real)
    requires 0 <= k <= n && n > 0 && z >= 0.0 && SquareRoot(root, Radicand(k, n, z))
    ensures var center, margin := Center(k, n, z), Margin(n, z, root);
            && WilsonInterval(k, n, z, root) == Some(Interval(center - margin, center + margin))
            && 0.0 <= center - margin <= k as real / n as real <= center + margin <= 1.0
  {
    var p, t, d, s, center, margin := Shaped(k, n, z, root);
    Ends(p, t, d, s, center, margin);
  }

  /** Swapping successes and failures mirrors the interval. */
  lemma WilsonMirror(k: int, n: int, z: real, root: real)
    requires 0 <= k <= n && n > 0 && z >= 0.0 && SquareRoot(root, Radicand(k, n, z))
    ensures SquareRoot(root, Radicand(n - k, n, z))
    ensures var here, there := WilsonInterval(k, n, z, root).value, WilsonInterval(n - k, n, z, root).value;
            there.lo == 1.0 - here.hi && there.hi == 1.0 - here.lo
  {
    Proportion(k, n);
    RadicandMirror(k, n, z);
    WilsonBounds(k, n, z, root);
    WilsonBounds(n - k, n, z, root);
    CenterMirror(k, n, z, root);
  }

  lemma RadicandMirror(k: int, n: int, z: real)
    requires 0 <= k <= n && n > 0
    ensures Radicand(n - k, n, z) == Radicand(k, n, z)
  {
    Proportion(k, n);
    var p, q := k as real / n as real, (n - k) as real / n as real;
    assert q * (1.0 - q) == p * (1.0 - p);
  }

  lemma CenterMirror(k: int, n: int, z: real, root: real)
    requires 0 <= k <= n && n > 0 && z >= 0.0 && SquareRoot(root, Radicand(k, n, z))
    ensures Center(n - k, n, z) == 1.0 - Center(k, n, z)
  {
    Proportion(k, n);
    RadicandMirror(k, n, z);
    var p, t, d, s, center, margin := Shaped(k, n, z, root);
    var p', t', d', s', center', margin' := Shaped(n - k, n, z, root);
    MirroredCenters(d, p + t / 2.0, p' + t / 2.0, center, center');
  }

  lemma MirroredCenters(d: real, a: real, b: real, center: real, center': real)
    requires d > 0.0 && center * d == a && center' * d == b && a + b == d
    ensures center' == 1.0 - center
  {
    Distribute(center, center', d);
    Scaled(center + center', 1.0, d);
  }

  /** Completing the square: the quadratic inequality says how far x may be from the center. */
  lemma ScoreQuadratic(p: real, t: real, d: real, s: real, x: real)
    requires t >= 0.0 && d == 1.0 + t && SpreadOf(p, t, s)
    ensures (p - x) * (p - x) <= t * (x * (1.0 - x)) <==> -s <= x * d - (p + t / 2.0) <= s
  {
    var a := p + t / 2.0;
    var y, g := x * d - a, (p - x) * (p - x) - t * (x * (1.0 - x));
    var u, v := x * d, p * p;
    assert g == x * u - 2.0 * (a * x) + v;
    assert d * (x * u) == u * u && d * (a * x) == a * u;
    assert d * g == d * (x * u) - 2.0 * (d * (a * x)) + d * v;
    assert y * y == u * u - 2.0 * (a * u) + a * a;
    assert a * a - s * s == d * v;
    assert d * g == y * y - s * s;
    Scaled(g, 0.0, d);
    if y * y <= s * s { SquaresOrdered(y, s); }
    if -s <= y <= s { OrderedSquares(y, s); }
  }

  /** The interval is exactly the set of probabilities that the score test does not reject. */
  lemma WilsonIsScoreInterval(k: int, n: int, z: real, root: real, x: real)
    requires 0 <= k <= n && n > 0 && z >= 0.0 && SquareRoot(root, Radicand(k, n, z))
    ensures var interval := WilsonInterval(k, n, z, root).value;
            interval.lo <= x <= interval.hi <==> NotRejected(k, n, z, x)
  {
    var p, t, d, s, center, margin := Shaped(k, n, z, root);
    WilsonBounds(k, n, z, root);
    ScoreWithin(p, t, d, s, center, margin, x);
    NotRejectedIn(k, n, z, x, p, t);
  }

  lemma ScoreWithin(p: real, t: real, d: real, s: real, center: real, margin: real, x: real)
    requires Shape(p, t, d, s, center, margin)
    ensures (p - x) * (p - x) <= t * (x * (1.0 - x)) <==> center - margin <= x <= center + margin
  {
    ScoreQuadratic(p, t, d, s, x);
    WithinEnds(x, center, margin, p + t / 2.0, s, d);
  }

  lemma NotRejectedIn(k: int, n: int, z: real, x: real, p: real, t: real)
    requires n > 0 && p == k as real / n as real && t == z * z / n as real
    ensures NotRejected(k, n, z, x) <==> (p - x) * (p - x) <= t * (x * (1.0 - x))
  {
    Share(z * z, x * (1.0 - x), n as real);
  }

  lemma Share(z2: real, y: real, d: real)
    requires d > 0.0
    ensures z2 * y / d == (z2 / d) * y
  {
    Quotient(z2 * y, d);
    Quotient(z2, d);
    assert ((z2 / d) * y) * d == ((z2 / d) * d) * y;
    Scaled(z2 * y / d, (z2 / d) * y, d);
  }

  lemma WithinEnds(x: real, center: real, margin: real, a: real, s: real, d: real)
    requires d > 0.0 && center * d == a && margin * d == s
    ensures center - margin <= x <= center + margin <==> -s <= x * d - a <= s
  {
    Distribute(center, margin, d);
    Scaled(center - margin, x, d);
    Scaled(x, center + margin, d);
  }
}

/** Interpolated quantiles and the summary statistics built on them. */
module Quantiles {
  import opened Wrappers
  import opened Reals

  function Insert(x: real, xs: seq<real>): seq<real> {
    if xs == [] || x <= xs[0] then [x] + xs else [xs[0]] + Insert(x, xs[1..])
  }

  function Sort(xs: seq<real>): (ys: seq<real>) {
    if xs == [] then [] else Insert(xs[0], Sort(xs[1..]))
  }

  ghost predicate Sorted(xs: seq<real>) {
    forall i, j :: 0 <= i < j < |xs| ==> xs[i] <= xs[j]
  }

  ghost predicate AllAtLeast(x: real, xs: seq<real>) {
    forall i :: 0 <= i < |xs| ==> x <= xs[i]
  }

  lemma {:induction false} InsertPermutes(x: real, xs: seq<real>)
    ensures multiset(Insert(x, xs)) == multiset(xs) + multiset{x} && |Insert(x, xs)| == |xs| + 1
  {
    if !(xs == [] || x <= xs[0]) {
      InsertPermutes(x, xs[1..]);
      assert xs == [xs[0]] + xs[1..];
    }
  }

  lemma {:induction false} InsertKeepsBound(low: real, x: real, xs: seq<real>)
    requires low <= x && AllAtLeast(low, xs)
    ensures AllAtLeast(low, Insert(x, xs))
  {
    if !(xs == [] || x <= xs[0]) {
      InsertKeepsBound(low, x, xs[1..]);
    }
  }

  lemma {:induction false} InsertSorts(x: real, xs: seq<real>)
    requires Sorted(xs)
    ensures Sorted(Insert(x, xs))
  {
    if !(xs == [] || x <= xs[0]) {
      InsertSorts(x, xs[1..]);
      InsertKeepsBound(xs[0], x, xs[1..]);
    }
  }

  lemma {:induction false} SortSorts(xs: seq<real>)
    ensures Sorted(Sort(xs)) && multiset(Sort(xs)) == multiset(xs) && |Sort(xs)| == |xs|
  {
    if xs != [] {
      SortSorts(xs[1..]);
      InsertSorts(xs[0], Sort(xs[1..]));
      InsertPermutes(xs[0], Sort(xs[1..]));
      assert xs == [xs[0]] + xs[1..];
    }
  }

  lemma HeadIsLeast(a: seq<real>, b: seq<real>)
    requires Sorted(a) && a != [] && b != [] && multiset(a) == multiset(b)
    ensures a[0] <= b[0]
  {
    assert b[0] in multiset(b);
    var i :| 0 <= i < |a| && a[i] == b[0];
  }

  lemma RemoveHead(a: seq<real>)
    requires a != []
    ensures multiset(a[1..]) == multiset(a) - multiset{a[0]}
  {
    assert a == [a[0]] + a[1..];
  }

  lemma SameSize(a: seq<real>, b: seq<real>)
    requires multiset(a) == multiset(b)
    ensures |a| == |b|
  {
    assert |multiset(a)| == |a| && |multiset(b)| == |b|;
  }

  lemma {:induction false} SortedUnique(a: seq<real>, b: seq<real>)
    requires Sorted(a) && Sorted(b) && multiset(a) == multiset(b)
    ensures a == b
    decreases |a|, 1
  {
    SameSize(a, b);
    if a != [] {
      HeadIsLeast(a, b);
      HeadIsLeast(b, a);
      RemoveHead(a);
      RemoveHead(b);
      SortedTails(a, b);
    }
  }

  lemma {:induction false} SortedTails(a: seq<real>, b: seq<real>)
    requires a != [] && b != [] && a[0] == b[0] && Sorted(a) && Sorted(b)
    requires multiset(a[1..]) == multiset(b[1..])
    ensures a == b
    decreases |a|, 0
  {
    SortedUnique(a[1..], b[1..]);
    assert a == [a[0]] + a[1..] && b == [b[0]] + b[1..];
  }

  /** Linear interpolation at a fractional position of a sorted list. */
  function At(ys: seq<real>, pos: real): real
    requires ys != [] && 0.0 <= pos <= (|ys| - 1) as real
  {
    var lo, hi := pos.Floor, Ceil(pos);
    if lo == hi then ys[lo]
    else
      var w := pos - lo as real;
      ys[lo] * (1.0 - w) + ys[hi] * w
  }

  /** The fractional position of quantile q in a list of n values. */
  function Position(n: nat, q: real): (pos: real)
    requires n > 0 && 0.0 <= q <= 1.0
    ensures 0.0 <= pos <= (n - 1) as real
  {
    var m := (n - 1) as real;
    MulNonNegative(q, m);
    MulNonNegative(1.0 - q, m);
    assert (1.0 - q) * m == m - q * m;
    q * m
  }

  lemma PositionMonotone(n: nat, p: real, q: real)
    requires n > 0 && 0.0 <= p <= q <= 1.0
    ensures Position(n, p) <= Position(n, q)
  {
    var m := (n - 1) as real;
    MulNonNegative(q - p, m);
    assert q * m - p * m == (q - p) * m;
  }

  /** `_quantile`, for q between 0 and 1. */
  function Quantile(xs: seq<real>, q: real): (r: Option<real>)
    requires 0.0 <= q <= 1.0
    ensures r.None? <==> xs == []
  {
    if xs == [] then None
    else
      SortSorts(xs);
      var ys := Sort(xs);
      if |ys| == 1 then Some(ys[0]) else Some(At(ys, Position(|ys|, q)))
  }

  lemma Between(a: real, b: real, w: real)
    requires a <= b && 0.0 <= w <= 1.0
    ensures a <= a * (1.0 - w) + b * w <= b
  {
    MulNonNegative(b - a, w);
    MulNonNegative(b - a, 1.0 - w);
    assert a * (1.0 - w) + b * w == a + (b - a) * w;
    assert a * (1.0 - w) + b * w == b - (b - a) * (1.0 - w);
  }

  lemma Steeper(a: real, b: real, v: real, w: real)
    requires a <= b && v <= w
    ensures a * (1.0 - v) + b * v <= a * (1.0 - w) + b * w
  {
    MulNonNegative(b - a, w - v);
    assert a * (1.0 - w) + b * w - (a * (1.0 - v) + b * v) == (b - a) * (w - v);
  }

  lemma AtBetweenNeighbours(ys: seq<real>, pos: real)
    requires ys != [] && 0.0 <= pos <= (|ys| - 1) as real && Sorted(ys)
    ensures ys[pos.Floor] <= At(ys, pos) <= ys[Ceil(pos)]
  {
    if pos.Floor != Ceil(pos) {
      Between(ys[pos.Floor], ys[Ceil(pos)], pos - pos.Floor as real);
    }
  }

  lemma AtMonotone(ys: seq<real>, p: real, q: real)
    requires ys != [] && 0.0 <= p <= q <= (|ys| - 1) as real && Sorted(ys)
    ensures At(ys, p) <= At(ys, q)
  {
    AtBetweenNeighbours(ys, p);
    AtBetweenNeighbours(ys, q);
    if Ceil(p) > q.Floor {
      var lo := p.Floor;
      assert q.Floor == lo && lo as real <= p;
      if lo as real != p {
        assert Ceil(p) == lo + 1 == Ceil(q);
        Steeper(ys[lo], ys[lo + 1], p - lo as real, q - lo as real);
      }
    }
  }

  /** A quantile lies between the smallest and the largest value. */
  lemma QuantileInRange(xs: seq<real>, q: real, low: real, high: real)
    requires xs != [] && 0.0 <= q <= 1.0
    requires forall i :: 0 <= i < |xs| ==> low <= xs[i] <= high
    ensures low <= Quantile(xs, q).value <= high
  {
    SortSorts(xs);
    var ys := Sort(xs);
    forall i | 0 <= i < |ys| ensures low <= ys[i] <= high {
      assert ys[i] in multiset(ys);
      assert ys[i] in xs;
    }
    if |ys| > 1 {
      AtBetweenNeighbours(ys, Position(|ys|, q));
    }
  }

  /** The order of the values does not matter. */
  lemma QuantileOrderInvisible(xs: seq<real>, zs: seq<real>, q: real)
    requires multiset(xs) == multiset(zs) && 0.0 <= q <= 1.0
    ensures Quantile(xs, q) == Quantile(zs, q)
  {
    SortSorts(xs);
    SortSorts(zs);
    SortedUnique(Sort(xs), Sort(zs));
  }

  /** The quantile runs straight from each value in ascending order to the next, in n - 1 equal steps of q. */
  lemma QuantileCurve(xs: seq<real>, ys: seq<real>, i: nat, t: real, q: real)
    requires Sorted(ys) && multiset(ys) == multiset(xs)
    requires i + 1 < |ys| && 0.0 <= t <= 1.0 && 0.0 <= q <= 1.0 && q * (|ys| - 1) as real == i as real + t
    ensures Quantile(xs, q) == Some(ys[i] + t * (ys[i + 1] - ys[i]))
  {
    SortSorts(xs);
    SortedUnique(Sort(xs), ys);
    AtCurve(ys, Position(|ys|, q), i, t);
  }

  lemma AtCurve(ys: seq<real>, pos: real, i: nat, t: real)
    requires i + 1 < |ys| && 0.0 <= t <= 1.0 && pos == i as real + t
    ensures 0.0 <= pos <= (|ys| - 1) as real && At(ys, pos) == ys[i] + t * (ys[i + 1] - ys[i])
  {
    RoundTo(pos, i, t);
    Straight(ys[i], ys[i + 1], t);
  }

  lemma RoundTo(pos: real, i: nat, t: real)
    requires 0.0 <= t <= 1.0 && pos == i as real + t
    ensures t == 0.0 ==> pos.Floor == i == Ceil(pos)
    ensures t == 1.0 ==> pos.Floor == i + 1 == Ceil(pos)
    ensures 0.0 < t < 1.0 ==> pos.Floor == i && Ceil(pos) == i + 1
  {
  }

  lemma Straight(a: real, b: real, t: real)
    ensures a * (1.0 - t) + b * t == a + t * (b - a)
  {
    assert a * (1.0 - t) == a - a * t;
  }

  lemma QuantileAlone(x: real, q: real)
    requires 0.0 <= q <= 1.0
    ensures Quantile([x], q) == Some(x)
  {
    assert Sort([x]) == [x];
  }

  /** Quantiles grow with q. */
  lemma QuantileMonotone(xs: seq<real>, p: real, q: real)
    requires xs != [] && 0.0 <= p <= q <= 1.0
    ensures Quantile(xs, p).value <= Quantile(xs, q).value
  {
    SortSorts(xs);
    if |xs| > 1 {
      PositionMonotone(|xs|, p, q);
      AtMonotone(Sort(xs), Position(|xs|, p), Position(|xs|, q));
    }
  }

  /** `statistics.median`: the middle value, or the mean of the two middle values. */
  function Median(xs: seq<real>): Option<real> {
    if xs == [] then None
    else
      SortSorts(xs);
      var ys, half := Sort(xs), |xs| / 2;
      if |xs| % 2 == 1 then Some(ys[half]) else Some((ys[half - 1] + ys[half]) / 2.0)
  }

  /** The median is the quantile at one half. */
  lemma MedianIsQuantile(xs: seq<real>)
    ensures Median(xs) == Quantile(xs, 0.5)
  {
    if xs != [] {
      SortSorts(xs);
      var n, ys := |xs|, Sort(xs);
      if n > 1 {
        var pos := Position(n, 0.5);
        if n % 2 == 1 {
          assert pos == (n / 2) as real;
        } else {
          var half := n / 2;
          assert pos == (half - 1) as real + 0.5;
          assert pos.Floor == half - 1 && Ceil(pos) == half;
          assert At(ys, pos) == ys[half - 1] * 0.5 + ys[half] * 0.5;
        }
      }
    }
  }

  datatype Stats = Stats(n: nat, median: Option<real>, iqr: Option<real>, p25: Option<real>, p75: Option<real>)

  function Present(values: seq<Option<real>>): seq<real> {
    if values == [] then []
    else (if values[0].Some? then [values[0].value] else []) + Present(values[1..])
  }

  /** The order statistics of `metric_stats`, missing values left out. */
  function MetricStats(values: seq<Option<real>>): Stats {
    var vals := Present(values);
    if vals == [] then Stats(0, None, None, None, None)
    else
      var p25, p75 := Quantile(vals, 0.25).value, Quantile(vals, 0.75).value;
      Stats(|vals|, Median(vals), Some(p75 - p25), Some(p25), Some(p75))
  }

  /** The reported quartiles bracket the median, so the interquartile range is never negative. */
  lemma QuartilesOrdered(values: seq<Option<real>>)
    ensures var s := MetricStats(values);
            && (s.n == 0 <==> forall i :: 0 <= i < |values| ==> values[i].None?)
            && (s.n > 0 ==> s.p25.Some? && s.median.Some? && s.p75.Some? && s.p25.value <= s.median.value <= s.p75.value)
            && (s.n > 0 ==> s.iqr.Some? && s.iqr.value == s.p75.value - s.p25.value >= 0.0)
  {
    var vals := Present(values);
    PresentEmpty(values);
    if vals != [] {
      QuantileMonotone(vals, 0.25, 0.5);
      QuantileMonotone(vals, 0.5, 0.75);
      MedianIsQuantile(vals);
    }
  }

  lemma {:induction false} PresentEmpty(values: seq<Option<real>>)
    ensures Present(values) == [] <==> forall i :: 0 <= i < |values| ==> values[i].None?
  {
    if values != [] {
      PresentEmpty(values[1..]);
      if forall i :: 0 <= i < |values[1..]| ==> values[1..][i].None? {
        assert forall i :: 1 <= i < |values| ==> values[i] == values[1..][i - 1];
      }
    }
  }

  lemma PresentCons(value: Option<real>, rest: seq<Option<real>>)
    ensures Present([value] + rest) == (if value.Some? then [value.value] else []) + Present(rest)
  {
    assert ([value] + rest)[1..] == rest;
  }

  lemma PresentSpelledOut()
    ensures Present([Some(4.0), None, Some(0.0), Some(1.0)]) == [4.0, 0.0, 1.0]
  {
    PresentCons(Some(1.0), []);
    PresentCons(Some(0.0), [Some(1.0)]);
    PresentCons(None, [Some(0.0), Some(1.0)]);
    PresentCons(Some(4.0), [None, Some(0.0), Some(1.0)]);
    assert [Some(4.0)] + [None, Some(0.0), Some(1.0)] == [Some(4.0), None, Some(0.0), Some(1.0)];
    assert [None] + [Some(0.0), Some(1.0)] == [None, Some(0.0), Some(1.0)];
    assert [Some(0.0)] + [Some(1.0)] == [Some(0.0), Some(1.0)] && [Some(1.0)] + [] == [Some(1.0)];
  }

  lemma OfThree(vals: seq<real>, ys: seq<real>, q: real, i: nat, t: real, v: real)
    requires Sorted(ys) && multiset(ys) == multiset(vals) && |ys| == 3 && i < 2
    requires 0.0 <= t <= 1.0 && 0.0 <= q <= 1.0 && q * 2.0 == i as real + t && v == ys[i] + t * (ys[i + 1] - ys[i])
    ensures Quantile(vals, q) == Some(v)
  {
    QuantileCurve(vals, ys, i, t, q);
  }

  lemma ThreeSorted(vals: seq<real>, ys: seq<real>)
    requires vals == [4.0, 0.0, 1.0] && ys == [0.0, 1.0, 4.0]
    ensures Sorted(ys) && multiset(ys) == multiset(vals)
  {
    assert vals == [4.0] + [0.0, 1.0] && ys == [0.0, 1.0] + [4.0];
  }

  lemma QuartilesSpelledOut(vals: seq<real>)
    requires vals == [4.0, 0.0, 1.0]
    ensures Quantile(vals, 0.25) == Some(0.5) && Quantile(vals, 0.5) == Some(1.0) && Quantile(vals, 0.75) == Some(2.5)
  {
    var ys := [0.0, 1.0, 4.0];
    ThreeSorted(vals, ys);
    OfThree(vals, ys, 0.25, 0, 0.5, 0.5);
    OfThree(vals, ys, 0.5, 0, 1.0, 1.0);
    OfThree(vals, ys, 0.75, 1, 0.5, 2.5);
  }

  /** Four values, one of them missing, spelled out. */
  lemma StatsSpelledOut()
    ensures MetricStats([Some(4.0), None, Some(0.0), Some(1.0)]) == Stats(3, Some(1.0), Some(2.0), Some(0.5), Some(2.5))
  {
    PresentSpelledOut();
    QuartilesSpelledOut([4.0, 0.0, 1.0]);
    MedianIsQuantile([4.0, 0.0, 1.0]);
  }
}
