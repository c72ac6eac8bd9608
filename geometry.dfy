/** The geometry of a set of object positions (scan.js:128-157, 181): the mean of the
    horizontal positions, the Weiszfeld iteration towards their geometric median, and the
    highest height. Numbers are exact reals; the Euclidean distance, which needs a square root,
    is a parameter `dist`. */
module Geometry {

  /** A position as the checker prints it. */
  datatype Coord = Coord(x: real, y: real, z: real)

  /** A horizontal position. */
  datatype Point2D = Point2D(x: real, y: real)

  /** `distance2D`, left abstract. */
  type Distance = (Point2D, Point2D) -> real

  /** The iteration limit and tolerance `compute2DGeometricMedian` is called with. */
  const MaxIter: nat := 100
  const Eps: real := 0.0000001

  function Flat(c: Coord): Point2D
  {
    Point2D(c.x, c.y)
  }

  // ---------------------------------------------------------------------------------------
  // averageXY

  /** The running sums of `reduce((s, c) => s + c.x, 0)` and of the same over `y`. */
  function SumX(cs: seq<Coord>): real
  {
    if cs == [] then 0.0 else SumX(cs[..|cs| - 1]) + cs[|cs| - 1].x
  }

  function SumY(cs: seq<Coord>): real
  {
    if cs == [] then 0.0 else SumY(cs[..|cs| - 1]) + cs[|cs| - 1].y
  }

  /** `averageXY`: the origin for no positions, else the mean of the horizontal positions. */
  function Mean(cs: seq<Coord>): Point2D
  {
    if |cs| == 0 then Point2D(0.0, 0.0)
    else Point2D(SumX(cs) / (|cs| as real), SumY(cs) / (|cs| as real))
  }

  // ---------------------------------------------------------------------------------------
  // compute2DGeometricMedian

  /** The outcome of one pass of the inner loop: a position closer than `Eps` to the current
      guess, which is returned at once, or the weighted sums of the pass. */
  datatype Pass = Hit(p: Point2D) | Sums(numX: real, numY: real, den: real)

  /** The inner loop over `cs`, each position weighted by the reciprocal of its distance
      from `current`. The first position closer than `Eps` ends the pass. */
  function ScanPoints(cs: seq<Coord>, current: Point2D, dist: Distance): (r: Pass)
    ensures r.Hit? ==> exists i :: 0 <= i < |cs| && r.p == Flat(cs[i])
    ensures r.Sums? ==> r.den >= 0.0 && (cs != [] ==> r.den > 0.0)
  {
    if cs == [] then Sums(0.0, 0.0, 0.0)
    else
      var init, p := cs[..|cs| - 1], Flat(cs[|cs| - 1]);
      var r := ScanPoints(init, current, dist);
      assert r.Hit? ==> exists i :: 0 <= i < |cs| && r.p == Flat(cs[i]) by {
        assert forall i :: 0 <= i < |init| ==> init[i] == cs[i];
      }
      Visit(r, p, dist(current, p))
  }

  /** One step of the inner loop: the position `p`, at distance `d` from the guess. */
  function Visit(r: Pass, p: Point2D, d: real): (r': Pass)
    ensures r'.Hit? ==> r' == r || r'.p == p
    ensures r.Sums? && r'.Sums? ==> r'.den > r.den
  {
    if r.Hit? then r
    else if d < Eps then Hit(p)
    else Weigh(r, p, 1.0 / d)
  }

  /** `numX += p.x * w; numY += p.y * w; den += w`. */
  function Weigh(r: Pass, p: Point2D, w: real): Pass
    requires r.Sums?
  {
    Sums(r.numX + p.x * w, r.numY + p.y * w, r.den + w)
  }

  /** The outer loop from round `i` on, with guess `current`. */
  function Iterate(cs: seq<Coord>, current: Point2D, i: nat, dist: Distance): Point2D
    requires cs != []
    decreases MaxIter - i
  {
    if i >= MaxIter then current
    else
      var r := ScanPoints(cs, current, dist);
      if r.Hit? then r.p
      else
        var next := Guess(r);
        if dist(current, next) < Eps then next
        else Iterate(cs, next, i + 1, dist)
  }

  /** The new guess of a pass without a hit: `{ x: numX / den, y: numY / den }`. */
  function Guess(r: Pass): Point2D
    requires r.Sums? && r.den > 0.0
  {
    Point2D(r.numX / r.den, r.numY / r.den)
  }

  /** `compute2DGeometricMedian(coords)`: the origin for no positions, the position itself for
      one, else the Weiszfeld iteration from the mean. */
  function Median2D(cs: seq<Coord>, dist: Distance): Point2D
  {
    if |cs| == 0 then Point2D(0.0, 0.0)
    else if |cs| == 1 then Flat(cs[0])
    else Iterate(cs, Mean(cs), 0, dist)
  }

  /** A pass that has seen the prefix `cs[..j]`, extended by one position. */
  lemma ScanSnoc(cs: seq<Coord>, j: nat, current: Point2D, dist: Distance)
    requires j < |cs|
    ensures ScanPoints(cs[..j + 1], current, dist) ==
      Visit(ScanPoints(cs[..j], current, dist), Flat(cs[j]), dist(current, Flat(cs[j])))
  {
    assert cs[..j + 1][..j] == cs[..j];
  }

  /** A position at least `Eps` away is weighed with `w`, the reciprocal of its distance. */
  lemma VisitWeighs(numX: real, numY: real, den: real, p: Point2D, d: real, w: real)
    requires d >= Eps && w == 1.0 / d
    ensures Visit(Sums(numX, numY, den), p, d) == Sums(numX + p.x * w, numY + p.y * w, den + w)
  {
    var r := Sums(numX, numY, den);
    assert Visit(r, p, d) == Weigh(r, p, w);
    var r' := Weigh(r, p, w);
    assert r'.numX == numX + p.x * w && r'.numY == numY + p.y * w && r'.den == den + w;
  }

  /** Once a pass has hit a position, the rest of the pass does not change the outcome. */
  lemma {:induction false} HitPersists(cs: seq<Coord>, j: nat, current: Point2D, dist: Distance)
    requires j <= |cs| && ScanPoints(cs[..j], current, dist).Hit?
    ensures ScanPoints(cs, current, dist) == ScanPoints(cs[..j], current, dist)
    decreases |cs| - j
  {
    if j < |cs| {
      ScanSnoc(cs, j, current, dist);
      HitPersists(cs, j + 1, current, dist);
    } else {
      assert cs[..j] == cs;
    }
  }

  /** The loops of `compute2DGeometricMedian`, with their early returns. */
  method GeometricMedian(coords: seq<Coord>, dist: Distance) returns (r: Point2D)
    ensures r == Median2D(coords, dist)
  {
    if |coords| == 0 {
      return Point2D(0.0, 0.0);
    }
    if |coords| == 1 {
      return Point2D(coords[0].x, coords[0].y);
    }
    var current := Mean(coords);
    var i := 0;
    while i < MaxIter
      invariant 0 <= i <= MaxIter
      invariant Iterate(coords, current, i, dist) == Median2D(coords, dist)
    {
      var numX, numY, den := 0.0, 0.0, 0.0;
      var j := 0;
      while j < |coords|
        invariant 0 <= j <= |coords|
        invariant ScanPoints(coords[..j], current, dist) == Sums(numX, numY, den)
      {
        ScanSnoc(coords, j, current, dist);
        var p := Point2D(coords[j].x, coords[j].y);
        var d := dist(current, p);
        if d < Eps {
          HitPersists(coords, j + 1, current, dist);
          return p;
        }
        var w := 1.0 / d;
        VisitWeighs(numX, numY, den, p, d, w);
        numX := numX + p.x * w;
        numY := numY + p.y * w;
        den := den + w;
        j := j + 1;
      }
      assert coords[..j] == coords;
      var next := Point2D(numX / den, numY / den);
      assert next == Guess(Sums(numX, numY, den));
      if dist(current, next) < Eps {
        current := next;
        break;
      }
      current := next;
      i := i + 1;
    }
    r := current;
  }

  // ---------------------------------------------------------------------------------------
  // What the iteration guarantees, whatever the distance function.

  predicate InBox(p: Point2D, lo: Point2D, hi: Point2D)
  {
    lo.x <= p.x <= hi.x && lo.y <= p.y <= hi.y
  }

  predicate AllInBox(cs: seq<Coord>, lo: Point2D, hi: Point2D)
  {
    forall i :: 0 <= i < |cs| ==> InBox(Flat(cs[i]), lo, hi)
  }

  lemma ScaleMono(a: real, b: real, w: real)
    requires a <= b && w > 0.0
    ensures a * w <= b * w
  {
  }

  lemma DivBounds(lo: real, hi: real, num: real, den: real)
    requires den > 0.0 && Between(lo, hi, num, den)
    ensures lo <= num / den <= hi
  {
    assert num / den * den == num;
    if num / den < lo {
      ScaleMono(num / den, lo, den);
    }
    if num / den > hi {
      ScaleMono(hi, num / den, den);
    }
  }

  /** The sums of positions inside the box, over their number, are bounded like a pass. */
  lemma {:induction false} SumsInBox(cs: seq<Coord>, lo: Point2D, hi: Point2D)
    requires AllInBox(cs, lo, hi)
    ensures PassBounded(Sums(SumX(cs), SumY(cs), |cs| as real), lo, hi)
  {
    if cs == [] {
      assert lo.x * 0.0 == 0.0 && lo.y * 0.0 == 0.0 && hi.x * 0.0 == 0.0 && hi.y * 0.0 == 0.0;
    } else {
      var init := cs[..|cs| - 1];
      assert AllInBox(init, lo, hi) by {
        forall i | 0 <= i < |init| ensures InBox(Flat(init[i]), lo, hi) {
          assert init[i] == cs[i];
        }
      }
      SumsInBox(init, lo, hi);
      assert InBox(Flat(cs[|cs| - 1]), lo, hi);
      var last := cs[|cs| - 1];
      StepBounds(lo.x, hi.x, last.x, SumX(init), |init| as real, 1.0);
      StepBounds(lo.y, hi.y, last.y, SumY(init), |init| as real, 1.0);
      assert |cs| as real == |init| as real + 1.0;
    }
  }

  /** The mean of positions lies within any box holding them all. */
  lemma MeanInBox(cs: seq<Coord>, lo: Point2D, hi: Point2D)
    requires cs != [] && AllInBox(cs, lo, hi)
    ensures InBox(Mean(cs), lo, hi)
  {
    var r := Sums(SumX(cs), SumY(cs), |cs| as real);
    SumsInBox(cs, lo, hi);
    GuessInBox(r, lo, hi);
    assert Mean(cs) == Guess(r);
  }

  /** A pass outcome that stays in the box: a hit inside it, or sums whose quotients lie in it. */
  predicate PassBounded(r: Pass, lo: Point2D, hi: Point2D)
  {
    match r
    case Hit(p) => InBox(p, lo, hi)
    case Sums(numX, numY, den) => Between(lo.x, hi.x, numX, den) && Between(lo.y, hi.y, numY, den)
  }

  /** `num / den` lies between `lo` and `hi`, stated without the division. */
  predicate Between(lo: real, hi: real, num: real, den: real)
  {
    lo * den <= num <= hi * den
  }

  /** One pass either hits a position inside the box or yields sums whose quotient lies in it. */
  lemma {:induction false} PassInBox(cs: seq<Coord>, current: Point2D, dist: Distance, lo: Point2D, hi: Point2D)
    requires AllInBox(cs, lo, hi)
    ensures PassBounded(ScanPoints(cs, current, dist), lo, hi)
  {
    if cs != [] {
      var init, p := cs[..|cs| - 1], Flat(cs[|cs| - 1]);
      assert AllInBox(init, lo, hi) by {
        forall i | 0 <= i < |init| ensures InBox(Flat(init[i]), lo, hi) {
          assert init[i] == cs[i];
        }
      }
      PassInBox(init, current, dist, lo, hi);
      assert InBox(p, lo, hi);
      VisitBounded(ScanPoints(init, current, dist), p, dist(current, p), lo, hi);
    }
  }

  lemma VisitBounded(r: Pass, p: Point2D, d: real, lo: Point2D, hi: Point2D)
    requires PassBounded(r, lo, hi) && InBox(p, lo, hi)
    ensures PassBounded(Visit(r, p, d), lo, hi)
  {
    if r.Sums? && d >= Eps {
      WeighBounded(r, p, 1.0 / d, lo, hi);
    }
  }

  lemma WeighBounded(r: Pass, p: Point2D, w: real, lo: Point2D, hi: Point2D)
    requires r.Sums? && PassBounded(r, lo, hi) && InBox(p, lo, hi) && w > 0.0
    ensures PassBounded(Weigh(r, p, w), lo, hi)
  {
    var nx, ny, den, r' := r.numX, r.numY, r.den, Weigh(r, p, w);
    assert Between(lo.x, hi.x, nx, den) && Between(lo.y, hi.y, ny, den);
    StepBounds(lo.x, hi.x, p.x, nx, den, w);
    StepBounds(lo.y, hi.y, p.y, ny, den, w);
    assert r'.numX == nx + p.x * w && r'.numY == ny + p.y * w && r'.den == den + w;
  }

  lemma StepBounds(lo: real, hi: real, v: real, num: real, den: real, w: real)
    requires w > 0.0 && lo <= v <= hi && Between(lo, hi, num, den)
    ensures Between(lo, hi, num + v * w, den + w)
  {
    ScaleMono(lo, v, w);
    ScaleMono(v, hi, w);
    assert lo * (den + w) == lo * den + lo * w;
    assert hi * (den + w) == hi * den + hi * w;
  }

  lemma GuessInBox(r: Pass, lo: Point2D, hi: Point2D)
    requires r.Sums? && r.den > 0.0 && PassBounded(r, lo, hi)
    ensures InBox(Guess(r), lo, hi)
  {
    DivBounds(lo.x, hi.x, r.numX, r.den);
    DivBounds(lo.y, hi.y, r.numY, r.den);
  }

  lemma {:induction false} IterateInBox(cs: seq<Coord>, current: Point2D, i: nat, dist: Distance, lo: Point2D, hi: Point2D)
    requires cs != [] && AllInBox(cs, lo, hi) && InBox(current, lo, hi)
    ensures InBox(Iterate(cs, current, i, dist), lo, hi)
    decreases MaxIter - i
  {
    if i < MaxIter {
      var r := ScanPoints(cs, current, dist);
      PassInBox(cs, current, dist, lo, hi);
      if r.Sums? {
        GuessInBox(r, lo, hi);
        IterateInBox(cs, Guess(r), i + 1, dist, lo, hi);
      }
    }
  }

  /** Whatever the distance function, the median estimate of at least one position lies
      within any box that holds all of them: every guess is the mean, a position, or a
      weighted average of the positions with positive weights. */
  lemma MedianInBox(cs: seq<Coord>, dist: Distance, lo: Point2D, hi: Point2D)
    requires cs != [] && AllInBox(cs, lo, hi)
    ensures InBox(Median2D(cs, dist), lo, hi)
  {
    if |cs| == 1 {
      assert InBox(Flat(cs[0]), lo, hi);
    } else {
      MeanInBox(cs, lo, hi);
      IterateInBox(cs, Mean(cs), 0, dist, lo, hi);
    }
  }

  /** When every position has the same horizontal position, that is the median estimate. */
  lemma MedianOfIdenticalPoints(cs: seq<Coord>, dist: Distance, p: Point2D)
    requires cs != [] && forall i :: 0 <= i < |cs| ==> Flat(cs[i]) == p
    ensures Median2D(cs, dist) == p
  {
    assert AllInBox(cs, p, p);
    MedianInBox(cs, dist, p, p);
  }

  // ---------------------------------------------------------------------------------------
  // Math.max(...coords.map(c => c.z))

  /** The highest height among at least one position. */
  function MaxZ(cs: seq<Coord>): (r: real)
    requires cs != []
    ensures forall i :: 0 <= i < |cs| ==> cs[i].z <= r
    ensures exists i :: 0 <= i < |cs| && cs[i].z == r
  {
    if |cs| == 1 then cs[0].z
    else
      var init := cs[..|cs| - 1];
      var m := MaxZ(init);
      assert forall i :: 0 <= i < |init| ==> init[i] == cs[i];
      if cs[|cs| - 1].z > m then cs[|cs| - 1].z else m
  }
}
