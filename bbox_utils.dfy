/** Bounding-box helpers: the centre of a box and the distance between two points. */
module BboxUtils {

  /** A detector bounding box (x1, y1, x2, y2) in pixel coordinates. */
  datatype BBox = BBox(x1: real, y1: real, x2: real, y2: real)

  /** A point in pixel space. */
  type Point = (real, real)

  /** `t` is `r` with its fractional part dropped, i.e. rounded toward zero (Python's `int()`). */
  ghost predicate TruncatesTo(r: real, t: int)
  {
    (0.0 <= r ==> 0 <= t && t as real <= r < t as real + 1.0) &&
    (r < 0.0 ==> t <= 0 && t as real - 1.0 < r <= t as real)
  }

  /** Python's `int(r)` on a float: truncation toward zero. */
  function Trunc(r: real): (t: int)
    ensures TruncatesTo(r, t)
  {
    if 0.0 <= r then r.Floor else -((-r).Floor)
  }

  /** `get_center_of_bbox`: the midpoint of the box, each coordinate truncated toward zero. */
  function Center(b: BBox): (c: (int, int))
    ensures TruncatesTo((b.x1 + b.x2) / 2.0, c.0)
    ensures TruncatesTo((b.y1 + b.y2) / 2.0, c.1)
  {
    (Trunc((b.x1 + b.x2) / 2.0), Trunc((b.y1 + b.y2) / 2.0))
  }

  /** The centre as a point, as it is passed to `measure_distance`. */
  function CenterPoint(b: BBox): Point
  {
    var c := Center(b);
    (c.0 as real, c.1 as real)
  }

  /**
   * `measure_distance` without its final square root: the square root is monotone,
   * so every comparison made on distances is the same on squared distances.
   */
  function SquaredDistance(p: Point, q: Point): (d: real)
    ensures 0.0 <= d
    ensures d == 0.0 <==> p == q
  {
    SquareSign(p.0 - q.0);
    SquareSign(p.1 - q.1);
    Product(p.0 - q.0, p.0 - q.0) + Product(p.1 - q.1, p.1 - q.1)
  }

  /** Real multiplication, kept behind a function so that facts about squares stay usable. */
  function Product(a: real, b: real): real
  {
    a * b
  }

  lemma ProductPositive(a: real, b: real)
    requires 0.0 < a && 0.0 < b
    ensures 0.0 < Product(a, b)
  {
    assert 0.0 < a * b;
  }

  /** A square is never negative, and is positive for any non-zero number. */
  lemma SquareSign(x: real)
    ensures 0.0 <= Product(x, x)
    ensures x != 0.0 ==> 0.0 < Product(x, x)
  {
    if x < 0.0 {
      ProductPositive(-x, -x);
      assert Product(-x, -x) == Product(x, x);
    } else if 0.0 < x {
      ProductPositive(x, x);
    }
  }

  /** Truncating a midpoint whose two ends are integers never leaves the interval between them. */
  lemma TruncMidpointBetween(a: int, b: int)
    requires a <= b
    ensures a <= Trunc((a as real + b as real) / 2.0) <= b
  {
    var m := (a as real + b as real) / 2.0;
    var t := Trunc(m);
    assert a as real <= m <= b as real;
    if 0.0 <= m {
      assert t as real <= b as real;
      assert a as real - 1.0 < t as real;
    } else {
      assert a as real <= t as real;
      assert t as real < b as real + 1.0;
    }
  }

  /** For a box with integer corners, ordered, the centre lies inside the box. */
  lemma CenterInsideIntegerBox(x1: int, y1: int, x2: int, y2: int)
    requires x1 <= x2 && y1 <= y2
    ensures var c := Center(BBox(x1 as real, y1 as real, x2 as real, y2 as real));
            x1 <= c.0 <= x2 && y1 <= c.1 <= y2
  {
    TruncMidpointBetween(x1, x2);
    TruncMidpointBetween(y1, y2);
  }

  /** A degenerate integer box (a single point) has that point as its centre. */
  lemma DegenerateBoxCenter(x: int, y: int)
    ensures Center(BBox(x as real, y as real, x as real, y as real)) == (x, y)
  {
    TruncMidpointBetween(x, x);
    TruncMidpointBetween(y, y);
  }

  /** Distance does not depend on the order of its two points. */
  lemma SquaredDistanceSymmetric(p: Point, q: Point)
    ensures SquaredDistance(p, q) == SquaredDistance(q, p)
  {
    assert Product(p.0 - q.0, p.0 - q.0) == Product(q.0 - p.0, q.0 - p.0);
    assert Product(p.1 - q.1, p.1 - q.1) == Product(q.1 - p.1, q.1 - p.1);
  }
}
