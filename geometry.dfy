/**
 * The torus and the scene of frame/frame.go, the K1 formula of
 * Scene.CalculateK1, the rotated torus point, and the projection of a point
 * to a screen cell. Only the cosines and sines and the luminance formula are
 * not modelled: the cosines and sines are inputs on the unit circle here.
 */
module Geometry {
  import opened DepthBuffer

  /** The shape, sampling steps and pose of the donut being drawn. */
  datatype Torus = Torus(
    thetaSpacing: real,  // angle step around the small circle
    phiSpacing: real,    // angle step of sweeping that circle round the axis
    r1: real,            // radius of the circle that is swept round
    r2: real,            // how far the small circle's centre sits from the axis
    a: real,             // angle turned about x
    b: real              // angle turned about z
  )

  /** The torus the program draws unless told otherwise, seen unrotated. */
  function DefaultTorus(): (t: Torus)
    ensures t.thetaSpacing == 0.07 && t.phiSpacing == 0.02
    ensures t.r1 == 1.0 && t.r2 == 2.0
    ensures t.a == 0.0 && t.b == 0.0
    // both spacings positive, and the circle does not reach the axis, so the torus has a hole
    ensures 0.0 < t.thetaSpacing && 0.0 < t.phiSpacing && 0.0 < t.r1 < t.r2
  {
    Torus(0.07, 0.02, 1.0, 2.0, 0.0, 0.0)
  }

  /** The smaller side of a width x height viewport. */
  function MinSide(width: int, height: int): (m: int)
    ensures m <= width && m <= height
    ensures m == width || m == height
  {
    if height < width then height else width
  }

  /** The projection scale CalculateK1 picks for a viewport whose smaller side is m. */
  function FittingK1(m: int, k2: real, r1: real, r2: real): (k1: real)
    requires r1 + r2 != 0.0
  {
    m as real * k2 * 3.0 / (8.0 * (r1 + r2))
  }

  /** The viewport, camera distances and light direction a frame is drawn with. */
  class Scene {
    var width: int   // viewport size in cells
    var height: int
    var k1: real     // projection scale: how far the screen plane is from the eye
    var k2: real     // how far the donut's centre is from the eye
    var lx: real     // direction the light comes from
    var ly: real
    var lz: real

    /** A scene literal that leaves K1 at its zero value, to be set by CalculateK1. */
    constructor (width: int, height: int, k2: real, lx: real, ly: real, lz: real)
      ensures this.width == width && this.height == height
      ensures this.k1 == 0.0 && this.k2 == k2
      ensures this.lx == lx && this.ly == ly && this.lz == lz
    {
      this.width, this.height := width, height;
      this.k1, this.k2 := 0.0, k2;
      this.lx, this.ly, this.lz := lx, ly, lz;
    }

    /** Sets K1 so that the torus stays within the viewport; no other field changes. */
    method CalculateK1(r1: real, r2: real)
      requires r1 + r2 != 0.0
      modifies this`k1
      ensures k1 == FittingK1(MinSide(width, height), k2, r1, r2)
    {
      var min := width;
      if height < min {
        min := height;
      }
      k1 := min as real * k2 * 3.0 / (8.0 * (r1 + r2));
    }
  }

  /** r is v with its fraction dropped towards zero: the floor of v when v >= 0, its ceiling otherwise. */
  predicate TruncationOf(r: int, v: real) {
    && (0.0 <= v ==> r as real <= v < r as real + 1.0)
    && (v < 0.0 ==> r as real - 1.0 < v <= r as real)
  }

  /** Go's conversion of a float to int: the fraction is dropped, towards zero. */
  function Truncate(v: real): (r: int)
    ensures TruncationOf(r, v)
  {
    if v >= 0.0 then v.Floor else -((-v).Floor)
  }

  /**
   * The sample of a rotated point (x, y) with inverse depth ooz and
   * luminance lum: x is measured right from the middle of the viewport, y
   * up from it, and the screen's y axis points down.
   */
  function Project(width: int, height: int, k1: real, x: real, y: real, ooz: real, lum: real): (s: Sample)
    // the cell is the exact screen point, each coordinate truncated towards zero
    ensures TruncationOf(s.xp, width as real / 2.0 + Offset(k1, ooz, x))
    ensures TruncationOf(s.yp, height as real / 2.0 - Offset(k1, ooz, y))
    // the sample keeps the point's inverse depth and luminance
    ensures s.ooz == ooz && s.lum == lum
  {
    Sample(Truncate(width as real / 2.0 + Offset(k1, ooz, x)),
           Truncate(height as real / 2.0 - Offset(k1, ooz, y)),
           ooz, lum)
  }

  /** How far from the middle of the viewport a coordinate v at inverse depth ooz lands. */
  function Offset(k1: real, ooz: real, v: real): (o: real) {
    k1 * ooz * v
  }

  /**
   * The special case of TorusStaysOnScreen at the depth of the torus centre
   * (ooz = 1/K2), which holds for any non-zero K2: with K1 from CalculateK1,
   * every point there that lies within R1 + R2 of the axis in x and y
   * projects at most 3/8 of the smaller side away from the middle, hence
   * onto the viewport.
   */
  lemma CentreDepthLandsOnScreen(width: int, height: int, k2: real, r1: real, r2: real, x: real, y: real, lum: real)
    requires 0 < width && 0 < height && k2 != 0.0 && 0.0 < r1 + r2
    requires -(r1 + r2) <= x <= r1 + r2 && -(r1 + r2) <= y <= r1 + r2
    ensures var k1 := FittingK1(MinSide(width, height), k2, r1, r2);
            var s := Project(width, height, k1, x, y, 1.0 / k2, lum);
            0 <= s.xp < width && 0 <= s.yp < height
  {
    var m := MinSide(width, height);
    var k1 := FittingK1(m, k2, r1, r2);
    ScaleAtCentreDepth(m, k2, r1, r2);
    OffsetWithin(k1, 1.0 / k2, r1 + r2, m, x);
    OffsetWithin(k1, 1.0 / k2, r1 + r2, m, y);
    AxisOnScreen(width, m, Offset(k1, 1.0 / k2, x));
    AxisOnScreen(height, m, Offset(k1, 1.0 / k2, y));
  }

  /** At the depth of the centre, K1 scales R1 + R2 to 3/8 of m. */
  lemma ScaleAtCentreDepth(m: int, k2: real, r1: real, r2: real)
    requires 0 < m && k2 != 0.0 && 0.0 < r1 + r2
    ensures var scale := FittingK1(m, k2, r1, r2) * (1.0 / k2);
            0.0 < scale && scale * (r1 + r2) == 3.0 * m as real / 8.0
  {
    var d := 8.0 * (r1 + r2);
    var c := 3.0 * m as real / d;
    var k1 := FittingK1(m, k2, r1, r2);
    assert k1 == c * k2;
    assert k1 * (1.0 / k2) == c * (k2 * (1.0 / k2));
    assert k2 * (1.0 / k2) == 1.0;
    assert c * (r1 + r2) == 3.0 * m as real / 8.0;
  }

  lemma OffsetWithin(k1: real, ooz: real, bound: real, m: int, v: real)
    requires 0.0 < k1 * ooz && k1 * ooz * bound == 3.0 * m as real / 8.0 && -bound <= v <= bound
    ensures -(3.0 * m as real / 8.0) <= Offset(k1, ooz, v) <= 3.0 * m as real / 8.0
  {
    var c := k1 * ooz;
    assert Offset(k1, ooz, v) == c * v;
    assert -(c * bound) <= c * v <= c * bound;
  }

  /**
   * An offset of less than half the smaller side m, either way from the
   * middle of a side at least m long, truncates to a cell on that side.
   */
  lemma AxisOnScreen(side: int, m: int, offset: real)
    requires 0 < m <= side && -(m as real / 2.0) < offset < m as real / 2.0
    ensures 0 <= Truncate(side as real / 2.0 + offset) < side
    ensures 0 <= Truncate(side as real / 2.0 - offset) < side
  {
  }

  /**
   * The same centre-depth special case in a square scene: the point is also
   * inside the z-buffer, which is indexed [xp][yp].
   */
  lemma CentreDepthInSquareBuffer(side: int, k2: real, r1: real, r2: real, x: real, y: real, lum: real)
    requires 0 < side && k2 != 0.0 && 0.0 < r1 + r2
    requires -(r1 + r2) <= x <= r1 + r2 && -(r1 + r2) <= y <= r1 + r2
    ensures var k1 := FittingK1(MinSide(side, side), k2, r1, r2);
            OnScreen(Project(side, side, k1, x, y, 1.0 / k2, lum), side, side)
  {
    CentreDepthLandsOnScreen(side, side, k2, r1, r2, x, y, lum);
  }

  /** The cosine and sine of an angle, as Render computes them with math.Cos and math.Sin. */
  datatype Angle = Angle(cos: real, sin: real)

  predicate OnUnitCircle(a: Angle) {
    a.cos * a.cos + a.sin * a.sin == 1.0
  }

  /** A point in camera space. */
  datatype Point = Point(x: real, y: real, z: real)

  /**
   * The point of torus t at angles theta (around the cross-section) and phi
   * (around the axis of revolution), rotated by A about the X axis and by B
   * about the Z axis, then pushed K2 away from the camera.
   */
  function TorusPoint(t: Torus, k2: real, a: Angle, b: Angle, theta: Angle, phi: Angle): (p: Point)
    // unrotated (A = B = 0), the circle revolves about the y axis at distance K2
    ensures a == Angle(1.0, 0.0) && b == Angle(1.0, 0.0) ==>
              var circleX := t.r2 + t.r1 * theta.cos;
              p == Point(circleX * phi.cos, t.r1 * theta.sin, k2 + circleX * phi.sin)
  {
    var circleX := t.r2 + t.r1 * theta.cos;
    var circleY := t.r1 * theta.sin;
    // unrotated, each rotation factor is 1 or 0
    assert a == Angle(1.0, 0.0) && b == Angle(1.0, 0.0) ==>
             && b.cos * phi.cos + a.sin * b.sin * phi.sin == phi.cos
             && b.sin * phi.cos - a.sin * b.cos * phi.sin == 0.0
             && circleY * a.cos * b.sin == 0.0
             && circleY * a.cos * b.cos == circleY
             && a.cos * circleX * phi.sin == circleX * phi.sin
             && circleY * a.sin == 0.0;
    Point(circleX * (b.cos * phi.cos + a.sin * b.sin * phi.sin) - circleY * a.cos * b.sin,
          circleX * (b.sin * phi.cos - a.sin * b.cos * phi.sin) + circleY * a.cos * b.cos,
          k2 + a.cos * circleX * phi.sin + circleY * a.sin)
  }

  /** A rotation of the plane keeps the squared length of (u, v). */
  lemma RotationKeepsLength(c: real, s: real, u: real, v: real)
    requires c * c + s * s == 1.0
    ensures (u * c + v * s) * (u * c + v * s) + (u * s - v * c) * (u * s - v * c) == u * u + v * v
  {
    calc {
      (u * c + v * s) * (u * c + v * s) + (u * s - v * c) * (u * s - v * c);
      u * u * (c * c + s * s) + v * v * (c * c + s * s);
      u * u + v * v;
    }
  }

  /** The cross-section's circle lies within R1 + R2 of the axis when both radii are non-negative. */
  lemma CircleWithinReach(r1: real, r2: real, theta: Angle)
    requires OnUnitCircle(theta) && 0.0 <= r1 && 0.0 <= r2
    ensures var circleX := r2 + r1 * theta.cos;
            circleX * circleX + (r1 * theta.sin) * (r1 * theta.sin) <= (r1 + r2) * (r1 + r2)
  {
    RotationKeepsLength(theta.cos, theta.sin, r1, 0.0);
    assert (r1 * theta.cos) * (r1 * theta.cos) + (r1 * theta.sin) * (r1 * theta.sin) == r1 * r1;
    assert theta.cos <= 1.0;
    assert r1 * r2 * theta.cos <= r1 * r2 by {
      assert 0.0 <= r1 * r2;
      assert r1 * r2 * (1.0 - theta.cos) >= 0.0;
    }
  }

  /**
   * Every point of the torus, however it is rotated, lies within R1 + R2 of
   * the torus centre (0, 0, K2).
   */
  lemma TorusPointWithinReach(t: Torus, k2: real, a: Angle, b: Angle, theta: Angle, phi: Angle)
    requires OnUnitCircle(a) && OnUnitCircle(b) && OnUnitCircle(theta) && OnUnitCircle(phi)
    requires 0.0 <= t.r1 && 0.0 <= t.r2
    ensures var p := TorusPoint(t, k2, a, b, theta, phi);
            p.x * p.x + p.y * p.y + (p.z - k2) * (p.z - k2) <= (t.r1 + t.r2) * (t.r1 + t.r2)
  {
    var circleX := t.r2 + t.r1 * theta.cos;
    var circleY := t.r1 * theta.sin;
    var p := TorusPoint(t, k2, a, b, theta, phi);
    // the circle revolved about the axis, before rotation
    var u := circleX * phi.cos;
    var v := circleX * phi.sin;
    var w := circleY;
    var q := a.sin * v - a.cos * w;
    assert p.x == u * b.cos + q * b.sin;
    assert p.y == u * b.sin - q * b.cos;
    assert p.z - k2 == v * a.cos + w * a.sin;
    RotationKeepsLength(b.cos, b.sin, u, q);
    RotationKeepsLength(a.cos, a.sin, v, w);
    RotationKeepsLength(phi.cos, phi.sin, circleX, 0.0);
    CircleWithinReach(t.r1, t.r2, theta);
  }

  /**
   * The camera, K2 from the torus centre, is far enough from a torus that
   * reaches r from its centre: 16 r^2 < 7 K2^2.
   */
  predicate DeepEnough(k2: real, r: real) {
    0.0 < k2 && 0.0 < r && 16.0 * (r * r) < 7.0 * (k2 * k2)
  }

  /** If t * t < c * c and c is positive, then t < c. */
  lemma BelowBySquares(t: real, c: real)
    requires 0.0 < c && t * t < c * c
    ensures t < c
  {
  }

  /** The Lagrange identity for two terms: (a u - b z)^2 + (a z + b u)^2 == (a^2 + b^2)(u^2 + z^2). */
  lemma LagrangeIdentity(a: real, b: real, u: real, z: real)
    ensures (a * u - b * z) * (a * u - b * z) + (a * z + b * u) * (a * z + b * u)
            == (a * a + b * b) * (u * u + z * z)
  {
  }

  lemma ScaleLe(c: real, x: real, y: real)
    requires 0.0 <= c && x <= y
    ensures c * x <= c * y
  {
  }

  lemma ScaleLt(c: real, x: real, y: real)
    requires 0.0 < c && x < y
    ensures c * x < c * y
  {
  }

  /** A camera deep enough is farther from the centre than R. */
  lemma DeepEnoughBeyondReach(k2: real, r: real)
    requires DeepEnough(k2, r)
    ensures r < k2
  {
    if k2 <= r {
      ScaleLe(k2, k2, r);
      ScaleLe(r, k2, r);
    }
  }

  /** A point within R of the centre of a deep enough scene is in front of the camera. */
  lemma InFront(k2: real, r: real, dz: real)
    requires DeepEnough(k2, r) && dz * dz <= r * r
    ensures 0.0 < k2 + dz
  {
    DeepEnoughBeyondReach(k2, r);
    if dz < -r {
      ScaleLt(-dz, r, -dz);
      ScaleLt(r, r, -dz);
    }
  }

  /** By the Lagrange identity, (3 K2 u - 4 R dz)^2 <= (9 K2^2 + 16 R^2) R^2 when u^2 + dz^2 <= R^2. */
  lemma CauchyBound(k2: real, r: real, u: real, dz: real)
    requires u * u + dz * dz <= r * r
    ensures (3.0 * k2 * u - 4.0 * r * dz) * (3.0 * k2 * u - 4.0 * r * dz)
            <= (9.0 * (k2 * k2) + 16.0 * (r * r)) * (r * r)
  {
    var n := 9.0 * (k2 * k2) + 16.0 * (r * r);
    LagrangeIdentity(3.0 * k2, 4.0 * r, u, dz);
    assert (3.0 * k2) * (3.0 * k2) + (4.0 * r) * (4.0 * r) == n;
    var e := 3.0 * k2 * dz + 4.0 * r * u;
    assert 0.0 <= e * e;
    ScaleLe(n, u * u + dz * dz, r * r);
  }

  /** In a deep enough scene, (9 K2^2 + 16 R^2) R^2 < (4 K2 R)^2. */
  lemma DeepBound(k2: real, r: real)
    requires DeepEnough(k2, r)
    ensures (9.0 * (k2 * k2) + 16.0 * (r * r)) * (r * r) < (4.0 * k2 * r) * (4.0 * k2 * r)
  {
  }

  /**
   * A coordinate v of a point within R of the centre, whose depth offset from
   * the centre is dz, satisfies 3 K2 |v| < 4 R (K2 + dz), and the point is in
   * front of the camera.
   */
  lemma ReachBound(k2: real, r: real, v: real, dz: real)
    requires DeepEnough(k2, r) && v * v + dz * dz <= r * r
    ensures 0.0 < k2 + dz
    ensures 3.0 * k2 * Magnitude(v) < 4.0 * r * (k2 + dz)
  {
    var av := Magnitude(v);
    assert av * av == v * v;
    assert 0.0 <= v * v;
    InFront(k2, r, dz);
    var d := 3.0 * k2 * av - 4.0 * r * dz;
    CauchyBound(k2, r, av, dz);
    DeepBound(k2, r);
    BelowBySquares(d, 4.0 * k2 * r);
  }

  /** CalculateK1 picks a positive K1 for a positive side, K2 and reach. */
  lemma FittingK1Positive(m: int, k2: real, r1: real, r2: real)
    requires 0 < m && 0.0 < k2 && 0.0 < r1 + r2
    ensures 0.0 < FittingK1(m, k2, r1, r2)
  {
    ScaleLt(m as real, 0.0, k2);
    QuotientPositive(m as real * k2 * 3.0, 8.0 * (r1 + r2));
  }

  lemma QuotientPositive(x: real, y: real)
    requires 0.0 < x && 0.0 < y
    ensures 0.0 < x / y
  {
  }

  /** If o * q == m * p with p < q / 2 and q, m positive, then o < m / 2. */
  lemma RatioBelowHalf(o: real, q: real, m: real, p: real)
    requires 0.0 < q && 0.0 < m && p < q / 2.0 && o * q == m * p
    ensures o < m / 2.0
  {
    ScaleLt(m, p, q / 2.0);
    if o >= m / 2.0 {
      ScaleLe(q, m / 2.0, o);
    }
  }

  /** K1 at inverse depth 1 / w, times 8 R w, is m times 3 K2. */
  lemma ScaleAtDepth(m: int, k2: real, r1: real, r2: real, w: real, av: real)
    requires 0.0 < r1 + r2 && 0.0 < w
    ensures FittingK1(m, k2, r1, r2) * (1.0 / w) * av * (8.0 * (r1 + r2) * w) == m as real * (3.0 * k2 * av)
  {
    var k1 := FittingK1(m, k2, r1, r2);
    var r := r1 + r2;
    assert k1 * (8.0 * r) == m as real * k2 * 3.0;
    assert (1.0 / w) * w == 1.0;
    calc {
      k1 * (1.0 / w) * av * (8.0 * r * w);
      (k1 * (8.0 * r)) * ((1.0 / w) * w) * av;
      m as real * (3.0 * k2 * av);
    }
  }

  /**
   * With K1 from CalculateK1, a point within R1 + R2 of the centre that lies
   * dz deeper than it is shifted less than half the smaller side m.
   */
  lemma NearOffsetWithin(m: int, k2: real, r1: real, r2: real, v: real, dz: real)
    requires 0 < m && DeepEnough(k2, r1 + r2) && v * v + dz * dz <= (r1 + r2) * (r1 + r2)
    ensures 0.0 < k2 + dz
    ensures -(m as real / 2.0) < Offset(FittingK1(m, k2, r1, r2), 1.0 / (k2 + dz), v) < m as real / 2.0
  {
    ReachBound(k2, r1 + r2, v, dz);
    ScaledBelowHalf(m, k2, r1, r2, k2 + dz, Magnitude(v));
    OffsetBySign(FittingK1(m, k2, r1, r2) * (1.0 / (k2 + dz)), v);
  }

  /** K1 / w times a magnitude av with 3 K2 av < 4 R w is below half the side m. */
  lemma ScaledBelowHalf(m: int, k2: real, r1: real, r2: real, w: real, av: real)
    requires 0 < m && DeepEnough(k2, r1 + r2) && 0.0 < w && 0.0 <= av
    requires 3.0 * k2 * av < 4.0 * (r1 + r2) * w
    ensures 0.0 <= FittingK1(m, k2, r1, r2) * (1.0 / w) * av < m as real / 2.0
  {
    var k1 := FittingK1(m, k2, r1, r2);
    assert 0.0 <= k1 * (1.0 / w) by {
      FittingK1Positive(m, k2, r1, r2);
      ScaleLe(k1, 0.0, 1.0 / w);
    }
    ScaleLe(k1 * (1.0 / w), 0.0, av);
    ScaleAtDepth(m, k2, r1, r2, w, av);
    ScaleLt(8.0 * (r1 + r2), 0.0, w);
    RatioBelowHalf(k1 * (1.0 / w) * av, 8.0 * (r1 + r2) * w, m as real, 3.0 * k2 * av);
  }

  /** c * v is c * |v| or its negation. */
  lemma OffsetBySign(c: real, v: real)
    ensures c * v == c * Magnitude(v) || c * v == -(c * Magnitude(v))
  {
  }

  /** |v|, the magnitude of a coordinate. */
  function Magnitude(v: real): (a: real)
    ensures 0.0 <= a && a * a == v * v
  {
    if v < 0.0 then -v else v
  }

  /**
   * The promise of CalculateK1: every point of the torus, at any rotation,
   * projects onto the viewport, and lies in front of the camera. This holds
   * when the camera is far enough from the torus (DeepEnough).
   */
  lemma TorusStaysOnScreen(width: int, height: int, t: Torus, k2: real, a: Angle, b: Angle, theta: Angle, phi: Angle, lum: real)
    requires 0 < width && 0 < height
    requires OnUnitCircle(a) && OnUnitCircle(b) && OnUnitCircle(theta) && OnUnitCircle(phi)
    requires 0.0 <= t.r1 && 0.0 <= t.r2 && DeepEnough(k2, t.r1 + t.r2)
    ensures var p := TorusPoint(t, k2, a, b, theta, phi);
            && 0.0 < p.z
            && var s := Project(width, height, FittingK1(MinSide(width, height), k2, t.r1, t.r2), p.x, p.y, 1.0 / p.z, lum);
               0 <= s.xp < width && 0 <= s.yp < height
  {
    var m := MinSide(width, height);
    var k1 := FittingK1(m, k2, t.r1, t.r2);
    var p := TorusPoint(t, k2, a, b, theta, phi);
    var dz := p.z - k2;
    TorusPointWithinReach(t, k2, a, b, theta, phi);
    NearOffsetWithin(m, k2, t.r1, t.r2, p.x, dz);
    NearOffsetWithin(m, k2, t.r1, t.r2, p.y, dz);
    assert k2 + dz == p.z;
    AxisOnScreen(width, m, Offset(k1, 1.0 / p.z, p.x));
    AxisOnScreen(height, m, Offset(k1, 1.0 / p.z, p.y));
  }

  /** The program's own scene (K2 = 5) with the default torus (R1 + R2 = 3) is deep enough. */
  lemma DefaultSceneStaysOnScreen(side: int, a: Angle, b: Angle, theta: Angle, phi: Angle, lum: real)
    requires 0 < side
    requires OnUnitCircle(a) && OnUnitCircle(b) && OnUnitCircle(theta) && OnUnitCircle(phi)
    ensures var t := DefaultTorus();
            var p := TorusPoint(t, 5.0, a, b, theta, phi);
            && 0.0 < p.z
            && OnScreen(Project(side, side, FittingK1(side, 5.0, t.r1, t.r2), p.x, p.y, 1.0 / p.z, lum), side, side)
  {
    TorusStaysOnScreen(side, side, DefaultTorus(), 5.0, a, b, theta, phi, lum);
  }

  /**
   * When the camera is too close, CalculateK1's K1 does not keep the torus on
   * screen: with K2 = 3.5 and the default torus on an 8 x 8 viewport, the
   * unrotated point at theta = 0, cos phi = 0.8, sin phi = -0.6 is
   * (2.4, 0, 1.7) and projects to column 8, one past the last.
   */
  lemma ShallowSceneLeavesScreen()
    ensures var t := DefaultTorus();
            var level := Angle(1.0, 0.0);
            var p := TorusPoint(t, 3.5, level, level, level, Angle(0.8, -0.6));
            && OnUnitCircle(Angle(0.8, -0.6))
            && p == Point(2.4, 0.0, 1.7)
            && Project(8, 8, FittingK1(MinSide(8, 8), 3.5, t.r1, t.r2), p.x, p.y, 1.0 / p.z, 0.0).xp == 8
  {
    var k1 := FittingK1(8, 3.5, 1.0, 2.0);
    assert k1 == 3.5;
    assert Offset(k1, 1.0 / 1.7, 2.4) == 84.0 / 17.0;
    assert 8.0 <= 4.0 + 84.0 / 17.0 < 9.0;
  }
}
