/** Interval coherence of point manifolds under transport (stage-chronos), over exact reals.

    A boost's Lorentz factor and the sines and cosines of the rotations are inputs, related
    as the square root and the trigonometric functions relate them. */
module Coherence {

  datatype Point = Point(t: real, x: real, y: real, z: real)

  function Sq(a: real): real {
    a * a
  }

  function Minus(p: Point, q: Point): Point {
    Point(p.t - q.t, p.x - q.x, p.y - q.y, p.z - q.z)
  }

  /** -dt^2 + dx^2 + dy^2 + dz^2 of a difference. */
  function Norm(d: Point): real {
    -Sq(d.t) + Sq(d.x) + Sq(d.y) + Sq(d.z)
  }

  function Interval(p: Point, q: Point): real {
    Norm(Minus(p, q))
  }

  // ---- boosts ----

  ghost predicate IsGamma(gamma: real, v: real) {
    gamma > 0.0 && gamma * gamma * (1.0 - v * v) == 1.0
  }

  function BoostPoint(v: real, gamma: real, p: Point): Point {
    Point(gamma * (p.t - v * p.x), gamma * (p.x - v * p.t), p.y, p.z)
  }

  lemma BoostIsLinear(v: real, gamma: real, p: Point, q: Point)
    ensures Minus(BoostPoint(v, gamma, p), BoostPoint(v, gamma, q)) == BoostPoint(v, gamma, Minus(p, q))
  {
  }

  lemma BoostSquares(v: real, gamma: real, t: real, x: real)
    ensures Sq(gamma * (x - v * t)) - Sq(gamma * (t - v * x)) == gamma * gamma * (1.0 - v * v) * (Sq(x) - Sq(t))
  {
    assert Sq(x - v * t) - Sq(t - v * x) == (1.0 - v * v) * (Sq(x) - Sq(t));
    assert Sq(gamma * (x - v * t)) == gamma * gamma * Sq(x - v * t);
    assert Sq(gamma * (t - v * x)) == gamma * gamma * Sq(t - v * x);
  }

  lemma BoostKeepsNorm(v: real, gamma: real, d: Point)
    requires IsGamma(gamma, v)
    ensures Norm(BoostPoint(v, gamma, d)) == Norm(d)
  {
    BoostSquares(v, gamma, d.t, d.x);
  }

  lemma GammaTimes(gamma: real, v: real, a: real)
    requires IsGamma(gamma, v)
    ensures gamma * (gamma * (a - v * v * a)) == a
  {
    assert gamma * (gamma * (a - v * v * a)) == gamma * gamma * (1.0 - v * v) * a;
  }

  /** The boost by v is to the frame that moves with velocity v along x: what moves so is at rest
      there, and its time runs slower by gamma. */
  lemma BoostBringsToRest(v: real, gamma: real, t: real, y: real, z: real)
    requires IsGamma(gamma, v)
    ensures var p := BoostPoint(v, gamma, Point(t, v * t, y, z));
      p.x == 0.0 && gamma * p.t == t && p.y == y && p.z == z
  {
    GammaTimes(gamma, v, t);
    assert v * (v * t) == v * v * t;
  }

  /** The boost by -v undoes the boost by v. */
  lemma BoostUndone(v: real, gamma: real, p: Point)
    requires IsGamma(gamma, v)
    ensures BoostPoint(0.0 - v, gamma, BoostPoint(v, gamma, p)) == p
  {
    var t', x' := gamma * (p.t - v * p.x), gamma * (p.x - v * p.t);
    GammaTimes(gamma, v, p.t);
    GammaTimes(gamma, v, p.x);
    assert t' + v * x' == gamma * (p.t - v * v * p.t);
    assert x' + v * t' == gamma * (p.x - v * v * p.x);
  }

  // ---- rotations ----

  datatype Matrix = Matrix(
    a: real, b: real, c: real, d: real, e: real, f: real, g: real, h: real, i: real)

  function Rot1(c: real, s: real): Matrix { Matrix(1.0, 0.0, 0.0, 0.0, c, -s, 0.0, s, c) }

  function Rot2(c: real, s: real): Matrix { Matrix(c, 0.0, s, 0.0, 1.0, 0.0, -s, 0.0, c) }

  function Rot3(c: real, s: real): Matrix { Matrix(c, -s, 0.0, s, c, 0.0, 0.0, 0.0, 1.0) }

  function Times(m: Matrix, n: Matrix): Matrix {
    Matrix(
      m.a * n.a + m.b * n.d + m.c * n.g, m.a * n.b + m.b * n.e + m.c * n.h, m.a * n.c + m.b * n.f + m.c * n.i,
      m.d * n.a + m.e * n.d + m.f * n.g, m.d * n.b + m.e * n.e + m.f * n.h, m.d * n.c + m.e * n.f + m.f * n.i,
      m.g * n.a + m.h * n.d + m.i * n.g, m.g * n.b + m.h * n.e + m.i * n.h, m.g * n.c + m.h * n.f + m.i * n.i)
  }

  function Dot(a: real, b: real, c: real, p: Point): real {
    a * p.x + b * p.y + c * p.z
  }

  function Rotate(m: Matrix, p: Point): Point {
    Point(p.t, Dot(m.a, m.b, m.c, p), Dot(m.d, m.e, m.f, p), Dot(m.g, m.h, m.i, p))
  }

  lemma DotIsLinear(a: real, b: real, c: real, p: Point, q: Point)
    ensures Dot(a, b, c, p) - Dot(a, b, c, q) == Dot(a, b, c, Minus(p, q))
  {
  }

  lemma RotateIsLinear(m: Matrix, p: Point, q: Point)
    ensures Minus(Rotate(m, p), Rotate(m, q)) == Rotate(m, Minus(p, q))
  {
    var d := Minus(p, q);
    assert Dot(m.a, m.b, m.c, p) - Dot(m.a, m.b, m.c, q) == Dot(m.a, m.b, m.c, d) by {
      DotIsLinear(m.a, m.b, m.c, p, q);
    }
    assert Dot(m.d, m.e, m.f, p) - Dot(m.d, m.e, m.f, q) == Dot(m.d, m.e, m.f, d) by {
      DotIsLinear(m.d, m.e, m.f, p, q);
    }
    assert Dot(m.g, m.h, m.i, p) - Dot(m.g, m.h, m.i, q) == Dot(m.g, m.h, m.i, d) by {
      DotIsLinear(m.g, m.h, m.i, p, q);
    }
  }

  lemma DotOfProduct(r: real, s: real, u: real, n: Matrix, p: Point)
    ensures Dot(r * n.a + s * n.d + u * n.g, r * n.b + s * n.e + u * n.h, r * n.c + s * n.f + u * n.i, p)
      == Dot(r, s, u, Rotate(n, p))
  {
  }

  lemma RotateByProduct(m: Matrix, n: Matrix, p: Point)
    ensures Rotate(Times(m, n), p) == Rotate(m, Rotate(n, p))
  {
    DotOfProduct(m.a, m.b, m.c, n, p);
    DotOfProduct(m.d, m.e, m.f, n, p);
    DotOfProduct(m.g, m.h, m.i, n, p);
  }

  lemma PlaneRotation(c: real, s: real, u: real, w: real)
    requires c * c + s * s == 1.0
    ensures Sq(c * u - s * w) + Sq(s * u + c * w) == Sq(u) + Sq(w)
  {
    assert Sq(c * u - s * w) + Sq(s * u + c * w) == (c * c + s * s) * (Sq(u) + Sq(w));
  }

  datatype Angle = Angle(c: real, s: real)

  ghost predicate IsAngle(a: Angle) {
    a.c * a.c + a.s * a.s == 1.0
  }

  lemma Rot1KeepsNorm(a: Angle, d: Point)
    requires IsAngle(a)
    ensures Norm(Rotate(Rot1(a.c, a.s), d)) == Norm(d)
  {
    PlaneRotation(a.c, a.s, d.y, d.z);
  }

  lemma Rot2KeepsNorm(a: Angle, d: Point)
    requires IsAngle(a)
    ensures Norm(Rotate(Rot2(a.c, a.s), d)) == Norm(d)
  {
    PlaneRotation(a.c, a.s, d.z, d.x);
  }

  lemma Rot3KeepsNorm(a: Angle, d: Point)
    requires IsAngle(a)
    ensures Norm(Rotate(Rot3(a.c, a.s), d)) == Norm(d)
  {
    PlaneRotation(a.c, a.s, d.x, d.y);
  }

  /** The channel's rotation, multiplied out once at construction. */
  function ChannelMatrix(a1: Angle, a2: Angle, a3: Angle): Matrix {
    Times(Times(Rot1(a1.c, a1.s), Rot2(a2.c, a2.s)), Rot3(a3.c, a3.s))
  }

  /** The channel turns about the third axis first, then the second, then the first; each turn is
      by its own angle from the next axis towards the one after. */
  lemma ChannelTurns(a1: Angle, a2: Angle, a3: Angle, p: Point)
    ensures
      var q := Point(p.t, a3.c * p.x - a3.s * p.y, a3.s * p.x + a3.c * p.y, p.z);
      var r := Point(p.t, a2.c * q.x + a2.s * q.z, q.y, a2.c * q.z - a2.s * q.x);
      Rotate(ChannelMatrix(a1, a2, a3), p) == Point(p.t, r.x, a1.c * r.y - a1.s * r.z, a1.s * r.y + a1.c * r.z)
  {
    var r1, r2, r3 := Rot1(a1.c, a1.s), Rot2(a2.c, a2.s), Rot3(a3.c, a3.s);
    RotateByProduct(Times(r1, r2), r3, p);
    RotateByProduct(r1, r2, Rotate(r3, p));
  }

  lemma ChannelMatrixKeepsNorm(a1: Angle, a2: Angle, a3: Angle, d: Point)
    requires IsAngle(a1) && IsAngle(a2) && IsAngle(a3)
    ensures Norm(Rotate(ChannelMatrix(a1, a2, a3), d)) == Norm(d)
  {
    var r1, r2, r3 := Rot1(a1.c, a1.s), Rot2(a2.c, a2.s), Rot3(a3.c, a3.s);
    RotateByProduct(Times(r1, r2), r3, d);
    RotateByProduct(r1, r2, Rotate(r3, d));
    Rot3KeepsNorm(a3, d);
    Rot2KeepsNorm(a2, Rotate(r3, d));
    Rot1KeepsNorm(a1, Rotate(r2, Rotate(r3, d)));
  }
}
