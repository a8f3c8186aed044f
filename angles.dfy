/** Angle arithmetic of the character controller: `normalizeAngle` and
    `lerpAngle` (src/components/models/character-controller.tsx, lines 11-30).
    Angles are exact reals; PI is the shortest decimal of the double
    `Math.PI`. */
module Angles {

  /** `Math.PI`, written out as the shortest decimal of the double. */
  const PI: real := 3.141592653589793

  /** k whole turns, that is 2 * PI * k (the literal is 2 * PI, written out so
      that the solver sees a product by a constant). */
  function Turns(k: int): real
  {
    6.283185307179586 * (k as real)
  }

  /** x and y denote the same direction: they differ by whole turns. */
  ghost predicate Congruent(x: real, y: real)
  {
    exists k: int :: x - y == Turns(k)
  }

  function Abs(x: real): (r: real)
    ensures r >= 0.0 && (r == x || r == -x)
  {
    if x < 0.0 then -x else x
  }

  /** The least integer not below x. */
  function Ceil(x: real): (c: int)
    ensures x <= c as real < x + 1.0
  {
    -((-x).Floor)
  }

  lemma CongruentByTurns(x: real, y: real, k: int)
    requires x - y == Turns(k)
    ensures Congruent(x, y)
  {
  }

  lemma CongruentSymmetric(x: real, y: real)
    requires Congruent(x, y)
    ensures Congruent(y, x)
  {
    var k :| x - y == Turns(k);
    CongruentByTurns(y, x, -k);
  }

  lemma CongruentTransitive(x: real, y: real, z: real)
    requires Congruent(x, y) && Congruent(y, z)
    ensures Congruent(x, z)
  {
    var k :| x - y == Turns(k);
    var j :| y - z == Turns(j);
    CongruentByTurns(x, z, k + j);
  }

  /** Adding the same amount to both sides keeps two directions congruent. */
  lemma CongruentShift(x: real, y: real, d: real)
    requires Congruent(x, y)
    ensures Congruent(x + d, y + d)
  {
    var k :| x - y == Turns(k);
    CongruentByTurns(x + d, y + d, k);
  }

  /** Two congruent angles in [-PI, PI] are equal or are the two ends -PI and PI. */
  lemma CongruentInRange(x: real, y: real)
    requires -PI <= x <= PI && -PI <= y <= PI
    requires Congruent(x, y)
    ensures x == y || (x == PI && y == -PI) || (x == -PI && y == PI)
  {
  }

  /** Reference definition of `normalizeAngle`: the number of whole turns the
      first loop subtracts (or the second adds) is given in closed form. */
  function NormalizedAngle(a: real): (r: real)
    ensures -PI <= r <= PI
    ensures Congruent(r, a)
    ensures -PI <= a <= PI ==> r == a
    ensures a > PI ==> r > -PI
    ensures a < -PI ==> r < PI
  {
    if a > PI then
      var n := Ceil((a - PI) / 6.283185307179586);
      CongruentByTurns(a - Turns(n), a, -n);
      a - Turns(n)
    else if a < -PI then
      var n := Ceil((-PI - a) / 6.283185307179586);
      CongruentByTurns(a + Turns(n), a, n);
      a + Turns(n)
    else
      CongruentByTurns(a, a, 0);
      a
  }

  /** The properties of NormalizedAngle determine it: any r with them is it. */
  lemma NormalizedAngleUnique(a: real, r: real)
    requires -PI <= r <= PI
    requires Congruent(r, a)
    requires -PI <= a <= PI ==> r == a
    requires a > PI ==> r > -PI
    requires a < -PI ==> r < PI
    ensures r == NormalizedAngle(a)
  {
    var n := NormalizedAngle(a);
    CongruentSymmetric(n, a);
    CongruentTransitive(r, a, n);
    CongruentInRange(r, n);
  }

  /** `normalizeAngle`: subtract whole turns while above PI, then add whole
      turns while below -PI. */
  method NormalizeAngle(a: real) returns (r: real)
    ensures r == NormalizedAngle(a)
  {
    var angle := a;
    ghost var n: int := 0;
    while angle > PI
      invariant n >= 0 && angle == a - Turns(n)
      invariant n > 0 ==> angle > -PI
      decreases angle.Floor
    {
      angle := angle - 2.0 * PI;
      n := n + 1;
    }
    ghost var m: int := 0;
    while angle < -PI
      invariant m >= 0 && angle == a - Turns(n) + Turns(m)
      invariant n > 0 ==> m == 0 && angle > -PI
      invariant m > 0 ==> angle < PI
      decreases (-angle).Floor
    {
      angle := angle + 2.0 * PI;
      m := m + 1;
    }
    r := angle;
    CongruentByTurns(r, a, m - n);
    NormalizedAngleUnique(a, r);
  }

  /** The adjustment of `lerpAngle`: when the two ends are more than PI apart,
      the smaller one moves up by a whole turn, so the difference between them
      is the short way round. */
  function ShortArc(s: real, e: real): (p: (real, real))
    ensures Congruent(p.0, s) && Congruent(p.1, e)
    ensures -PI <= s <= PI && -PI <= e <= PI ==> Abs(p.1 - p.0) <= PI
  {
    if Abs(e - s) > PI then
      if e > s then
        CongruentByTurns(s + 2.0 * PI, s, 1);
        CongruentByTurns(e, e, 0);
        (s + 2.0 * PI, e)
      else
        CongruentByTurns(s, s, 0);
        CongruentByTurns(e + 2.0 * PI, e, 1);
        (s, e + 2.0 * PI)
    else
      CongruentByTurns(s, s, 0);
      CongruentByTurns(e, e, 0);
      (s, e)
  }

  /** Linear interpolation from s towards e by the factor t. */
  function Lerp(s: real, e: real, t: real): real
  {
    s + (e - s) * t
  }

  /** Naming the interpolation of two ends given as a pair. */
  lemma LerpOf(s: real, e: real, arc: (real, real), t: real)
    requires arc == (s, e)
    ensures s + (e - s) * t == Lerp(arc.0, arc.1, t)
  {
  }

  /** Reference definition of `lerpAngle`: normalise both ends, take the short
      arc, interpolate by t and normalise the result. */
  function LerpedAngle(start: real, end: real, t: real): (r: real)
    ensures -PI <= r <= PI
  {
    var arc := ShortArc(NormalizedAngle(start), NormalizedAngle(end));
    NormalizedAngle(Lerp(arc.0, arc.1, t))
  }

  /** `lerpAngle`, with the reassigned parameters as local variables. */
  method LerpAngle(start: real, end: real, t: real) returns (r: real)
    ensures r == LerpedAngle(start, end, t)
  {
    var s := NormalizeAngle(start);
    var e := NormalizeAngle(end);
    ghost var arc := ShortArc(s, e);
    if Abs(e - s) > PI {
      if e > s {
        s := s + 2.0 * PI;
      } else {
        e := e + 2.0 * PI;
      }
    }
    LerpOf(s, e, arc, t);
    r := NormalizeAngle(s + (e - s) * t);
  }

  /** Interpolating between an angle and itself gives the normalised angle,
      whatever the factor. */
  lemma LerpSameEnds(a: real, t: real)
    ensures LerpedAngle(a, a, t) == NormalizedAngle(a)
  {
    var n := NormalizedAngle(a);
    assert ShortArc(n, n) == (n, n);
    assert Lerp(n, n, t) == n;
  }

  /** Moving a direction in [-PI, PI] up by a whole turn and normalising gives
      it back; only -PI comes back as PI. */
  lemma NormalizeOneTurnUp(x: real)
    requires -PI <= x <= PI
    ensures NormalizedAngle(x + 2.0 * PI) == if x == -PI then PI else x
  {
  }

  /** At t = 0 the result is the normalised start, except that a start of -PI
      comes back as PI when the end lies above 0 (then the start is the end
      moved up by a turn). Either way it is the start's direction. */
  lemma LerpAtStart(start: real, end: real)
    ensures LerpedAngle(start, end, 0.0) ==
      if NormalizedAngle(start) == -PI && NormalizedAngle(end) > 0.0 then PI
      else NormalizedAngle(start)
    ensures Congruent(LerpedAngle(start, end, 0.0), start)
  {
    var s0, e0 := NormalizedAngle(start), NormalizedAngle(end);
    var (s, e) := ShortArc(s0, e0);
    assert s + (e - s) * 0.0 == s;
    if s != s0 {
      NormalizeOneTurnUp(s0);
    }
    var r := LerpedAngle(start, end, 0.0);
    CongruentTransitive(r, s, s0);
    CongruentTransitive(r, s0, start);
  }

  /** At t = 1 the result is the normalised end, except that an end of -PI
      comes back as PI when the start lies above 0. Either way it is the end's
      direction. */
  lemma LerpAtEnd(start: real, end: real)
    ensures LerpedAngle(start, end, 1.0) ==
      if NormalizedAngle(end) == -PI && NormalizedAngle(start) > 0.0 then PI
      else NormalizedAngle(end)
    ensures Congruent(LerpedAngle(start, end, 1.0), end)
  {
    var s0, e0 := NormalizedAngle(start), NormalizedAngle(end);
    var (s, e) := ShortArc(s0, e0);
    assert s + (e - s) * 1.0 == e;
    if e != e0 {
      NormalizeOneTurnUp(e0);
    }
    var r := LerpedAngle(start, end, 1.0);
    CongruentTransitive(r, e, e0);
    CongruentTransitive(r, e0, end);
  }

  /** The exception of LerpAtStart happens: from -PI towards 1 with t = 0 the
      result is PI, not the normalised start -PI. */
  lemma LerpAtStartBoundary()
    ensures NormalizedAngle(-PI) == -PI
    ensures LerpedAngle(-PI, 1.0, 0.0) == PI
  {
    LerpAtStart(-PI, 1.0);
  }

  /** Half way from 3 to -3 the short way round passes through PI, not 0. */
  lemma LerpAcrossBoundary()
    ensures LerpedAngle(3.0, -3.0, 0.5) == PI
  {
  }

  /** The signed arc that `lerpAngle` interpolates along: at most PI long and
      leading from the start's direction to the end's. */
  function Arc(start: real, end: real): (d: real)
    ensures Abs(d) <= PI
    ensures Congruent(NormalizedAngle(start) + d, NormalizedAngle(end))
  {
    var s0, e0 := NormalizedAngle(start), NormalizedAngle(end);
    var arc := ShortArc(s0, e0);
    var d := arc.1 - arc.0;
    CongruentShift(arc.0, s0, d);
    CongruentSymmetric(arc.0 + d, s0 + d);
    CongruentTransitive(s0 + d, arc.1, e0);
    d
  }

  /** The value `lerpAngle` normalises is the moved start plus t times the arc. */
  lemma LerpIsStep(start: real, end: real, t: real)
    ensures var arc := ShortArc(NormalizedAngle(start), NormalizedAngle(end));
      Lerp(arc.0, arc.1, t) == arc.0 + Arc(start, end) * t
  {
    var arc := ShortArc(NormalizedAngle(start), NormalizedAngle(end));
    LerpByArc(arc.0, arc.1, Arc(start, end), t);
  }

  /** Interpolating by t is stepping from s by t times the difference d. */
  lemma LerpByArc(s: real, e: real, d: real, t: real)
    requires d == e - s
    ensures Lerp(s, e, t) == s + d * t
  {
  }

  /** The result is the start's direction moved by t times the short arc. */
  lemma LerpFollowsShortArc(start: real, end: real, t: real)
    ensures Congruent(LerpedAngle(start, end, t), NormalizedAngle(start) + Arc(start, end) * t)
  {
    var arc := ShortArc(NormalizedAngle(start), NormalizedAngle(end));
    LerpIsStep(start, end, t);
    CongruentStep(LerpedAngle(start, end, t), arc.0, NormalizedAngle(start), Arc(start, end) * t);
  }

  /** Moving congruent starts by the same amount keeps the target congruent. */
  lemma CongruentStep(r: real, a: real, b: real, x: real)
    requires Congruent(r, a + x) && Congruent(a, b)
    ensures Congruent(r, b + x)
  {
    CongruentShift(a, b, x);
    CongruentTransitive(r, a + x, b + x);
  }
}
