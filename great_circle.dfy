/**
 * The central angle, the course-angle guard and the fold of an angle difference into [-pi, pi].
 * The transcendental formulas themselves are not evaluated: a `Trig` value supplies them.
 */
module GreatCircle {
  import opened Outcomes
  import opened Angles

  /**
   * The single-precision formulas of the program, left uninterpreted. Each field stands for one
   * expression of the source, applied to the signed radian values it is given:
   *   centralAngle(phiA, lambdaA, phiB, lambdaB)  acos(sin phiA sin phiB + cos phiA cos phiB cos(lambdaB - lambdaA))
   *   courseAngle(phiA, phiB, c)                   acos((sin phiB - sin phiA cos c) / (cos phiA sin c))
   *   vertexLatitude(alpha, phiA)                  acos(sin alpha cos phiA)
   *   vertexLongitudeOffset(phiA, phiS)            acos(tan phiA / tan phiS)
   *   pointLatitude(d, phiA, alpha)                asin(cos d sin phiA + sin d cos phiA cos alpha)
   *   pointLongitudeOffset(d, phiA, phiP)          acos((cos d - sin phiA sin phiP) / (cos phiA cos phiP))
   */
  datatype Trig = Trig(
    centralAngle: (real, real, real, real) -> real,
    courseAngle: (real, real, real) -> real,
    vertexLatitude: (real, real) -> real,
    vertexLongitudeOffset: (real, real) -> real,
    pointLatitude: (real, real, real) -> real,
    pointLongitudeOffset: (real, real, real) -> real)

  /** calcGCDrad: the central angle between A and B, in radians. */
  function CentralAngle(t: Trig, a: Coordinate, b: Coordinate): real
  {
    t.centralAngle(GetAngleEl(a.phi), GetAngleAz(a.lambda), GetAngleEl(b.phi), GetAngleAz(b.lambda))
  }

  /**
   * calcGCDrad reads the two points only through getAngle: points with the same signed radians
   * have the same central angle, whatever their names, numbers or the tag of a zero angle.
   */
  lemma CentralAngleDependsOnRadians(t: Trig, a: Coordinate, b: Coordinate, a': Coordinate, b': Coordinate)
    requires GetAngleEl(a.phi) == GetAngleEl(a'.phi) && GetAngleAz(a.lambda) == GetAngleAz(a'.lambda)
    requires GetAngleEl(b.phi) == GetAngleEl(b'.phi) && GetAngleAz(b.lambda) == GetAngleAz(b'.lambda)
    ensures CentralAngle(t, a, b) == CentralAngle(t, a', b')
  {
  }

  /** calcAlphaRad: the course angle at A, refused with an overflow error when the central angle is 0. */
  function AlphaRad(t: Trig, a: Coordinate, b: Coordinate): (r: Result<real>)
    ensures r.Err? <==> CentralAngle(t, a, b) == 0.0
    ensures r.Err? ==> r.error == OverflowError
  {
    var zeta := CentralAngle(t, a, b);
    if zeta == 0.0 then Err(OverflowError)
    else Ok(t.courseAngle(GetAngleEl(a.phi), GetAngleEl(b.phi), CentralAngle(t, a, b)))
  }

  /**
   * calcBetaRad: the course angle at B, that is AlphaRad with the points swapped. calcBetaRad is
   * noexcept, so the overflow_error of the swapped guard cannot reach its caller: the program is
   * terminated instead.
   */
  function BetaRad(t: Trig, a: Coordinate, b: Coordinate): (r: Result<real>)
    ensures r.Err? <==> CentralAngle(t, b, a) == 0.0
    ensures r.Err? ==> r.error == Terminated
    ensures r.Ok? ==> r == AlphaRad(t, b, a)
  {
    var alpha := AlphaRad(t, b, a);
    if alpha.Err? then Err(Terminated) else alpha
  }

  /** calcGCDkm: the route length in kilometres, the central angle times r_E = 6378.137 km. */
  function GcdKm(t: Trig, a: Coordinate, b: Coordinate): (r: real)
    ensures r == 0.0 <==> CentralAngle(t, a, b) == 0.0
    ensures r > 0.0 <==> CentralAngle(t, a, b) > 0.0
  {
    CentralAngle(t, a, b) * 6378.137
  }

  /**
   * The fold shared by calcDeltaLambda and calcDeltaPhiDach: one turn is added or removed when
   * the difference leaves [-pi, pi].
   */
  function FoldToPi(x: real): (r: real)
    ensures r == x || r == x - 2.0 * Pi || r == x + 2.0 * Pi
    ensures -3.0 * Pi <= x <= 3.0 * Pi ==> -Pi <= r <= Pi
    ensures -Pi <= x <= Pi ==> r == x
  {
    if x > Pi then x - 2.0 * Pi
    else if x < -Pi then x + 2.0 * Pi
    else x
  }

  /** Within one turn of [-pi, pi], the fold is the only representative of x in [-pi, pi] up to the ends. */
  lemma FoldToPiUnique(x: real, y: real)
    requires -3.0 * Pi <= x <= 3.0 * Pi
    requires -Pi < y < Pi
    requires y == x || y == x - 2.0 * Pi || y == x + 2.0 * Pi
    ensures FoldToPi(x) == y
  {
  }

  /** calcDeltaLambda: lambdaA - lambdaB folded across the antimeridian. */
  function DeltaLambda(lambdaA: real, lambdaB: real): (r: real)
    ensures -Pi <= lambdaA <= Pi && -Pi <= lambdaB <= Pi ==> -Pi <= r <= Pi
    ensures r == lambdaA - lambdaB || r == lambdaA - lambdaB - 2.0 * Pi || r == lambdaA - lambdaB + 2.0 * Pi
  {
    FoldToPi(lambdaA - lambdaB)
  }

  /** B lies east of A by less than half a turn. */
  predicate EastOf(lambdaA: real, lambdaB: real) {
    var e := lambdaB - lambdaA;
    0.0 < e < Pi || 0.0 < e + 2.0 * Pi < Pi || 0.0 < e - 2.0 * Pi < Pi
  }

  /**
   * The sign of the folded difference tells the direction of B from A: negative when B lies east,
   * positive when B lies west, zero on the same meridian. Antipodal meridians are excluded.
   */
  lemma DeltaLambdaDirection(lambdaA: real, lambdaB: real)
    requires -Pi <= lambdaA <= Pi && -Pi <= lambdaB <= Pi
    requires Abs(lambdaA - lambdaB) != Pi
    ensures DeltaLambda(lambdaA, lambdaB) < 0.0 <==> EastOf(lambdaA, lambdaB)
    ensures DeltaLambda(lambdaA, lambdaB) > 0.0 <==> EastOf(lambdaB, lambdaA)
    ensures DeltaLambda(lambdaA, lambdaB) == 0.0 <==> lambdaA == lambdaB || Abs(lambdaA - lambdaB) == 2.0 * Pi
  {
  }

  /** Direction of flight chosen when a longitude is solved from an arc cosine. */
  datatype Heading = East | West

  /**
   * Coordinate(rad2deg(phi), rad2deg(lambda), name, 0): the result point of a computation.
   * Degrees outside the range of uint16 make the conversion undefined.
   */
  function PointFromRadians(phi: real, lambda: real, name: string): (r: Result<Coordinate>)
    ensures r.Ok? <==> Abs(RadToDeg(phi)) < 65536.0 && Abs(RadToDeg(lambda)) < 65536.0
    ensures r.Err? ==> r.error == UndefinedBehaviour
    ensures r.Ok? ==> r.value.name == name && r.value.no == 0
    ensures r.Ok? ==> (r.value.phi.dir == S <==> phi < 0.0) && (r.value.lambda.dir == W <==> lambda < 0.0)
    ensures r.Ok? ==> r.value == CoordinateFromDegrees(RadToDeg(phi), RadToDeg(lambda), name, 0)
  {
    var el := RadToDeg(phi);
    var az := RadToDeg(lambda);
    if -65536.0 < el < 65536.0 && -65536.0 < az < 65536.0 then Ok(CoordinateFromDegrees(el, az, name, 0))
    else Err(UndefinedBehaviour)
  }
}
