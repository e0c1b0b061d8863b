/** calcCrashPoint: the point on the route from A to B where a given amount of fuel runs out. */
module CrashPoint {
  import opened Outcomes
  import opened Angles
  import opened GreatCircle

  /**
   * Position, as a fraction of the route, of a traveller who covers x route lengths going back
   * and forth between A (0) and B (1).
   */
  function Bounce(x: real): (r: real)
    requires 0.0 <= x
  {
    var m := x - 2.0 * (x / 2.0).Floor as real;
    if m <= 1.0 then m else 2.0 - m
  }

  /**
   * calcDistanceRatio applied to prop = v * fuel / (eAB * k): modf splits prop, an even integer
   * part counts from A, an odd one from B. The cast of the integer part to uint32 needs it in
   * range; a prop in (-1, 0) has integer part 0 and comes back unchanged.
   */
  function DistanceRatio(prop: real): (r: real)
    requires -1.0 < prop < 4294967296.0
    ensures 0.0 <= prop ==> 0.0 <= r <= 1.0
    ensures prop < 0.0 ==> r == prop
  {
    var integral := Trunc(prop);
    var frac := prop - integral as real;
    if integral % 2 == 1 then 1.0 - frac else frac
  }

  /** The parity rule is the back-and-forth position. */
  lemma {:induction false} DistanceRatioIsBounce(prop: real)
    requires 0.0 <= prop < 4294967296.0
    ensures DistanceRatio(prop) == Bounce(prop)
  {
    var n := prop.Floor;
    var q := n / 2;
    assert n == 2 * q + n % 2;
    assert (prop / 2.0).Floor == q by {
      assert q as real <= prop / 2.0 < q as real + 1.0;
    }
    assert Trunc(prop) == n;
  }

  /** A range of exactly twice the route brings the traveller back to A, once the route to B. */
  lemma DistanceRatioEndpoints()
    ensures DistanceRatio(2.0) == 0.0
    ensures DistanceRatio(1.0) == 1.0
  {
  }

  /** Short of B the ratio is the plain fraction of the route; a whole extra round trip changes nothing. */
  lemma {:induction false} DistanceRatioShape(prop: real)
    requires 0.0 <= prop < 4294967294.0
    ensures prop < 1.0 ==> DistanceRatio(prop) == prop
    ensures 1.0 <= prop < 2.0 ==> DistanceRatio(prop) == 2.0 - prop
    ensures DistanceRatio(prop + 2.0) == DistanceRatio(prop)
  {
    assert Trunc(prop + 2.0) == Trunc(prop) + 2;
  }

  /**
   * transformPhi: maps a latitude on a western meridian into (-pi, pi] as seen across the pole.
   * For lambda >= 0 the source lambda returns no value: None.
   */
  function TransformPhi(phi: real, lambda: real): (r: Option<real>)
    ensures r.Some? <==> lambda < 0.0
    ensures r.Some? && -Pi / 2.0 <= phi <= Pi / 2.0 ==> -Pi < r.value <= Pi && Interval(r.value) == phi
  {
    if phi >= 0.0 && lambda < 0.0 then Some(Pi - phi)
    else if phi < 0.0 && lambda < 0.0 then Some(-Pi - phi)
    else None
  }

  /** calcTransformPhi: moves the transformed latitude of A by the distance d towards B. */
  function TransformStep(deltaPhiDach: real, phiADach: real, d: real): (r: real)
    ensures Abs(r - phiADach) == Abs(d)
    ensures 0.0 <= d ==> (deltaPhiDach >= 0.0 ==> r <= phiADach) && (deltaPhiDach < 0.0 ==> r >= phiADach)
  {
    if deltaPhiDach >= 0.0 then phiADach - d else phiADach + d
  }

  /**
   * calcInterval: reflects a transformed latitude back into [-pi/2, pi/2]. A reflection about a
   * pole keeps the sine, so the result is the latitude of the same point of the meridian circle.
   */
  function Interval(x: real): (r: real)
    ensures r == x || r == Pi - x || r == -Pi - x
    ensures -3.0 * Pi / 2.0 <= x <= 3.0 * Pi / 2.0 ==> -Pi / 2.0 <= r <= Pi / 2.0
    ensures -Pi / 2.0 <= x <= Pi / 2.0 ==> r == x
  {
    if x > Pi / 2.0 then Pi - x
    else if x < -(Pi / 2.0) then -Pi - x
    else x
  }

  /** The latitude of the intermediate point when A and B share a meridian (resPhi_p, first branch). */
  function MeridianLatitude(phiA: real, lambdaA: real, phiB: real, lambdaB: real, d: real): (r: Option<real>)
    ensures r.Some? <==> lambdaA < 0.0 && lambdaB < 0.0
  {
    var a := TransformPhi(phiA, lambdaA);
    var b := TransformPhi(phiB, lambdaB);
    if a.None? || b.None? then None
    else Some(Interval(TransformStep(FoldToPi(a.value - b.value), a.value, d)))
  }

  /**
   * Where defined, the meridian branch is exact: the point lies d radians from A along the
   * meridian towards B, for every d up to the length of the route.
   */
  lemma MeridianLatitudeExact(phiA: real, phiB: real, lambda: real, d: real)
    requires lambda < 0.0
    requires -Pi / 2.0 <= phiA <= Pi / 2.0 && -Pi / 2.0 <= phiB <= Pi / 2.0
    requires 0.0 <= d <= Abs(phiA - phiB)
    ensures MeridianLatitude(phiA, lambda, phiB, lambda, d) == Some(if phiB >= phiA then phiA + d else phiA - d)
  {
  }

  /**
   * calcLambda_p_special as written: the longitude flips to the opposite meridian once the
   * distance reaches the North Pole and until it reaches the South Pole beyond it.
   */
  function LambdaPSpecial(lambdaA: real, phiA: real, d: real): (r: real)
    ensures r == lambdaA || r == lambdaA + Pi
    ensures r == lambdaA + Pi <==> Pi / 2.0 - phiA <= d <= 1.5 * Pi - phiA
  {
    if d < (Pi / 2.0) - phiA || d > (1.5 * Pi) - phiA then lambdaA
    else lambdaA + Pi
  }

  /**
   * On a southbound meridian route the flip happens although no pole is passed: 60 deg N to 60 deg S on
   * 50 deg W, after 100 degrees, the latitude is 40 deg S on the route while the longitude is 130 deg E.
   * From 60 deg N to 30 deg N on 50 deg W, at B itself (30 degrees), the longitude is 130 deg E as well.
   */
  lemma LambdaPSpecialSouthbound()
    ensures MeridianLatitude(Pi / 3.0, -5.0 * Pi / 18.0, -Pi / 3.0, -5.0 * Pi / 18.0, 5.0 * Pi / 9.0)
            == Some(-2.0 * Pi / 9.0)
    ensures LambdaPSpecial(-5.0 * Pi / 18.0, Pi / 3.0, 5.0 * Pi / 9.0) == -5.0 * Pi / 18.0 + Pi
    ensures MeridianLatitude(Pi / 3.0, -5.0 * Pi / 18.0, Pi / 6.0, -5.0 * Pi / 18.0, Pi / 6.0) == Some(Pi / 6.0)
    ensures LambdaPSpecial(-5.0 * Pi / 18.0, Pi / 3.0, Pi / 6.0) == -5.0 * Pi / 18.0 + Pi
  {
  }

  /** The longitude of the meridian branch, with the pole test taken in the direction of flight. */
  function MeridianLongitude(lambdaA: real, phiA: real, phiB: real, d: real): (r: real)
    ensures r == lambdaA || r == lambdaA + Pi
    ensures phiB >= phiA ==> r == LambdaPSpecial(lambdaA, phiA, d)
  {
    if phiB >= phiA then LambdaPSpecial(lambdaA, phiA, d)
    else if d < (Pi / 2.0) + phiA || d > (1.5 * Pi) + phiA then lambdaA
    else lambdaA + Pi
  }

  /** Up to B the point stays on A's meridian, unless B is a pole and the point has reached it. */
  lemma MeridianLongitudeStays(lambdaA: real, phiA: real, phiB: real, d: real)
    requires -Pi / 2.0 <= phiA <= Pi / 2.0 && -Pi / 2.0 <= phiB <= Pi / 2.0
    requires 0.0 <= d <= Abs(phiA - phiB)
    ensures MeridianLongitude(lambdaA, phiA, phiB, d) == lambdaA || (d == Abs(phiA - phiB) && Abs(phiB) == Pi / 2.0)
  {
  }

  /** calcLambda_p's sign as written, from the unfolded difference lambdaA - lambdaB. */
  function CrashHeadingAsWritten(deltaLambda: real, d: real): (r: Heading)
    ensures d <= Pi ==> (r == East <==> deltaLambda < 0.0)
    ensures d > Pi ==> (r == East <==> deltaLambda > 0.0)
  {
    if (deltaLambda < 0.0 && d <= Pi) || (deltaLambda > 0.0 && d > Pi) then East else West
  }

  /**
   * Across the antimeridian the unfolded sign points away from B: from 170 deg E to 170 deg W the
   * route runs east, the sign says west.
   */
  lemma CrashHeadingAntimeridian()
    ensures EastOf(17.0 * Pi / 18.0, -17.0 * Pi / 18.0)
    ensures CrashHeadingAsWritten(17.0 * Pi / 18.0 - -17.0 * Pi / 18.0, Pi / 18.0) == West
  {
  }

  /** calcLambda_p's sign with the difference folded as calcNorthPeakPoint folds it. */
  function CrashHeading(lambdaA: real, lambdaB: real, d: real): (r: Heading)
    ensures -Pi <= lambdaA - lambdaB <= Pi ==> r == CrashHeadingAsWritten(lambdaA - lambdaB, d)
  {
    CrashHeadingAsWritten(DeltaLambda(lambdaA, lambdaB), d)
  }

  /** Before the antipode of A the folded sign heads east exactly when B lies east of A. */
  lemma CrashHeadingTowardsB(lambdaA: real, lambdaB: real, d: real)
    requires -Pi <= lambdaA <= Pi && -Pi <= lambdaB <= Pi
    requires Abs(lambdaA - lambdaB) != Pi && lambdaA != lambdaB && Abs(lambdaA - lambdaB) != 2.0 * Pi
    requires 0.0 <= d <= Pi
    ensures CrashHeading(lambdaA, lambdaB, d) == East <==> EastOf(lambdaA, lambdaB)
  {
    DeltaLambdaDirection(lambdaA, lambdaB);
  }

  /**
   * calcCrashPoint in radians. The prop of calcDistanceRatio divides by eAB * k; a zero divisor
   * makes it infinite or NaN, whose cast to uint32 is undefined.
   */
  function CrashPointRad(t: Trig, a: Coordinate, b: Coordinate, v: real, fuel: real, k: real): (r: Result<(real, real)>)
    ensures r == Err(OverflowError) <==> CentralAngle(t, a, b) == 0.0
    ensures r.Err? ==> r.error == OverflowError || r.error == UndefinedBehaviour
  {
    var alpha := AlphaRad(t, a, b);
    if alpha.Err? then Err(alpha.error)
    else
      var prop := Prop(t, a, b, v, fuel, k);
      if prop.None? then Err(UndefinedBehaviour)
      else PointAtRatio(t, a, b, alpha.value, prop.value)
  }

  /**
   * prop: the range v * fuel over the route eAB * k, in route lengths. A zero divisor (a zero
   * route or a zero consumption) has no value: None.
   */
  function Prop(t: Trig, a: Coordinate, b: Coordinate, v: real, fuel: real, k: real): (r: Option<real>)
    ensures r.None? <==> CentralAngle(t, a, b) == 0.0 || k == 0.0
    ensures r.Some? && v * fuel == 0.0 ==> r.value == 0.0
  {
    var divisor := GcdKm(t, a, b) * k;
    if divisor == 0.0 then None else Some((v * fuel) / divisor)
  }

  /** The point for a given prop: undefined when the integer part of prop does not fit a uint32. */
  function PointAtRatio(t: Trig, a: Coordinate, b: Coordinate, alpha: real, prop: real): (r: Result<(real, real)>)
    ensures r.Err? ==> r.error == UndefinedBehaviour
    ensures !(-1.0 < prop < 4294967296.0) ==> r == Err(UndefinedBehaviour)
    ensures r.Err? <==> !(-1.0 < prop < 4294967296.0) || GetAngleAz(a.lambda) == GetAngleAz(b.lambda) >= 0.0
  {
    if !(-1.0 < prop < 4294967296.0) then Err(UndefinedBehaviour)
    else PointAtDistance(t, a, b, alpha, Distance(DistanceRatio(prop), CentralAngle(t, a, b)))
  }

  /**
   * distance: the fraction of the route times the route zeta in radians. A fraction in [0, 1]
   * puts it between A (0) and B (the whole route).
   */
  function Distance(ratio: real, zeta: real): (d: real)
    ensures 0.0 <= ratio <= 1.0 && 0.0 <= zeta ==> 0.0 <= d <= zeta
    ensures ratio == 0.0 ==> d == 0.0
    ensures ratio == 1.0 ==> d == zeta
  {
    var d := ratio * zeta;
    assert 0.0 <= ratio <= 1.0 && 0.0 <= zeta ==> 0.0 <= d <= zeta by {
      if 0.0 <= ratio <= 1.0 && 0.0 <= zeta {
        ScaleWithin(ratio, zeta);
      }
    }
    d
  }

  /** A fraction of a non-negative length is at most that length. */
  lemma ScaleWithin(ratio: real, zeta: real)
    requires 0.0 <= ratio <= 1.0 && 0.0 <= zeta
    ensures 0.0 <= ratio * zeta <= zeta
  {
    assert zeta - ratio * zeta == (1.0 - ratio) * zeta;
  }

  /**
   * The two branches of resPhi_p and resLambda_p, given the longitude of the meridian branch and
   * the sign of the other: the meridian branch when the longitudes are equal, the
   * spherical-triangle branch otherwise.
   */
  function Branches(t: Trig, a: Coordinate, b: Coordinate, alpha: real, d: real, meridianLambda: real, heading: Heading)
    : (r: Result<(real, real)>)
    ensures r.Err? <==> GetAngleAz(a.lambda) == GetAngleAz(b.lambda) >= 0.0
    ensures r.Err? ==> r.error == UndefinedBehaviour
    ensures r.Ok? && GetAngleAz(a.lambda) == GetAngleAz(b.lambda) ==> r.value.1 == meridianLambda
  {
    var phiA := GetAngleEl(a.phi);
    var lambdaA := GetAngleAz(a.lambda);
    var phiB := GetAngleEl(b.phi);
    var lambdaB := GetAngleAz(b.lambda);
    if lambdaA == lambdaB then
      match MeridianLatitude(phiA, lambdaA, phiB, lambdaB, d)
      case None => Err(UndefinedBehaviour)
      case Some(phiP) => Ok((phiP, meridianLambda))
    else
      var phiP := t.pointLatitude(d, phiA, alpha);
      var offset := t.pointLongitudeOffset(d, phiA, phiP);
      Ok((phiP, if heading == East then lambdaA + offset else lambdaA - offset))
  }

  /**
   * The point d radians from A as calcCrashPoint computes it: calcLambda_p_special on a meridian,
   * calcLambda_p's sign from the unfolded lambdaA - lambdaB otherwise.
   */
  function PointAtDistance(t: Trig, a: Coordinate, b: Coordinate, alpha: real, d: real): (r: Result<(real, real)>)
    ensures r.Err? <==> GetAngleAz(a.lambda) == GetAngleAz(b.lambda) >= 0.0
    ensures r.Err? ==> r.error == UndefinedBehaviour
    ensures r.Ok? && GetAngleAz(a.lambda) == GetAngleAz(b.lambda) ==>
              r.value.1 == LambdaPSpecial(GetAngleAz(a.lambda), GetAngleEl(a.phi), d)
  {
    var lambdaA := GetAngleAz(a.lambda);
    Branches(t, a, b, alpha, d, LambdaPSpecial(lambdaA, GetAngleEl(a.phi), d),
             CrashHeadingAsWritten(lambdaA - GetAngleAz(b.lambda), d))
  }

  /**
   * On a western meridian the point lies d radians from A towards B, with the longitude of
   * calcLambda_p_special; on a northbound route it stays on A's meridian up to B, unless B is the
   * North Pole and the point has reached it.
   */
  lemma PointAtDistanceOnMeridian(t: Trig, a: Coordinate, b: Coordinate, alpha: real, d: real)
    requires ValidLatitude(a.phi) && ValidLatitude(b.phi)
    requires GetAngleAz(a.lambda) == GetAngleAz(b.lambda) < 0.0
    requires 0.0 <= d <= Abs(GetAngleEl(a.phi) - GetAngleEl(b.phi))
    ensures var phiA, phiB := GetAngleEl(a.phi), GetAngleEl(b.phi);
            var r := PointAtDistance(t, a, b, alpha, d);
            r.Ok? && r.value.0 == (if phiB >= phiA then phiA + d else phiA - d) &&
            r.value.1 == LambdaPSpecial(GetAngleAz(a.lambda), phiA, d) &&
            (phiB >= phiA ==> r.value.1 == GetAngleAz(a.lambda) || Abs(r.value.0) == Pi / 2.0)
  {
    var phiA, phiB := GetAngleEl(a.phi), GetAngleEl(b.phi);
    ValidLatitudeRange(a.phi);
    ValidLatitudeRange(b.phi);
    MeridianLatitudeExact(phiA, phiB, GetAngleAz(a.lambda), d);
    MeridianLongitudeStays(GetAngleAz(a.lambda), phiA, phiB, d);
  }

  /**
   * The point d radians from A with both corrections: the pole test in the direction of flight
   * and calcLambda_p's sign from the folded difference.
   */
  function PointAtDistanceCorrected(t: Trig, a: Coordinate, b: Coordinate, alpha: real, d: real): (r: Result<(real, real)>)
    ensures r.Err? <==> GetAngleAz(a.lambda) == GetAngleAz(b.lambda) >= 0.0
    ensures r.Err? ==> r.error == UndefinedBehaviour
  {
    var lambdaA := GetAngleAz(a.lambda);
    var lambdaB := GetAngleAz(b.lambda);
    Branches(t, a, b, alpha, d, MeridianLongitude(lambdaA, GetAngleEl(a.phi), GetAngleEl(b.phi), d),
             CrashHeading(lambdaA, lambdaB, d))
  }

  /**
   * The corrections change nothing on a northbound meridian route, nor off the meridian when
   * lambdaA - lambdaB needs no fold.
   */
  lemma PointAtDistanceCorrectedAgrees(t: Trig, a: Coordinate, b: Coordinate, alpha: real, d: real)
    requires GetAngleAz(a.lambda) == GetAngleAz(b.lambda) ==> GetAngleEl(b.phi) >= GetAngleEl(a.phi)
    requires GetAngleAz(a.lambda) != GetAngleAz(b.lambda) ==> -Pi <= GetAngleAz(a.lambda) - GetAngleAz(b.lambda) <= Pi
    ensures PointAtDistanceCorrected(t, a, b, alpha, d) == PointAtDistance(t, a, b, alpha, d)
  {
  }

  /**
   * Corrected: on a western meridian the point lies d radians from A towards B and on A's
   * meridian, in both directions, up to B, unless B is a pole the point has reached.
   */
  lemma PointAtDistanceCorrectedOnMeridian(t: Trig, a: Coordinate, b: Coordinate, alpha: real, d: real)
    requires ValidLatitude(a.phi) && ValidLatitude(b.phi)
    requires GetAngleAz(a.lambda) == GetAngleAz(b.lambda) < 0.0
    requires 0.0 <= d <= Abs(GetAngleEl(a.phi) - GetAngleEl(b.phi))
    ensures var phiA, phiB := GetAngleEl(a.phi), GetAngleEl(b.phi);
            var r := PointAtDistanceCorrected(t, a, b, alpha, d);
            r.Ok? && r.value.0 == (if phiB >= phiA then phiA + d else phiA - d) &&
            (r.value.1 == GetAngleAz(a.lambda) || Abs(r.value.0) == Pi / 2.0)
  {
    var phiA, phiB := GetAngleEl(a.phi), GetAngleEl(b.phi);
    ValidLatitudeRange(a.phi);
    ValidLatitudeRange(b.phi);
    MeridianLatitudeExact(phiA, phiB, GetAngleAz(a.lambda), d);
    MeridianLongitudeStays(GetAngleAz(a.lambda), phiA, phiB, d);
  }

  /** calcCrashPoint: the intermediate point as a coordinate named "Zwischenpunkt". */
  function CrashPoint(t: Trig, a: Coordinate, b: Coordinate, v: real, fuel: real, k: real): (r: Result<Coordinate>)
    ensures r == Err(OverflowError) <==> CentralAngle(t, a, b) == 0.0
    ensures r.Ok? ==> r.value.name == "Zwischenpunkt" && r.value.no == 0
  {
    var p := CrashPointRad(t, a, b, v, fuel, k);
    if p.Err? then Err(p.error) else PointFromRadians(p.value.0, p.value.1, "Zwischenpunkt")
  }

  lemma PointAtRatioInRange(t: Trig, a: Coordinate, b: Coordinate, alpha: real, prop: real)
    requires -1.0 < prop < 4294967296.0
    ensures PointAtRatio(t, a, b, alpha, prop) == PointAtDistance(t, a, b, alpha, Distance(DistanceRatio(prop), CentralAngle(t, a, b)))
  {
  }

  /** With the course angle defined and a non-zero divisor, calcCrashPoint reduces to the point at prop. */
  lemma CrashPointRadUnfold(t: Trig, a: Coordinate, b: Coordinate, v: real, fuel: real, k: real)
    requires CentralAngle(t, a, b) != 0.0 && k != 0.0
    ensures CrashPointRad(t, a, b, v, fuel, k) == PointAtRatio(t, a, b, AlphaRad(t, a, b).value, Prop(t, a, b, v, fuel, k).value)
  {
  }

  /** A range of exactly twice the route on a western meridian brings calcCrashPoint back to A, in radians. */
  lemma CrashPointRadBackAtA(t: Trig, a: Coordinate, b: Coordinate, v: real, fuel: real, k: real)
    requires ValidLatitude(a.phi) && ValidLatitude(b.phi) && a.phi.base.Degrees() < 90.0
    requires GetAngleAz(a.lambda) == GetAngleAz(b.lambda) < 0.0
    requires CentralAngle(t, a, b) == Abs(GetAngleEl(a.phi) - GetAngleEl(b.phi)) > 0.0
    requires Prop(t, a, b, v, fuel, k) == Some(2.0)
    ensures CrashPointRad(t, a, b, v, fuel, k) == Ok((GetAngleEl(a.phi), GetAngleAz(a.lambda)))
  {
    DistanceRatioEndpoints();
    CrashPointRadUnfold(t, a, b, v, fuel, k);
    PointAtRatioInRange(t, a, b, AlphaRad(t, a, b).value, 2.0);
    PointAtDistanceOnMeridian(t, a, b, AlphaRad(t, a, b).value, 0.0);
    ValidLatitudeRange(a.phi);
    assert -Pi / 2.0 < GetAngleEl(a.phi) < Pi / 2.0;
  }

  /** Converting a coordinate's own radians back gives that coordinate, under the new name. */
  lemma PointFromRadiansRoundTrip(c: Coordinate, name: string)
    requires ValidLatitude(c.phi) && c.lambda.base.Normal()
    requires c.phi.dir == S ==> c.phi.base != Angle(0, 0, 0)
    requires c.lambda.dir == W ==> c.lambda.base != Angle(0, 0, 0)
    ensures PointFromRadians(GetAngleEl(c.phi), GetAngleAz(c.lambda), name) == Ok(Coordinate(c.phi, c.lambda, 0, name))
  {
    LatitudeRoundTrip(c.phi);
    LongitudeRoundTrip(c.lambda);
  }

  /**
   * A range of exactly twice the route on a western meridian ends where it started: the result
   * is A itself, under the intermediate point's name.
   */
  lemma CrashPointBackAtA(t: Trig, a: Coordinate, b: Coordinate, v: real, fuel: real, k: real)
    requires ValidLatitude(a.phi) && ValidLatitude(b.phi) && a.lambda.base.Normal()
    requires a.phi.base.Degrees() < 90.0 && (a.phi.dir == S ==> a.phi.base != Angle(0, 0, 0))
    requires GetAngleAz(a.lambda) == GetAngleAz(b.lambda) < 0.0
    requires CentralAngle(t, a, b) == Abs(GetAngleEl(a.phi) - GetAngleEl(b.phi)) > 0.0
    requires Prop(t, a, b, v, fuel, k) == Some(2.0)
    ensures CrashPoint(t, a, b, v, fuel, k) == Ok(Coordinate(a.phi, a.lambda, 0, "Zwischenpunkt"))
  {
    CrashPointRadBackAtA(t, a, b, v, fuel, k);
    GetAngleZero(a.phi, a.lambda);
    PointFromRadiansRoundTrip(a, "Zwischenpunkt");
  }
}
