/** calcNorthPeakPoint: the northernmost vertex of the great circle through A and B. */
module NorthPeak {
  import opened Outcomes
  import opened Angles
  import opened GreatCircle

  /** Where the vertex lies relative to the arc from A to B. */
  datatype Lage = Zwischen | VorA | HinterB

  predicate Acute(x: real) { 0.0 < x < Pi / 2.0 }

  predicate Obtuse(x: real) { Pi / 2.0 < x < Pi }

  /**
   * The classification by the interior angles alpha at A and beta at B. The three cases exclude
   * each other, so the order of the tests does not matter; a right angle, or two obtuse angles,
   * leave the position unset.
   */
  function Classify(alpha: real, beta: real): (r: Option<Lage>)
    ensures r == Some(Zwischen) <==> Acute(alpha) && Acute(beta)
    ensures r == Some(VorA) <==> Obtuse(alpha) && Acute(beta)
    ensures r == Some(HinterB) <==> Acute(alpha) && Obtuse(beta)
    ensures alpha == Pi / 2.0 || beta == Pi / 2.0 || (alpha > Pi / 2.0 && beta > Pi / 2.0) ==> r == None
  {
    if Acute(alpha) && Acute(beta) then Some(Zwischen)
    else if Obtuse(alpha) && Acute(beta) then Some(VorA)
    else if Acute(alpha) && Obtuse(beta) then Some(HinterB)
    else None
  }

  /**
   * calcLambda_S's choice between lambdaA + offset (East) and lambdaA - offset (West). Before A the
   * choice is mirrored. An unset position or a zero difference leaves the lambda without a
   * return value: None.
   */
  function VertexHeading(lage: Option<Lage>, deltaLambda: real): (r: Option<Heading>)
    ensures r.None? <==> lage.None? || deltaLambda == 0.0
    ensures r == Some(East) <==> lage.Some? && deltaLambda != 0.0 && (lage.value == VorA <==> deltaLambda > 0.0)
  {
    match lage
    case None => None
    case Some(l) =>
      if l.Zwischen? || l.HinterB? then
        if deltaLambda < 0.0 then Some(East)
        else if deltaLambda > 0.0 then Some(West)
        else None
      else
        if deltaLambda < 0.0 then Some(West)
        else if deltaLambda > 0.0 then Some(East)
        else None
  }

  /** For a vertex between A and B or behind B, the vertex lies in the direction of B. */
  lemma VertexHeadingTowardsB(lage: Lage, lambdaA: real, lambdaB: real)
    requires lage != VorA
    requires -Pi <= lambdaA <= Pi && -Pi <= lambdaB <= Pi
    requires Abs(lambdaA - lambdaB) != Pi && lambdaA != lambdaB && Abs(lambdaA - lambdaB) != 2.0 * Pi
    ensures VertexHeading(Some(lage), DeltaLambda(lambdaA, lambdaB)) == Some(East) <==> EastOf(lambdaA, lambdaB)
  {
    DeltaLambdaDirection(lambdaA, lambdaB);
  }

  /** The North Pole returned for a meridian route. */
  function NorthPole(): (r: Coordinate)
    ensures GetAngleEl(r.phi) == Pi / 2.0 && GetAngleAz(r.lambda) == 0.0
    ensures ValidLatitude(r.phi) && ValidLongitude(r.lambda)
    ensures r.name == "Nordpol" && r.no == 0
    ensures r.phi.dir == N && r.lambda.dir == O
  {
    Coordinate(AngleEl(Angle(90, 0, 0), N), AngleAz(Angle(0, 0, 0), O), 0, "Nordpol")
  }

  /**
   * calcNorthPeakPoint. Equal longitudes short-cut to the North Pole before any angle is computed,
   * so the result then does not depend on `t` at all, even where the course angle would fail.
   */
  function NorthPeakPoint(t: Trig, a: Coordinate, b: Coordinate): (r: Result<Coordinate>)
    ensures GetAngleAz(a.lambda) == GetAngleAz(b.lambda) ==> r == Ok(NorthPole())
    ensures GetAngleAz(a.lambda) != GetAngleAz(b.lambda) ==>
              (CentralAngle(t, a, b) == 0.0 ==> r == Err(OverflowError)) &&
              (CentralAngle(t, a, b) != 0.0 && CentralAngle(t, b, a) == 0.0 ==> r == Err(Terminated))
    ensures GetAngleAz(a.lambda) != GetAngleAz(b.lambda) && AlphaRad(t, a, b).Ok? && BetaRad(t, a, b).Ok? ==>
              (Classify(AlphaRad(t, a, b).value, BetaRad(t, a, b).value).None? ==> r == Err(UndefinedBehaviour))
    ensures r.Ok? && GetAngleAz(a.lambda) != GetAngleAz(b.lambda) ==> r.value.name == "N\U{00F6}rdlichster Punkt"
  {
    var phiA := GetAngleEl(a.phi);
    var lambdaA := GetAngleAz(a.lambda);
    var lambdaB := GetAngleAz(b.lambda);
    if lambdaA == lambdaB then Ok(NorthPole())
    else
      var alpha := AlphaRad(t, a, b);
      if alpha.Err? then Err(alpha.error)
      else
        var beta := BetaRad(t, a, b);
        if beta.Err? then Err(beta.error)
        else
          var heading := VertexHeading(Classify(alpha.value, beta.value), DeltaLambda(lambdaA, lambdaB));
          var phiS := t.vertexLatitude(alpha.value, phiA);
          if heading.None? then Err(UndefinedBehaviour)
          else
            var offset := t.vertexLongitudeOffset(phiA, phiS);
            var lambdaS := if heading.value == East then lambdaA + offset else lambdaA - offset;
            PointFromRadians(phiS, lambdaS, "N\U{00F6}rdlichster Punkt")
  }
}
