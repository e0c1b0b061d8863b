# Spherical trigonometry: the discrete core of `main.cpp`

`main.cpp` is a command-line tool for great-circle navigation. It reads a list of named
coordinates, each with a number. For a chosen pair A, B it reports one of:

- the central angle;
- the course angle at A;
- the northernmost vertex of the great circle through A and B, and whether it lies between A and
  B, before A or behind B (the course angle at B is computed for this, not reported);
- the route length;
- the loxodromic course and the loxodromic length (not part of this model);
- the intermediate point where an aircraft with a given speed, fuel and consumption runs out of fuel.

The aircraft flies back and forth between A and B.

The arithmetic itself is single-precision trigonometry (`acosf`, `asinf`, `tanf`). Around it
sits exact logic: the case analysis, folds, guards and lookups that decide which formula applies
and with which sign. This project models that logic in Dafny.

- `outcomes.dfy`: `Option`, `Result` and the error kinds. `overflow_error` becomes
  `OverflowError` and `logic_error` becomes `LogicError`. An exception that tries to leave a
  `noexcept` function calls `std::terminate`, which becomes `Terminated`. C++ undefined behaviour becomes
  `UndefinedBehaviour`, such as a lambda that ends without a return value, reading an unset
  `lage`, or a float-to-unsigned cast out of range.
- `angles.dfy`: the degrees/minutes/seconds angles `Angle`, `AngleEl`, `AngleAz` and
  `Coordinate`. It has `getAngle` (signed radians, South and West negative) and the `float`
  constructors that truncate a decimal degree value back into degrees, minutes and seconds.
- `great_circle.dfy`:
  - the central angle and the zero guard of `calcAlphaRad`;
  - `calcBetaRad` and `calcGCDkm`;
  - the fold of an angle difference into [-pi, pi] shared by `calcDeltaLambda` and
    `calcDeltaPhiDach`;
  - the conversion of a result back into a coordinate.
- `north_peak.dfy`: `calcNorthPeakPoint`. This covers the same-meridian North Pole shortcut,
  the `Lage` classification from the interior angles and the `calcLambda_S` sign table.
- `crash_point.dfy`: `calcCrashPoint`. This covers:
  - the parity rule `calcDistanceRatio`;
  - the meridian special case (`transformPhi`, `calcDeltaPhiDach`, `calcTransformPhi`,
    `calcInterval`, `calcLambda_p_special`);
  - the sign of `calcLambda_p`;
  - the whole computation as the program composes these, and beside it a corrected composition
    for the two faults listed under Findings.
- `registry.dfy`: `getCoordinate`. It is an imperative method with the source's `uint8`
  counter, proved against a recursive specification of the first matching position.

`float` is modelled as `real`. `M_PI` is the decimal `3.141592653589793` (`Angles.Pi`) and `r_E`
is `6378.137` km. The transcendental expressions are the fields of a `GreatCircle.Trig` value,
which the caller supplies. The model does not evaluate them. It applies them to exactly the
arguments the source gives them and uses their results exactly where the source does.

The intervals follow the code rather than its comments:

- `calcDeltaLambda` and `calcDeltaPhiDach` fold into the closed interval [-pi, pi]. A difference
  of exactly pi stays pi, and one of exactly -pi stays -pi.
- The comment at main.cpp:340 says `transformPhi` maps into (-pi; pi]. For a latitude in
  [-pi/2, pi/2] the code does map into (-pi, pi].
- The comment at main.cpp:366 says `calcInterval` reduces into (-pi; pi]. The code maps into
  [-pi/2, pi/2].
- `calcLambda_p` takes its sign from the unfolded difference `lambda_a - lambda_b`.
  `calcLambda_p_special` tests the distances to the North Pole whatever the direction of flight.
  `CrashPoint.PointAtDistance`, and through it `calcCrashPoint`, does both as written. Findings
  lists both, and `CrashPoint.PointAtDistanceCorrected` is the corrected composition.

## Model

| member | source | states |
|---|---|---|
| Angles.Trunc | main.cpp:54-56 | truncf rounds toward zero: the result has the sign of x and lies within one unit of x, never further from zero than x |
| Angles.GetAngleAz | main.cpp:146-150 | the magnitude is deg + min/60 + sec/3600 in radians; West gives a value <= 0, Ost a value >= 0 |
| Angles.GetAngleEl | main.cpp:153-157 | the magnitude is deg + min/60 + sec/3600 in radians; South gives a value <= 0, North a value >= 0 |
| Angles.GetAngleZero | main.cpp:146-157 | the signed value is 0 exactly for 0°0'0", whatever the direction tag |
| Angles.RadToDegInverse | main.cpp:135-143 | rad2deg undoes deg2rad exactly |
| Angles.DegToRad | main.cpp:135-138 | deg2rad keeps the sign and zero, and maps 180 degrees to pi and 90 degrees to pi/2 |
| Angles.RadToDeg | main.cpp:140-143 | rad2deg keeps the sign and zero, and maps pi to 180 degrees and pi/2 to 90 degrees |
| Angles.ValidLatitudeRange | main.cpp:153-157 | a latitude of at most 90° lies in [-pi/2, pi/2] |
| Angles.ValidLongitudeRange | main.cpp:146-150 | a longitude of at most 180° lies in [-pi, pi] |
| Angles.AngleFromDegrees | main.cpp:54-56 | Angle(float) gives min < 60 and sec < 60, and the DMS value is at most x and less than one arc second below it |
| Angles.AngleElFromDegrees | main.cpp:70 | AngleEl(float) is South exactly when the value is negative; its DMS is the truncation of the absolute value, with min and sec below 60 |
| Angles.AngleAzFromDegrees | main.cpp:88 | AngleAz(float) is West exactly when the value is negative; its DMS is the truncation of the absolute value, with min and sec below 60 |
| Angles.CoordinateFromDegrees | main.cpp:111 | the float Coordinate constructor builds its latitude with AngleEl(float) and its longitude with AngleAz(float), so it tags South and West exactly for negative values; it keeps the name and number |
| Angles.DmsRoundTrip | main.cpp:54-56 | a DMS angle with min and sec below 60, written as decimal degrees and decomposed again, is the same angle |
| Angles.LatitudeRoundTrip | main.cpp:70 | AngleEl(rad2deg(getAngle(a))) is a again for every normal latitude other than 0°0'0"S |
| Angles.LongitudeRoundTrip | main.cpp:88 | AngleAz(rad2deg(getAngle(a))) is a again for every normal longitude other than 0°0'0"W |
| Angles.SouthZeroTurnsNorth | main.cpp:70 | the exception is real: 0°0'0"S comes back as North |
| GreatCircle.CentralAngleDependsOnRadians | main.cpp:177-188 | calcGCDrad depends on the points only through their signed radians: names, numbers and the tag of a zero angle do not change it |
| GreatCircle.AlphaRad | main.cpp:191-207 | the course angle fails, with overflow_error, exactly when the central angle is 0 |
| GreatCircle.BetaRad | main.cpp:210-213 | the course angle at B is the course angle at A with the points swapped; when the central angle from B to A is 0, the overflow_error cannot leave the noexcept function and the program terminates |
| GreatCircle.GcdKm | main.cpp:216-219 | the route length in km is 0 exactly when the central angle is 0, and positive exactly when it is positive |
| GreatCircle.FoldToPi | main.cpp:349-356 | the fold changes the difference by 0 or one full turn, lands in [-pi, pi] for inputs within three half turns, and leaves [-pi, pi] untouched |
| GreatCircle.FoldToPiUnique | main.cpp:255-264 | the fold is the only value in (-pi, pi) within one turn of the difference |
| GreatCircle.DeltaLambda | main.cpp:255-264 | calcDeltaLambda lies in [-pi, pi] for longitudes in [-pi, pi] and differs from lambdaA - lambdaB by 0 or ±2pi |
| GreatCircle.DeltaLambdaDirection | main.cpp:255-264 | the folded difference is negative exactly when B lies east of A, positive exactly when B lies west, zero exactly on the same meridian |
| GreatCircle.PointFromRadians | main.cpp:289 | converting a result is defined exactly when both values fit a uint16 in degrees; it is then the float Coordinate of rad2deg of both values, with the name and number 0, tagged South and West by sign |
| NorthPeak.Classify | main.cpp:240-252 | each of zwischen, vor_A and hinter_B is chosen exactly when its angle condition holds, so they exclude each other; a right angle or two obtuse angles leave lage unset |
| NorthPeak.VertexHeading | main.cpp:268-283 | calcLambda_S has no result exactly when lage is unset or deltaLambda is 0; it heads east exactly when, for vor_A, deltaLambda > 0 and, otherwise, deltaLambda < 0 |
| NorthPeak.VertexHeadingTowardsB | main.cpp:255-283 | for zwischen and hinter_B the vertex is sought eastwards exactly when B lies east of A |
| NorthPeak.NorthPole | main.cpp:234 | the sentinel is 90°N 0°O, tagged N and O, named "Nordpol" with number 0 |
| NorthPeak.NorthPeakPoint | main.cpp:222-290 | equal longitudes give the North Pole whatever the trigonometry; otherwise a zero central angle from A to B throws overflow_error, one only from B to A terminates the program in calcBetaRad, and an unset lage is undefined |
| CrashPoint.DistanceRatio | main.cpp:314-323 | for a non-negative prop the ratio lies in [0, 1]; a prop in (-1, 0) comes back unchanged |
| CrashPoint.DistanceRatioIsBounce | main.cpp:314-323 | the parity rule is the position of a traveller who goes back and forth between A and B, prop route lengths in all |
| CrashPoint.DistanceRatioEndpoints | main.cpp:314-323 | prop = 2 gives 0, a point at A; prop = 1 gives 1, a point at B |
| CrashPoint.DistanceRatioShape | main.cpp:314-323 | short of B the ratio is prop; between one and two route lengths it is 2 - prop; two more route lengths change nothing |
| CrashPoint.Prop | main.cpp:315 | the range in route lengths has no value exactly when the route or the consumption is 0, and is 0 when v * fuel is 0 |
| CrashPoint.Distance | main.cpp:325 | a fraction in [0, 1] of a non-negative route gives a distance between 0 and the route; fraction 0 is A, fraction 1 is B |
| CrashPoint.TransformPhi | main.cpp:341-346 | transformPhi has a value exactly on a western meridian; that value lies in (-pi, pi] and calcInterval maps it back to the latitude |
| CrashPoint.TransformStep | main.cpp:359-364 | calcTransformPhi moves the transformed latitude by exactly d, downwards when deltaPhiDach >= 0 and upwards otherwise |
| CrashPoint.Interval | main.cpp:367-374 | calcInterval reflects about a pole or leaves the value alone, lands in [-pi/2, pi/2] from [-3pi/2, 3pi/2], and fixes [-pi/2, pi/2] |
| CrashPoint.MeridianLatitude | main.cpp:385-390 | the meridian latitude is defined exactly when both longitudes are western |
| CrashPoint.MeridianLatitudeExact | main.cpp:385-390 | on a western meridian, for any d up to the route, the latitude lies d from A towards B |
| CrashPoint.LambdaPSpecial | main.cpp:377-382 | calcLambda_p_special keeps lambdaA or adds pi, and adds pi exactly for distances from pi/2 - phiA to 3pi/2 - phiA |
| CrashPoint.LambdaPSpecialSouthbound | main.cpp:377-382 | from 60°N to 60°S on 50°W, after 100°, the latitude is 40°S but the longitude becomes 130°O |
| CrashPoint.MeridianLongitude | main.cpp:377-382 | corrected calcLambda_p_special: keeps lambdaA or adds pi, and agrees with the source on northbound routes |
| CrashPoint.MeridianLongitudeStays | main.cpp:377-382 | corrected: up to B the point stays on A's meridian, unless B is a pole that the point has reached |
| CrashPoint.CrashHeadingAsWritten | main.cpp:328-333 | calcLambda_p heads east exactly when the unfolded difference is negative before the antipode, and positive beyond it |
| CrashPoint.CrashHeadingAntimeridian | main.cpp:309 | from 170°O to 170°W the route runs east while the unfolded sign heads west |
| CrashPoint.CrashHeading | main.cpp:255-264 | corrected calcLambda_p sign: it agrees with the source wherever lambda_a - lambda_b needs no fold |
| CrashPoint.CrashHeadingTowardsB | main.cpp:328-333 | corrected: with the folded difference, up to the antipode the point is sought eastwards exactly when B lies east of A |
| CrashPoint.CrashPointRad | main.cpp:293-405 | calcCrashPoint throws overflow_error exactly when the central angle is 0; every other failure is undefined behaviour |
| CrashPoint.PointAtRatio | main.cpp:314-399 | the point fails, always with undefined behaviour, exactly when the integer part of prop does not fit a uint32 or A and B share a meridian that is not western |
| CrashPoint.PointAtDistance | main.cpp:377-399 | as written: the result is undefined exactly for equal longitudes that are not western; on a meridian the longitude is calcLambda_p_special's |
| CrashPoint.PointAtDistanceOnMeridian | main.cpp:377-399 | as written, on a western meridian and up to B: the point lies d from A towards B with calcLambda_p_special's longitude, which on a northbound route is A's meridian unless the point has reached the North Pole |
| CrashPoint.PointAtDistanceCorrected | main.cpp:377-399 | corrected composition: like the source's, undefined exactly for equal longitudes that are not western |
| CrashPoint.PointAtDistanceCorrectedAgrees | main.cpp:328-382 | the corrected composition equals the source's on northbound meridian routes and off the meridian when lambda_a - lambda_b needs no fold |
| CrashPoint.PointAtDistanceCorrectedOnMeridian | main.cpp:377-382 | corrected: on a western meridian the point lies d from A towards B and, in both directions, stays on A's meridian up to B unless B is a pole it has reached |
| CrashPoint.CrashPoint | main.cpp:293-405 | the result throws overflow_error exactly when the central angle is 0 and is otherwise named "Zwischenpunkt" with number 0 |
| CrashPoint.CrashPointRadBackAtA | main.cpp:293-399 | on a western meridian, a range of exactly twice the route ends at A's radians |
| CrashPoint.PointFromRadiansRoundTrip | main.cpp:404 | converting a coordinate's own radians gives that coordinate back, under the new name and number 0 |
| CrashPoint.CrashPointBackAtA | main.cpp:293-405 | on a western meridian, a range of exactly twice the route returns A itself as "Zwischenpunkt" |
| Registry.FirstIndexOf | main.cpp:408-419 | the first position whose number is i, before which no number is i; None exactly when no number is i |
| Registry.FirstIndexOfUnique | main.cpp:408-419 | a matching position with no match before it is the first position |
| Registry.LookupAsWritten | main.cpp:408-419 | the lookup fails with logic_error exactly when no coordinate carries i |
| Registry.Lookup | main.cpp:408-419 | corrected lookup: it fails exactly when no coordinate carries i, and otherwise returns one carrying i |
| Registry.LookupFinds | main.cpp:408-419 | corrected: the lookup succeeds exactly when some coordinate carries i, returns a coordinate of the collection carrying i, and otherwise fails with logic_error |
| Registry.LookupAgreesUpTo256 | main.cpp:410-415 | with at most 256 coordinates the uint8 counter never wraps and the lookup is the intended one |
| Registry.LookupWrapsAround | main.cpp:410-415 | a first match at position 256 or later returns a coordinate that does not carry i |
| Registry.GetCoordinate | main.cpp:408-419 | the loop with its uint8 counter computes the lookup as written; it throws logic_error exactly when no number is i; up to 256 coordinates it returns one carrying i |

## Left out

- The values of the transcendental formulas are not modelled: the central angle, course angles, vertex latitude and longitude, and intermediate latitude and longitude. They are the uninterpreted fields of `GreatCircle.Trig`. No property depends on their values except through explicit hypotheses, such as the central angle of two points on one meridian.
- GreatCircle.CentralAngle: no contract of its own. The central-angle formula is an uninterpreted field of `Trig`, so the model assumes neither its range [0, pi] nor its symmetry in A and B.
- The loxodromic course and length (`calcLoxodromicCourse`, `calcLoxodromicLength`) are pure trigonometry and are not part of this model.
- Single-precision rounding is not modelled. `float` is `real`, so the DMS round trip holds over exact reals; in `float`, the truncation in `Angle(float)` can lose an arc second.
- Angles.AngleFromDegrees: requires a value below 65536, so the degree part fits a uint16. Casting a larger value is undefined, and the model does not state a result for it. `GreatCircle.PointFromRadians` returns `UndefinedBehaviour` for such values.
- CrashPoint.DistanceRatio: requires the prop to lie in (-1, 2^32), so the cast of its integer part to uint32 is defined. `CrashPoint.PointAtRatio` returns `UndefinedBehaviour` outside that range. An infinite or NaN prop from a zero divisor is `UndefinedBehaviour` in `CrashPoint.CrashPointRad`.
- CrashPoint.TransformPhi: `transformPhi` has no return value for a non-negative longitude. That is undefined behaviour, so the model returns None and then `UndefinedBehaviour`; no value is guessed.
- The commented-out unbounded travel mode does not exist in the code and is not modelled.
- Console output is not modelled: the `print` members, the `print*` functions, `printOption` and the colour macros.
- `main` is not modelled: file reading, line splitting with regular expressions, the interactive loop, command dispatch and the numbering of labels from 'A'.

## Findings

| source | as written | input that shows it | evidently intended | confidence | as-written member | corrected member |
|---|---|---|---|---|---|---|
| main.cpp:377-382 | `calcLambda_p_special` tests the distance against pi/2 - phiA and 3pi/2 - phiA, the distances to the North Pole and then the South Pole, even on a southbound route | 60°N to 60°S on 50°W, distance 100°: the latitude is 40°S on the meridian but the longitude becomes 130°O. 60°N to 30°N on 50°W with prop = 1, distance 30°: the point is 30°N 130°O, not B | test the distances to the South Pole (pi/2 + phiA, 3pi/2 + phiA) when B lies south of A, so the point stays on A's meridian up to B | high, not executed | CrashPoint.LambdaPSpecialSouthbound | CrashPoint.PointAtDistanceCorrectedOnMeridian |
| main.cpp:309 | `calcLambda_p` takes its east/west sign from the unfolded `lambda_a - lambda_b` | A at 170°O, B at 170°W, distance 10°: the route runs east across the antimeridian but the sign heads west | fold the difference as `calcDeltaLambda` does in `calcNorthPeakPoint` | medium, not executed | CrashPoint.CrashHeadingAntimeridian | CrashPoint.CrashHeadingTowardsB |
| main.cpp:410-415 | `getCoordinate` counts positions in a `uint8_t`, which wraps after 255 | 257 coordinates of which only the last carries number 5: `getCoordinate(coords, 5)` returns the first coordinate. `main` does not reach this: it numbers the coordinates with a wrapping `char` from 'A' (main.cpp:563, 603), so the first 256 carry all 256 values and every first match lies below position 256 | count positions in `size_t`, returning the coordinate that matched | medium, not executed | Registry.LookupWrapsAround | Registry.LookupFinds |
