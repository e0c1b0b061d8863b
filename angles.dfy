/**
 * Angles in degrees/minutes/seconds with a hemisphere tag, their signed radian value,
 * and the decomposition of a decimal degree value back into that form.
 */
module Angles {

  /** M_PI, which <cmath> defines as 3.14159265358979323846, cut to 16 significant digits. */
  const Pi: real := 3.141592653589793

  type uint8 = x: int | 0 <= x < 0x100
  type uint16 = x: int | 0 <= x < 0x1_0000
  type int8 = x: int | -0x80 <= x < 0x80

  function Abs(x: real): real { if x < 0.0 then -x else x }

  /** truncf: rounds toward zero. */
  function Trunc(x: real): (r: int)
    ensures Abs(r as real) <= Abs(x) < Abs(r as real) + 1.0
    ensures (r < 0 ==> x < 0.0) && (r > 0 ==> x > 0.0)
  {
    if x < 0.0 then -((-x).Floor) else x.Floor
  }

  /** Latitude direction: North or South. */
  datatype DirectionEl = N | S
  /** Longitude direction: West or Ost (East). */
  datatype DirectionAz = W | O

  /** The unsigned part shared by both kinds of angle. */
  datatype Angle = Angle(angle: uint16, min: uint8, sec: uint8) {
    /** The angle in decimal degrees. */
    function Degrees(): real {
      angle as real + min as real / 60.0 + sec as real / 3600.0
    }
    /** Minutes and seconds below 60, as the decimal constructor produces them. */
    predicate Normal() {
      min < 60 && sec < 60
    }
  }

  /** Latitude angle. */
  datatype AngleEl = AngleEl(base: Angle, dir: DirectionEl)
  /** Longitude angle. */
  datatype AngleAz = AngleAz(base: Angle, dir: DirectionAz)

  datatype Coordinate = Coordinate(phi: AngleEl, lambda: AngleAz, no: int8, name: string)

  /** A latitude of at most 90 degrees with normal minutes and seconds. */
  predicate ValidLatitude(a: AngleEl) {
    a.base.Normal() && a.base.Degrees() <= 90.0
  }

  /** A longitude of at most 180 degrees with normal minutes and seconds. */
  predicate ValidLongitude(a: AngleAz) {
    a.base.Normal() && a.base.Degrees() <= 180.0
  }

  /** deg2rad: x * M_PI / 180, with M_PI written as its value (Pi) to keep the product linear. */
  function DegToRad(x: real): (r: real)
    ensures (r < 0.0 <==> x < 0.0) && (r == 0.0 <==> x == 0.0)
    ensures x == 180.0 ==> r == Pi
    ensures x == 90.0 ==> r == Pi / 2.0
  {
    x * 3.141592653589793 / 180.0
  }

  /** rad2deg: x * 180 / M_PI, with M_PI written as its value (Pi). */
  function RadToDeg(x: real): (r: real)
    ensures (r < 0.0 <==> x < 0.0) && (r == 0.0 <==> x == 0.0)
    ensures x == Pi ==> r == 180.0
    ensures x == Pi / 2.0 ==> r == 90.0
  {
    x * 180.0 / 3.141592653589793
  }

  lemma RadToDegInverse(x: real)
    ensures RadToDeg(DegToRad(x)) == x
  {
    calc {
      RadToDeg(DegToRad(x));
      x * Pi / 180.0 * 180.0 / Pi;
      x * (Pi / Pi);
      x;
    }
  }

  /** getAngle for a longitude: signed radians, West negative. */
  function GetAngleAz(a: AngleAz): (r: real)
    ensures Abs(r) == DegToRad(a.base.Degrees())
    ensures a.dir == W ==> r <= 0.0
    ensures a.dir == O ==> r >= 0.0
  {
    var magnitude := DegToRad(a.base.Degrees());
    if a.dir == W then -1.0 * magnitude else magnitude
  }

  /** getAngle for a latitude: signed radians, South negative. */
  function GetAngleEl(a: AngleEl): (r: real)
    ensures Abs(r) == DegToRad(a.base.Degrees())
    ensures a.dir == S ==> r <= 0.0
    ensures a.dir == N ==> r >= 0.0
  {
    var magnitude := DegToRad(a.base.Degrees());
    if a.dir == S then -1.0 * magnitude else magnitude
  }

  /** The signed value is zero exactly for the angle 0 deg 0' 0", whatever its tag. */
  lemma GetAngleZero(a: AngleEl, b: AngleAz)
    ensures GetAngleEl(a) == 0.0 <==> a.base == Angle(0, 0, 0)
    ensures GetAngleAz(b) == 0.0 <==> b.base == Angle(0, 0, 0)
  {
  }

  lemma ValidLatitudeRange(a: AngleEl)
    requires ValidLatitude(a)
    ensures -Pi / 2.0 <= GetAngleEl(a) <= Pi / 2.0
  {
  }

  lemma ValidLongitudeRange(a: AngleAz)
    requires ValidLongitude(a)
    ensures -Pi <= GetAngleAz(a) <= Pi
  {
  }

  /** Angle(float): truncating decomposition of a non-negative decimal degree value. */
  function AngleFromDegrees(x: real): (r: Angle)
    requires 0.0 <= x < 65536.0
    ensures r.Normal()
    ensures r.Degrees() <= x < r.Degrees() + 1.0 / 3600.0
  {
    var angle := Trunc(x);
    var m := (x - angle as real) * 60.0;
    var min := Trunc(m);
    var s := (m - min as real) * 60.0;
    var sec := Trunc(s);
    Angle(angle, min, sec)
  }

  /** AngleEl(float): the sign picks the hemisphere, the magnitude is truncated. */
  function AngleElFromDegrees(x: real): (r: AngleEl)
    requires -65536.0 < x < 65536.0
    ensures r.dir == S <==> x < 0.0
    ensures r.base.Normal()
    ensures r.base.Degrees() <= Abs(x) < r.base.Degrees() + 1.0 / 3600.0
  {
    AngleEl(AngleFromDegrees(Abs(x)), if x < 0.0 then S else N)
  }

  /** AngleAz(float): the sign picks the hemisphere, the magnitude is truncated. */
  function AngleAzFromDegrees(x: real): (r: AngleAz)
    requires -65536.0 < x < 65536.0
    ensures r.dir == W <==> x < 0.0
    ensures r.base.Normal()
    ensures r.base.Degrees() <= Abs(x) < r.base.Degrees() + 1.0 / 3600.0
  {
    AngleAz(AngleFromDegrees(Abs(x)), if x < 0.0 then W else O)
  }

  /** Coordinate(float, float, name, no). */
  function CoordinateFromDegrees(el: real, az: real, name: string, no: int8): (r: Coordinate)
    requires -65536.0 < el < 65536.0 && -65536.0 < az < 65536.0
    ensures r.phi.dir == S <==> el < 0.0
    ensures r.lambda.dir == W <==> az < 0.0
    ensures r.name == name && r.no == no
    ensures r.phi == AngleElFromDegrees(el) && r.lambda == AngleAzFromDegrees(az)
  {
    Coordinate(AngleElFromDegrees(el), AngleAzFromDegrees(az), no, name)
  }

  /** Decimal degrees and back: a normal angle is rebuilt exactly. */
  lemma {:induction false} DmsRoundTrip(a: Angle)
    requires a.Normal()
    ensures a.Degrees() < 65536.0
    ensures AngleFromDegrees(a.Degrees()) == a
  {
    var x := a.Degrees();
    var f := a.min as real / 60.0 + a.sec as real / 3600.0;
    assert 0.0 <= f < 1.0;
    assert Trunc(x) == a.angle;
    var m := (x - a.angle as real) * 60.0;
    assert m == a.min as real + a.sec as real / 60.0;
    assert Trunc(m) == a.min;
    assert (m - a.min as real) * 60.0 == a.sec as real;
  }

  /** getAngle followed by AngleEl(rad2deg(.)) rebuilds a normal latitude, except 0 deg 0' 0"S. */
  lemma LatitudeRoundTrip(a: AngleEl)
    requires a.base.Normal()
    requires a.dir == S ==> a.base != Angle(0, 0, 0)
    ensures AngleElFromDegrees(RadToDeg(GetAngleEl(a))) == a
  {
    var r := GetAngleEl(a);
    RadToDegInverse(r);
    RadToDegInverse(a.base.Degrees());
    DmsRoundTrip(a.base);
    GetAngleZero(a, AngleAz(a.base, O));
    if a.dir == S {
      RadToDegInverse(-a.base.Degrees());
      assert RadToDeg(r) == -a.base.Degrees();
    } else {
      assert RadToDeg(r) == a.base.Degrees();
    }
  }

  /** getAngle followed by AngleAz(rad2deg(.)) rebuilds a normal longitude, except 0 deg 0' 0"W. */
  lemma LongitudeRoundTrip(a: AngleAz)
    requires a.base.Normal()
    requires a.dir == W ==> a.base != Angle(0, 0, 0)
    ensures AngleAzFromDegrees(RadToDeg(GetAngleAz(a))) == a
  {
    var r := GetAngleAz(a);
    RadToDegInverse(r);
    DmsRoundTrip(a.base);
    GetAngleZero(AngleEl(a.base, N), a);
    if a.dir == W {
      RadToDegInverse(-a.base.Degrees());
      assert RadToDeg(r) == -a.base.Degrees();
    } else {
      RadToDegInverse(a.base.Degrees());
      assert RadToDeg(r) == a.base.Degrees();
    }
  }

  /** The one exception: 0 deg 0' 0"S has the value 0, which the decimal constructor tags North. */
  lemma SouthZeroTurnsNorth()
    ensures AngleElFromDegrees(RadToDeg(GetAngleEl(AngleEl(Angle(0, 0, 0), S)))).dir == N
  {
  }
}
