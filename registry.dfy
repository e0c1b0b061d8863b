/** getCoordinate: finding a coordinate of the loaded collection by its number. */
module Registry {
  import opened Outcomes
  import opened Angles

  /** The first position in coords holding number i, or None when no coordinate carries it. */
  function FirstIndexOf(coords: seq<Coordinate>, i: uint8): (r: Option<nat>)
    ensures r.Some? ==> r.value < |coords| && coords[r.value].no == i
    ensures r.Some? ==> forall j :: 0 <= j < r.value ==> coords[j].no != i
    ensures r.None? <==> forall j :: 0 <= j < |coords| ==> coords[j].no != i
  {
    if |coords| == 0 then None
    else if coords[0].no == i then Some(0)
    else
      match FirstIndexOf(coords[1..], i)
      case None => None
      case Some(j) => Some(j + 1)
  }

  /** The first position holding i is the one every earlier position misses and that matches. */
  lemma FirstIndexOfUnique(coords: seq<Coordinate>, i: uint8, n: nat)
    requires n < |coords| && coords[n].no == i
    requires forall j :: 0 <= j < n ==> coords[j].no != i
    ensures FirstIndexOf(coords, i) == Some(n)
  {
  }

  /**
   * getCoordinate as written: the position is counted in a uint8, so the coordinate returned for
   * the first match at position j is the one at j mod 256. No match throws logic_error.
   */
  function LookupAsWritten(coords: seq<Coordinate>, i: uint8): (r: Result<Coordinate>)
    ensures r.Err? <==> forall j :: 0 <= j < |coords| ==> coords[j].no != i
    ensures r.Err? ==> r.error == LogicError
  {
    match FirstIndexOf(coords, i)
    case None => Err(LogicError)
    case Some(j) => Ok(coords[j % 256])
  }

  /** The lookup the counter is meant to perform: the first coordinate carrying number i. */
  function Lookup(coords: seq<Coordinate>, i: uint8): (r: Result<Coordinate>)
    ensures r.Ok? ==> r.value.no == i
    ensures r.Err? <==> forall j :: 0 <= j < |coords| ==> coords[j].no != i
  {
    match FirstIndexOf(coords, i)
    case None => Err(LogicError)
    case Some(j) => Ok(coords[j])
  }

  /**
   * The intended lookup finds a coordinate carrying i exactly when one exists, and fails with
   * logic_error otherwise.
   */
  lemma LookupFinds(coords: seq<Coordinate>, i: uint8)
    ensures Lookup(coords, i).Ok? <==> exists j :: 0 <= j < |coords| && coords[j].no == i
    ensures Lookup(coords, i).Ok? ==> Lookup(coords, i).value.no == i && Lookup(coords, i).value in coords
    ensures Lookup(coords, i).Err? ==> Lookup(coords, i).error == LogicError
  {
    var r := FirstIndexOf(coords, i);
    if r.Some? {
      assert coords[r.value] in coords;
    }
  }

  /** Up to 256 coordinates the wrapping counter never wraps, and the two lookups agree. */
  lemma LookupAgreesUpTo256(coords: seq<Coordinate>, i: uint8)
    requires |coords| <= 256
    ensures LookupAsWritten(coords, i) == Lookup(coords, i)
  {
  }

  /**
   * Past 256 coordinates the wrapped counter picks an earlier coordinate, which by construction
   * does not carry i: with 257 coordinates of which only the last carries 5, getCoordinate(5)
   * returns the first.
   */
  lemma LookupWrapsAround(coords: seq<Coordinate>, i: uint8)
    requires FirstIndexOf(coords, i).Some? && FirstIndexOf(coords, i).value >= 256
    ensures LookupAsWritten(coords, i).Ok? && LookupAsWritten(coords, i).value.no != i
  {
    var j := FirstIndexOf(coords, i).value;
    assert j % 256 < j;
  }

  /** getCoordinate: walks the collection with a uint8 counter until a coordinate carries i. */
  method GetCoordinate(coords: seq<Coordinate>, i: uint8) returns (r: Result<Coordinate>)
    ensures r == LookupAsWritten(coords, i)
    ensures r.Err? <==> forall j :: 0 <= j < |coords| ==> coords[j].no != i
    ensures r.Ok? && |coords| <= 256 ==> r.value.no == i
  {
    var counter: uint8 := 0;
    for n := 0 to |coords|
      invariant counter == n % 256
      invariant forall j :: 0 <= j < n ==> coords[j].no != i
    {
      if coords[n].no == i {
        FirstIndexOfUnique(coords, i, n);
        if |coords| <= 256 {
          LookupAgreesUpTo256(coords, i);
          LookupFinds(coords, i);
        }
        return Ok(coords[counter]);
      }
      counter := (counter + 1) % 256;
    }
    return Err(LogicError);
  }
}
