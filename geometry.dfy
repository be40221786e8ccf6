/**
 * Geometry: the base of every coordinate-carrying GeoJSON object, a mutable
 * list of coordinate elements (positions, rings, ...).
 */
module Geometries {

  class Geometry<T(==)> {
    var coordinates: seq<T>

    /** A new geometry has no coordinates. */
    constructor ()
      ensures coordinates == []
    {
      coordinates := [];
    }

    /** The varargs constructor adds the elements one by one, in order. */
    constructor FromElements(elements: seq<T>)
      ensures coordinates == elements
    {
      coordinates := [];
      new;
      var k := 0;
      while k < |elements|
        invariant 0 <= k <= |elements|
        invariant coordinates == elements[..k]
      {
        coordinates := coordinates + [elements[k]];
        k := k + 1;
      }
    }

    /** add: one element at the end, the others untouched, and the geometry itself returned. */
    method Add(element: T) returns (self: Geometry<T>)
      modifies this
      ensures self == this
      ensures coordinates == old(coordinates) + [element]
    {
      coordinates := coordinates + [element];
      self := this;
    }

    /** setCoordinates replaces the whole list. */
    method SetCoordinates(newCoordinates: seq<T>)
      modifies this
      ensures coordinates == newCoordinates
    {
      coordinates := newCoordinates;
    }

    /**
     * equals: true for the same object, false for no object, otherwise
     * equal coordinate lists.
     */
    function Equals(other: Geometry?<T>): (r: bool)
      reads this, other
      ensures other == this ==> r
      ensures other == null ==> !r
      ensures other != null ==> (r <==> other.coordinates == coordinates)
    {
      other == this || (other != null && other.coordinates == coordinates)
    }
  }

  /** Equality of geometries is reflexive and symmetric. */
  lemma EqualsIsSymmetric<T>(a: Geometry<T>, b: Geometry<T>)
    ensures a.Equals(a)
    ensures a.Equals(b) == b.Equals(a)
  {
  }
}
