/** The data the map works on: member records ("alumni"), coordinates,
    the viewport rectangle, the three filter fields, and the arithmetic
    mean of member positions that several parts of the program compute. */
module Alumni {
  import opened Options

  /** A `[latitude, longitude]` pair in degrees. */
  datatype LatLng = LatLng(lat: real, lng: real)

  /** One member record. `coords` is None when the record has no
      `coordinates` array of length two. Descriptive fields the map never
      reads (photo, biography, contact data) are not modelled. */
  datatype Entity = Entity(
    id: int,
    name: string,
    firstname: string,
    location: string,
    company: string,
    position: string,
    country: string,
    city: string,
    graduationYear: int,
    promotionType: string,
    coords: Option<LatLng>)

  /** The viewport: Leaflet's `_northEast` and `_southWest` corners. */
  datatype Bounds = Bounds(north: real, south: real, east: real, west: real)

  /** The filter record shared by the filter panel, the map and the
      service; every field holds '' when it filters nothing. */
  datatype Filters = Filters(graduationYear: string, country: string, promotionType: string)

  const NoFilters := Filters("", "", "")

  /** `Object.values(filters).some(filter => filter !== '')`. */
  function HasActiveFilters(f: Filters): (r: bool)
    ensures r <==> f != NoFilters
  {
    var values := [f.graduationYear, f.country, f.promotionType];
    assert f != NoFilters ==> values[0] != "" || values[1] != "" || values[2] != "";
    exists i :: 0 <= i < |values| && values[i] != ""
  }

  predicate Placed(e: Entity) {
    e.coords.Some?
  }

  predicate AllPlaced(xs: seq<Entity>) {
    forall i :: 0 <= i < |xs| ==> xs[i].coords.Some?
  }

  function CountryOf(e: Entity): string {
    e.country
  }

  datatype Axis = Lat | Lng

  function Coord(p: LatLng, axis: Axis): real {
    match axis
    case Lat => p.lat
    case Lng => p.lng
  }

  /** `xs.reduce((sum, a) => sum + a.coordinates[k], 0)` for the axis `k`. */
  function SumAxis(xs: seq<Entity>, axis: Axis): real
    requires AllPlaced(xs)
  {
    if xs == [] then 0.0 else Coord(xs[0].coords.value, axis) + SumAxis(xs[1..], axis)
  }

  /** The per-axis arithmetic mean of the members' coordinates. */
  function Centroid(xs: seq<Entity>): (c: LatLng)
    requires |xs| > 0 && AllPlaced(xs)
  {
    var n := |xs| as real;
    LatLng(SumAxis(xs, Lat) / n, SumAxis(xs, Lng) / n)
  }

  /** The centroid, scaled back up by the member count, is the sum of the
      members' coordinates. */
  lemma CentroidIsMean(xs: seq<Entity>)
    requires |xs| > 0 && AllPlaced(xs)
    ensures Centroid(xs).lat * (|xs| as real) == SumAxis(xs, Lat)
    ensures Centroid(xs).lng * (|xs| as real) == SumAxis(xs, Lng)
  {
  }

  /** If every member lies strictly above `t` on an axis, so does their sum
      scaled down by the count. */
  lemma {:induction false} SumAbove(xs: seq<Entity>, axis: Axis, t: real)
    requires AllPlaced(xs)
    requires forall i :: 0 <= i < |xs| ==> Coord(xs[i].coords.value, axis) > t
    ensures |xs| > 0 ==> SumAxis(xs, axis) > (|xs| as real) * t
    ensures SumAxis(xs, axis) >= (|xs| as real) * t
  {
    if xs != [] {
      SumAbove(xs[1..], axis, t);
    }
  }

  lemma {:induction false} SumBelow(xs: seq<Entity>, axis: Axis, t: real)
    requires AllPlaced(xs)
    requires forall i :: 0 <= i < |xs| ==> Coord(xs[i].coords.value, axis) < t
    ensures |xs| > 0 ==> SumAxis(xs, axis) < (|xs| as real) * t
    ensures SumAxis(xs, axis) <= (|xs| as real) * t
  {
    if xs != [] {
      SumBelow(xs[1..], axis, t);
    }
  }

  lemma {:induction false} SumWithin(xs: seq<Entity>, axis: Axis, lo: real, hi: real)
    requires AllPlaced(xs)
    requires forall i :: 0 <= i < |xs| ==> lo <= Coord(xs[i].coords.value, axis) <= hi
    ensures (|xs| as real) * lo <= SumAxis(xs, axis) <= (|xs| as real) * hi
  {
    if xs != [] {
      SumWithin(xs[1..], axis, lo, hi);
    }
  }

  lemma DivideAbove(s: real, n: real, t: real)
    requires n > 0.0 && s > n * t
    ensures s / n > t
  {
  }

  lemma DivideBelow(s: real, n: real, t: real)
    requires n > 0.0 && s < n * t
    ensures s / n < t
  {
  }

  lemma DivideWithin(s: real, n: real, lo: real, hi: real)
    requires n > 0.0 && n * lo <= s <= n * hi
    ensures lo <= s / n <= hi
  {
  }

  /** The mean of points all strictly north of (above) `t` on an axis is
      itself strictly above `t`. */
  lemma CentroidAbove(xs: seq<Entity>, axis: Axis, t: real)
    requires |xs| > 0 && AllPlaced(xs)
    requires forall i :: 0 <= i < |xs| ==> Coord(xs[i].coords.value, axis) > t
    ensures Coord(Centroid(xs), axis) > t
  {
    SumAbove(xs, axis, t);
    DivideAbove(SumAxis(xs, axis), |xs| as real, t);
  }

  lemma CentroidBelow(xs: seq<Entity>, axis: Axis, t: real)
    requires |xs| > 0 && AllPlaced(xs)
    requires forall i :: 0 <= i < |xs| ==> Coord(xs[i].coords.value, axis) < t
    ensures Coord(Centroid(xs), axis) < t
  {
    SumBelow(xs, axis, t);
    DivideBelow(SumAxis(xs, axis), |xs| as real, t);
  }

  lemma CentroidWithin(xs: seq<Entity>, axis: Axis, lo: real, hi: real)
    requires |xs| > 0 && AllPlaced(xs)
    requires forall i :: 0 <= i < |xs| ==> lo <= Coord(xs[i].coords.value, axis) <= hi
    ensures lo <= Coord(Centroid(xs), axis) <= hi
  {
    SumWithin(xs, axis, lo, hi);
    DivideWithin(SumAxis(xs, axis), |xs| as real, lo, hi);
  }

  /** The centroid of a single member is that member's position. */
  lemma CentroidOfOne(e: Entity)
    requires Placed(e)
    ensures Centroid([e]) == e.coords.value
  {
    assert [e][1..] == [];
    assert SumAxis([e], Lat) == e.coords.value.lat;
    assert SumAxis([e], Lng) == e.coords.value.lng;
  }
}
