/** Zoom levels, proximity clustering and marker styling
    (src/services/geoService.js). The great-circle distance is a parameter of
    the model: the clustering as written never measures one. */
module GeoService {
  import opened Options
  import opened Alumni
  import opened Text

  /** The three display levels, from the widest view to the closest. */
  datatype Level = CountryLevel | RegionLevel | IndividualLevel

  /** The name the source uses for a level. */
  function LevelName(l: Level): string {
    match l
    case CountryLevel => "country"
    case RegionLevel => "region"
    case IndividualLevel => "individual"
  }

  function Rank(l: Level): nat {
    match l
    case CountryLevel => 0
    case RegionLevel => 1
    case IndividualLevel => 2
  }

  /** `getDisplayLevel`: zoom 4 and below shows countries, 5 to 7 regions,
      8 and above individual members. */
  function DisplayLevel(zoom: int): (r: Level)
    ensures r == CountryLevel <==> zoom <= 4
    ensures r == RegionLevel <==> 5 <= zoom <= 7
    ensures r == IndividualLevel <==> zoom >= 8
  {
    if zoom <= 4 then CountryLevel
    else if zoom <= 7 then RegionLevel
    else IndividualLevel
  }

  /** Zooming in never moves to a coarser level, and each level is reached:
      the boundaries sit between 4 and 5 and between 7 and 8. */
  lemma DisplayLevelMonotone(z1: int, z2: int)
    requires z1 <= z2
    ensures Rank(DisplayLevel(z1)) <= Rank(DisplayLevel(z2))
    ensures DisplayLevel(4) == CountryLevel && DisplayLevel(5) == RegionLevel
    ensures DisplayLevel(7) == RegionLevel && DisplayLevel(8) == IndividualLevel
  {
  }

  /** The distance thresholds in kilometres, keyed as in the source. There
      is no "region" entry, although that is a level name. */
  const Thresholds: map<string, real> := map["country" := 500.0, "city" := 50.0, "individual" := 5.0]

  /** `areInSameCluster`: the members are closer than the threshold of the
      current level; `distance` stands for the haversine formula. The lookup
      of the missing "region" threshold yields `undefined`, and a comparison
      with it is false. */
  function SameCluster(p1: Entity, p2: Entity, zoom: int, distance: (LatLng, LatLng) -> real): (r: bool)
    requires Placed(p1) && Placed(p2)
    ensures DisplayLevel(zoom) == RegionLevel ==> !r
    ensures DisplayLevel(zoom) == CountryLevel ==> (r <==> distance(p1.coords.value, p2.coords.value) <= 500.0)
    ensures DisplayLevel(zoom) == IndividualLevel ==> (r <==> distance(p1.coords.value, p2.coords.value) <= 5.0)
  {
    var d := distance(p1.coords.value, p2.coords.value);
    var key := LevelName(DisplayLevel(zoom));
    key in Thresholds && d <= Thresholds[key]
  }

  /** The 50 km "city" threshold is never consulted: no zoom level is named
      "city". */
  lemma CityThresholdUnused(zoom: int)
    ensures LevelName(DisplayLevel(zoom)) != "city"
    ensures LevelName(DisplayLevel(zoom)) in Thresholds <==> DisplayLevel(zoom) != RegionLevel
  {
  }

  datatype Cluster = Cluster(id: string, members: seq<Entity>, coordinates: LatLng, count: nat)

  function ClusterId(n: nat): string {
    "cluster_" + NatToString(n)
  }

  /** Different numbers give different cluster ids. */
  lemma ClusterIdInjective(m: nat, n: nat)
    requires ClusterId(m) == ClusterId(n)
    ensures m == n
  {
    assert ClusterId(m)[8..] == NatToString(m);
    assert ClusterId(n)[8..] == NatToString(n);
    IntToStringInjective(m, n);
  }

  /** `clusterAlumniByProximity`. Inside the `forEach` callback the name
      `alumni` is the current member, not the array, so the inner search
      loop is bounded by the member's `length`, which is `undefined`, and
      never runs. Each member therefore becomes a cluster of its own, with
      a copy of its coordinates and the id `cluster_k`, k being the number of
      clusters made before it; `processed` only ever holds indices that were
      already visited. */
  method ClusterByProximity(xs: seq<Entity>, zoom: int) returns (cs: seq<Cluster>)
    requires AllPlaced(xs)
    ensures |cs| == |xs|
    ensures forall i :: 0 <= i < |cs| ==>
      cs[i].members == [xs[i]] && cs[i].count == |cs[i].members| && cs[i].coordinates == xs[i].coords.value
    ensures forall i :: 0 <= i < |cs| ==> cs[i].id == ClusterId(i)
    ensures forall i, j :: 0 <= i < j < |cs| ==> cs[i].id != cs[j].id
  {
    cs := [];
    var processed: set<int> := {};
    var k := 0;
    while k < |xs|
      invariant 0 <= k <= |xs|
      invariant |cs| == k
      invariant forall i :: i in processed <==> 0 <= i < k
      invariant forall i :: 0 <= i < k ==>
        cs[i] == Cluster(ClusterId(i), [xs[i]], xs[i].coords.value, 1)
    {
      if k !in processed {
        var c := Cluster(ClusterId(|cs|), [xs[k]], xs[k].coords.value, 1);
        cs := cs + [c];
        processed := processed + {k};
      }
      k := k + 1;
    }
    forall i, j | 0 <= i < j < |cs| ensures cs[i].id != cs[j].id {
      if cs[i].id == cs[j].id {
        ClusterIdInjective(i, j);
      }
    }
  }

  /** `calculateClusterCenter`: the mean position; None stands for the
      `[NaN, NaN]` of an empty group. */
  function ClusterCenter(xs: seq<Entity>): (r: Option<LatLng>)
    requires AllPlaced(xs)
    ensures r.None? <==> xs == []
    ensures r.Some? ==> r.value.lat * (|xs| as real) == SumAxis(xs, Lat)
    ensures r.Some? ==> r.value.lng * (|xs| as real) == SumAxis(xs, Lng)
  {
    if xs == [] then None else CentroidIsMean(xs); Some(Centroid(xs))
  }

  /** The centre of a group lies in every box that holds all its members. */
  lemma ClusterCenterInBox(xs: seq<Entity>, b: Bounds)
    requires AllPlaced(xs) && xs != []
    requires forall i :: 0 <= i < |xs| ==>
      b.south <= xs[i].coords.value.lat <= b.north && b.west <= xs[i].coords.value.lng <= b.east
    ensures var c := ClusterCenter(xs).value;
      b.south <= c.lat <= b.north && b.west <= c.lng <= b.east
  {
    CentroidWithin(xs, Lat, b.south, b.north);
    CentroidWithin(xs, Lng, b.west, b.east);
  }

  datatype Size = Size(width: nat, height: nat)

  /** `getMarkerSize`: square markers, growing in five bands. */
  function MarkerSize(count: int): (r: Size)
    ensures r.width == r.height
    ensures 40 <= r.width <= 80
    ensures count == 1 ==> r.width == 40
    ensures count != 1 && count <= 5 ==> r.width == 50
    ensures 6 <= count <= 10 ==> r.width == 60
    ensures 11 <= count <= 20 ==> r.width == 70
    ensures count > 20 ==> r.width == 80
  {
    if count == 1 then Size(40, 40)
    else if count <= 5 then Size(50, 50)
    else if count <= 10 then Size(60, 60)
    else if count <= 20 then Size(70, 70)
    else Size(80, 80)
  }

  /** `getClusterColor`: one of five colours, in the bands of the marker
      size. */
  function ClusterColor(count: int): (r: string)
    ensures count == 1 ==> r == "#667eea"
    ensures count != 1 && count <= 5 ==> r == "#4CAF50"
    ensures 6 <= count <= 10 ==> r == "#FF9800"
    ensures 11 <= count <= 20 ==> r == "#F44336"
    ensures count > 20 ==> r == "#9C27B0"
  {
    if count == 1 then "#667eea"
    else if count <= 5 then "#4CAF50"
    else if count <= 10 then "#FF9800"
    else if count <= 20 then "#F44336"
    else "#9C27B0"
  }

  /** For member counts, a larger group never gets a smaller marker. */
  lemma MarkerSizeMonotone(a: int, b: int)
    requires 1 <= a <= b
    ensures MarkerSize(a).width <= MarkerSize(b).width
  {
  }

  /** Size and colour use the same bands: two counts share a colour exactly
      when they share a size. */
  lemma ColorMatchesSize(a: int, b: int)
    ensures ClusterColor(a) == ClusterColor(b) <==> MarkerSize(a) == MarkerSize(b)
  {
  }

  /** A JavaScript value as far as `normalizeCoordinates` looks at it. */
  datatype Value = Num(x: real) | NotNum

  /** `isValidCoordinates`: two numbers within the latitude and longitude
      ranges, edges included. */
  predicate IsValidCoordinates(lat: Value, lng: Value): (r: bool)
    ensures r ==> lat.Num? && lng.Num?
    ensures (&& lat.Num? && lng.Num? && lat.x in {-90.0, 90.0} && lng.x in {-180.0, 180.0}) ==> r
    ensures lat.Num? && lng.Num? && (lat.x > 90.0 || lat.x < -90.0) ==> !r
  {
    lat.Num? && lng.Num? && -90.0 <= lat.x <= 90.0 && -180.0 <= lng.x <= 180.0
  }

  /** `normalizeCoordinates`: a valid pair is kept, anything else (not an
      array, None here; the wrong length; invalid values) becomes `[0, 0]`. */
  function NormalizeCoordinates(coordinates: Option<seq<Value>>): (r: LatLng)
    ensures IsValidCoordinates(Num(r.lat), Num(r.lng))
    ensures coordinates.Some? && |coordinates.value| == 2 && IsValidCoordinates(coordinates.value[0], coordinates.value[1])
      ==> r == LatLng(coordinates.value[0].x, coordinates.value[1].x)
    ensures !(coordinates.Some? && |coordinates.value| == 2 && IsValidCoordinates(coordinates.value[0], coordinates.value[1]))
      ==> r == LatLng(0.0, 0.0)
  {
    if coordinates.Some? && |coordinates.value| == 2 then
      var lat := coordinates.value[0];
      var lng := coordinates.value[1];
      if IsValidCoordinates(lat, lng) then LatLng(lat.x, lng.x) else LatLng(0.0, 0.0)
    else LatLng(0.0, 0.0)
  }

  /** Normalising an already normalised pair changes nothing. */
  lemma NormalizeIdempotent(coordinates: Option<seq<Value>>)
    ensures var r := NormalizeCoordinates(coordinates);
      NormalizeCoordinates(Some([Num(r.lat), Num(r.lng)])) == r
  {
  }
}
