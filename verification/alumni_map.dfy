/** The map component (src/components/AlumniMap.js): the list it shows
    after a filter change, the markers it draws at a zoom level and their
    drawing order, where a click on a marker leads, how a grouped marker is
    styled, and the label of the current mode. Leaflet and the DOM are not
    modelled: a rendering is the sequence of groups or members that receive
    a marker, in the order they are added to the map. */
module AlumniMap {
  import opened Options
  import opened Alumni
  import opened Collections
  import opened GeoService
  import opened AlumniService

  /** `handleFilterChange`: with an active filter the service filters the
      full list; with none the full list is shown as it is. */
  function DisplayedAlumni(all: seq<Entity>, f: Filters): (r: seq<Entity>)
    ensures r == FilterAlumni(all, f)
    ensures forall e :: e in r <==> e in all && Matches(e, f)
    ensures !HasActiveFilters(f) ==> r == all
  {
    if HasActiveFilters(f) then FilterAlumni(all, f) else all
  }

  /** Clearing every filter brings back the whole list. */
  lemma ClearingFiltersRestoresAll(all: seq<Entity>, f: Filters)
    ensures DisplayedAlumni(all, Filters("", "", "")) == all
    ensures |DisplayedAlumni(all, f)| <= |all|
  {
  }

  /** What the map shows after an update. */
  datatype Markers =
    | NoMarkers
    | CountryMarkers(countries: seq<CountryGroup>)
    | RegionMarkers(regions: seq<RegionGroup>)
    | IndividualMarkers(alumni: seq<Entity>)

  /** The markers drawn and the display mode afterwards. */
  datatype MarkerUpdate = MarkerUpdate(markers: Markers, mode: string)

  function CountryCount(g: CountryGroup): int {
    g.count
  }

  function RegionCount(g: RegionGroup): int {
    g.count
  }

  /** `updateMarkersDisplay`. Without a map or without data every marker is
      removed and the mode is left alone. Otherwise the mode follows the
      zoom, and countries or regions are drawn from the smallest group to
      the largest (the larger ones end up on top), or every member with a
      position gets a card of its own: for a member without one, Leaflet
      fails inside `createIndividualMarker`, the failure is caught there
      and no card is added. The `default` branch of the source's `switch`
      cannot be reached: the level is always one of the three names. */
  function UpdateMarkers(hasMap: bool, data: seq<Entity>, zoom: int, mode: string, table: map<string, CountryRef>): (r: MarkerUpdate)
    ensures !hasMap || data == [] ==> r == MarkerUpdate(NoMarkers, mode)
    ensures hasMap && data != [] ==> r.mode == LevelName(DisplayLevel(zoom))
    ensures hasMap && data != [] && DisplayLevel(zoom) == CountryLevel ==>
      && r.markers.CountryMarkers?
      && AscendingBy(r.markers.countries, CountryCount)
      && multiset(r.markers.countries) == multiset(GroupByCountry(data, table))
    ensures hasMap && data != [] && DisplayLevel(zoom) == RegionLevel ==>
      && r.markers.RegionMarkers?
      && AscendingBy(r.markers.regions, RegionCount)
      && multiset(r.markers.regions) == multiset(GroupByRegion(data))
    ensures hasMap && data != [] && DisplayLevel(zoom) == IndividualLevel ==>
      && r.markers.IndividualMarkers?
      && (forall e :: e in r.markers.alumni <==> e in data && Placed(e))
      && (AllPlaced(data) ==> r.markers.alumni == data)
  {
    if !hasMap || data == [] then MarkerUpdate(NoMarkers, mode)
    else
      var level := DisplayLevel(zoom);
      var markers :=
        match level
        case CountryLevel => CountryMarkers(SortByCount(GroupByCountry(data, table), CountryCount))
        case RegionLevel => RegionMarkers(SortByCount(GroupByRegion(data), RegionCount))
        case IndividualLevel => IndividualMarkers(Where(data, Placed));
      if AllPlaced(data) then WhereAll(data, Placed); MarkerUpdate(markers, LevelName(level))
      else MarkerUpdate(markers, LevelName(level))
  }

  /** The number of members the markers stand for: the counts written on
      the grouped markers, or one per member card. */
  function Represented(m: Markers): int {
    match m
    case NoMarkers => 0
    case CountryMarkers(gs) => SumBy(gs, CountryCount)
    case RegionMarkers(gs) => SumBy(gs, RegionCount)
    case IndividualMarkers(xs) => |xs|
  }

  /** Whether some marker stands for `e`. */
  predicate Shows(m: Markers, e: Entity) {
    match m
    case NoMarkers => false
    case CountryMarkers(gs) => exists i :: 0 <= i < |gs| && e in gs[i].members
    case RegionMarkers(gs) => exists i :: 0 <= i < |gs| && e in gs[i].members
    case IndividualMarkers(xs) => e in xs
  }

  lemma {:induction false} CountrySumBy(gs: seq<CountryGroup>)
    ensures SumBy(gs, CountryCount) == CountrySum(gs)
  {
    if gs != [] {
      CountrySumBy(gs[1..]);
    }
  }

  lemma {:induction false} RegionSumBy(gs: seq<Group<string, Entity>>)
    requires forall i :: 0 <= i < |gs| ==> |gs[i].members| > 0
    ensures SumBy(ToRegionGroups(gs), RegionCount) == Total(gs)
  {
    if gs != [] {
      RegionSumBy(gs[1..]);
      assert ToRegionGroups(gs)[1..] == ToRegionGroups(gs[1..]);
    }
  }

  lemma CountryMarkersCount(data: seq<Entity>, table: map<string, CountryRef>)
    ensures SumBy(SortByCount(GroupByCountry(data, table), CountryCount), CountryCount) == |data|
  {
    GroupByCountrySpec(data, table);
    CountrySumBy(GroupByCountry(data, table));
  }

  lemma RegionMarkersCount(data: seq<Entity>)
    ensures SumBy(SortByCount(GroupByRegion(data), RegionCount), RegionCount) == |data|
  {
    GroupByNonEmpty(data, RegionKey);
    GroupByTotal(data, RegionKey);
    RegionSumBy(GroupBy(data, RegionKey));
  }

  /** When every member has a position, the numbers on the markers add up
      to the number of members shown, at every zoom level. */
  lemma MarkersCountEveryone(data: seq<Entity>, zoom: int, mode: string, table: map<string, CountryRef>)
    requires AllPlaced(data)
    ensures Represented(UpdateMarkers(true, data, zoom, mode, table).markers) == |data|
  {
    if data != [] {
      var m := UpdateMarkers(true, data, zoom, mode, table).markers;
      match DisplayLevel(zoom)
      case CountryLevel =>
        assert m == CountryMarkers(SortByCount(GroupByCountry(data, table), CountryCount));
        CountryMarkersCount(data, table);
      case RegionLevel =>
        assert m == RegionMarkers(SortByCount(GroupByRegion(data), RegionCount));
        RegionMarkersCount(data);
      case IndividualLevel =>
    }
  }

  /** At region level, the drawn region marker that holds `e`. */
  lemma RegionMarkerOf(data: seq<Entity>, zoom: int, mode: string, table: map<string, CountryRef>, e: Entity)
    returns (j: nat)
    requires e in data && DisplayLevel(zoom) == RegionLevel
    ensures var m := UpdateMarkers(true, data, zoom, mode, table).markers;
      && m.RegionMarkers?
      && j < |m.regions|
      && e in m.regions[j].members
      && m.regions[j].coordinates == RegionPosition(m.regions[j].members)
  {
    var m := UpdateMarkers(true, data, zoom, mode, table).markers;
    var hs := GroupBy(data, RegionKey);
    GroupByNonEmpty(data, RegionKey);
    GroupByCovers(data, RegionKey, e);
    GroupByMembersMatch(data, RegionKey);
    var gs := GroupByRegion(data);
    var i :| 0 <= i < |hs| && hs[i].key == RegionKey(e);
    assert gs[i].members == hs[i].members;
    assert e in gs[i].members;
    assert gs[i] in multiset(m.regions);
    var k :| 0 <= k < |m.regions| && m.regions[k] == gs[i];
    j := k;
  }

  /** When every member has a position, every member shown is counted on
      some marker, at every zoom level. */
  lemma MarkersShowEveryone(data: seq<Entity>, zoom: int, mode: string, table: map<string, CountryRef>, e: Entity)
    requires AllPlaced(data)
    requires e in data
    ensures Shows(UpdateMarkers(true, data, zoom, mode, table).markers, e)
  {
    var m := UpdateMarkers(true, data, zoom, mode, table).markers;
    match DisplayLevel(zoom)
    case CountryLevel =>
      var gs := GroupByCountry(data, table);
      GroupByCountryCovers(data, table, e);
      GroupByCountrySpec(data, table);
      var i :| 0 <= i < |gs| && gs[i].country == e.country;
      assert e in gs[i].members;
      assert gs[i] in multiset(m.countries);
      var j :| 0 <= j < |m.countries| && m.countries[j] == gs[i];
      assert e in m.countries[j].members;
    case RegionLevel =>
      var j := RegionMarkerOf(data, zoom, mode, table, e);
    case IndividualLevel =>
  }

  /** A member without a position gets no card at the individual level,
      and at region level the region marker holding it has no position
      either, so `L.marker` fails on it. In the source that failure is not
      caught: `getAlumniByRegion` already throws on such a member in a
      group of two or more, and otherwise `createRegionMarker` throws, so
      the region view is not drawn in full. */
  lemma UnplacedMemberNotDrawn(data: seq<Entity>, zoom: int, mode: string, table: map<string, CountryRef>, e: Entity)
    requires e in data && !Placed(e)
    ensures var m := UpdateMarkers(true, data, zoom, mode, table).markers;
      DisplayLevel(zoom) == IndividualLevel ==> !Shows(m, e)
    ensures var m := UpdateMarkers(true, data, zoom, mode, table).markers;
      DisplayLevel(zoom) == RegionLevel ==>
        exists j :: 0 <= j < |m.regions| && e in m.regions[j].members && m.regions[j].coordinates.None?
  {
    if DisplayLevel(zoom) == RegionLevel {
      var m := UpdateMarkers(true, data, zoom, mode, table).markers;
      var j := RegionMarkerOf(data, zoom, mode, table, e);
      var ms := m.regions[j].members;
      var k :| 0 <= k < |ms| && ms[k] == e;
      assert !AllPlaced(ms);
    }
  }

  /** Where `setView` moves the map. A position of None stands for the
      `undefined` or NaN position that makes Leaflet fail. */
  datatype View = View(center: Option<LatLng>, zoom: int)

  /** The click on a country marker: a lone member is shown at zoom 8, at
      its own position; a larger group is shown at zoom 6 around the
      country's reference centre. */
  function CountryClick(g: CountryGroup): (r: View)
    ensures g.count == 1 ==> r.zoom == 8 && DisplayLevel(r.zoom) == IndividualLevel
    ensures g.count == 1 && |g.members| > 0 ==> r.center == g.members[0].coords
    ensures g.count != 1 ==> r == View(Some(g.coordinates), 6) && DisplayLevel(r.zoom) == RegionLevel
  {
    if g.count == 1 then View(if |g.members| > 0 then g.members[0].coords else None, 8)
    else View(Some(g.coordinates), 6)
  }

  /** The click on a region marker: zoom 8 around the region's position. */
  function RegionClick(g: RegionGroup): (r: View)
    ensures r.center == g.coordinates
    ensures DisplayLevel(r.zoom) == IndividualLevel
  {
    View(g.coordinates, 8)
  }

  /** A click always leaves the level its marker belongs to for a closer
      one, and a marker holding one member leads to that member at the
      closest level, whether it is a country or a region marker. */
  lemma ClickZoomsIn(data: seq<Entity>, table: map<string, CountryRef>, i: nat, j: nat)
    requires i < |GroupByCountry(data, table)| && j < |GroupByRegion(data)|
    ensures var c := GroupByCountry(data, table)[i];
      && Rank(DisplayLevel(CountryClick(c).zoom)) > Rank(CountryLevel)
      && (c.count == 1 ==> CountryClick(c) == View(c.members[0].coords, 8))
    ensures var g := GroupByRegion(data)[j];
      && Rank(DisplayLevel(RegionClick(g).zoom)) > Rank(RegionLevel)
      && (g.count == 1 ==> RegionClick(g) == View(g.members[0].coords, 8))
  {
    GroupByCountrySpec(data, table);
    GroupByRegionSpec(data);
  }

  /** The look of a country or region marker. */
  datatype MarkerStyle = MarkerStyle(
    zIndex: int, zIndexOffset: int, intensity: real,
    lightAlpha: real, darkAlpha: real, size: Size, fontSize: real)

  function MinReal(a: real, b: real): real {
    if a <= b then a else b
  }

  function MaxReal(a: real, b: real): real {
    if a >= b then a else b
  }

  /** `createCountryMarker` and `createRegionMarker` style their markers
      alike: the stacking order grows with the count, the colour grows more
      opaque up to 20 members, and the font grows with the marker. */
  function StyleOf(count: int): (r: MarkerStyle)
    ensures count >= 0 ==> 0.0 <= r.intensity <= 1.0
    ensures count >= 0 ==> 0.7 <= r.lightAlpha <= 1.0 && 0.8 <= r.darkAlpha <= 1.0
    ensures count >= 20 ==> r.intensity == 1.0 && r.lightAlpha == 1.0 && r.darkAlpha == 1.0
    ensures r.zIndex > 1000 <==> count > 0
    ensures r.fontSize >= 14.0
    ensures r.zIndex == 1000 + count && r.zIndexOffset == 100 * count
    ensures 0 <= count <= 20 ==> r.intensity * 20.0 == count as real
    ensures r.size == MarkerSize(count)
  {
    var intensity := MinReal(count as real / 20.0, 1.0);
    var size := MarkerSize(count);
    MarkerStyle(
      1000 + count, count * 100, intensity,
      0.7 + intensity * 0.3, 0.8 + intensity * 0.2,
      size, MaxReal(14.0, size.width as real * 0.35))
  }

  /** A group with more members is stacked above one with fewer, is at
      least as opaque, and is drawn no smaller. */
  lemma LargerGroupsOnTop(a: int, b: int)
    requires 1 <= a < b
    ensures StyleOf(a).zIndex < StyleOf(b).zIndex
    ensures StyleOf(a).zIndexOffset < StyleOf(b).zIndexOffset
    ensures StyleOf(a).intensity <= StyleOf(b).intensity
    ensures StyleOf(a).size.width <= StyleOf(b).size.width
    ensures StyleOf(a).fontSize <= StyleOf(b).fontSize
  {
    MarkerSizeMonotone(a, b);
  }

  /** The mode label: only the names "country" and "city" have a label of
      their own; anything else reads "Individuel". */
  function ModeLabel(mode: string): (r: string)
    ensures r in {"Pays", "Ville", "Individuel"}
    ensures r == "Pays" <==> mode == "country"
    ensures r == "Ville" <==> mode == "city"
  {
    if mode == "country" then "Pays"
    else if mode == "city" then "Ville"
    else "Individuel"
  }

  /** For the modes the map actually takes, the label "Ville" never shows,
      and the region view is labelled like the individual one. */
  lemma RegionModeReadsIndividual(zoom: int)
    ensures ModeLabel(LevelName(DisplayLevel(zoom))) != "Ville"
    ensures ModeLabel(LevelName(DisplayLevel(zoom))) == "Pays" <==> zoom <= 4
    ensures DisplayLevel(zoom) == RegionLevel ==> ModeLabel(LevelName(DisplayLevel(zoom))) == "Individuel"
  {
  }
}
