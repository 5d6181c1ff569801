/** The query side of the member service (src/services/alumniService.js):
    filtering, free-text search, grouping by country, city and region,
    lookup, and the option lists. The member list and the country reference
    table are parameters instead of the singleton's fields. */
module AlumniService {
  import opened Options
  import opened Alumni
  import opened Text
  import opened Collections

  /* ---------------------------------------------------------------------
     Filtering and search
     --------------------------------------------------------------------- */

  /** `alumni.graduationYear === parseInt(year)`. */
  predicate YearIs(e: Entity, year: string) {
    ParseInt(year) == Some(e.graduationYear)
  }

  /** A member meets every non-empty field of the filter record. */
  predicate Matches(e: Entity, f: Filters) {
    && (f.graduationYear != "" ==> YearIs(e, f.graduationYear))
    && (f.country != "" ==> e.country == f.country)
    && (f.promotionType != "" ==> e.promotionType == f.promotionType)
  }

  /** `filterAlumni`: the three filters applied one after the other, each
      skipped when its field is empty. The result is the single-pass filter
      by `Matches`, so it keeps input order, and an empty filter record
      returns the list itself. */
  function FilterAlumni(xs: seq<Entity>, f: Filters): (r: seq<Entity>)
    ensures r == Where(xs, (e: Entity) => Matches(e, f))
    ensures f == NoFilters ==> r == xs
  {
    var byYear := if f.graduationYear != "" then Where(xs, (e: Entity) => YearIs(e, f.graduationYear)) else xs;
    var byCountry := if f.country != "" then Where(byYear, (e: Entity) => e.country == f.country) else byYear;
    var r := if f.promotionType != "" then Where(byCountry, (e: Entity) => e.promotionType == f.promotionType) else byCountry;
    FilterStages(xs, f);
    r
  }

  /** The three stages compose into one filter. */
  lemma FilterStages(xs: seq<Entity>, f: Filters)
    ensures
      var byYear := if f.graduationYear != "" then Where(xs, (e: Entity) => YearIs(e, f.graduationYear)) else xs;
      var byCountry := if f.country != "" then Where(byYear, (e: Entity) => e.country == f.country) else byYear;
      var r := if f.promotionType != "" then Where(byCountry, (e: Entity) => e.promotionType == f.promotionType) else byCountry;
      r == Where(xs, (e: Entity) => Matches(e, f))
  {
    var y: Entity -> bool := (e: Entity) => f.graduationYear != "" ==> YearIs(e, f.graduationYear);
    var yc: Entity -> bool := (e: Entity) => y(e) && (f.country != "" ==> e.country == f.country);
    var m: Entity -> bool := (e: Entity) => Matches(e, f);
    var byYear := if f.graduationYear != "" then Where(xs, (e: Entity) => YearIs(e, f.graduationYear)) else xs;
    if f.graduationYear != "" {
      WhereTwice(xs, (e: Entity) => true, (e: Entity) => YearIs(e, f.graduationYear), y);
      WhereAll(xs, (e: Entity) => true);
    } else {
      WhereAll(xs, y);
    }
    assert byYear == Where(xs, y);
    var byCountry := if f.country != "" then Where(byYear, (e: Entity) => e.country == f.country) else byYear;
    if f.country != "" {
      WhereTwice(xs, y, (e: Entity) => e.country == f.country, yc);
    } else {
      WhereTwice(xs, y, (e: Entity) => true, yc);
      WhereAll(Where(xs, y), (e: Entity) => true);
    }
    assert byCountry == Where(xs, yc);
    if f.promotionType != "" {
      WhereTwice(xs, yc, (e: Entity) => e.promotionType == f.promotionType, m);
    } else {
      WhereTwice(xs, yc, (e: Entity) => true, m);
      WhereAll(Where(xs, yc), (e: Entity) => true);
    }
  }

  /** With the empty filter record nothing is removed. */
  lemma NoFiltersKeepsAll(xs: seq<Entity>)
    ensures FilterAlumni(xs, NoFilters) == xs
  {
    WhereAll(xs, (e: Entity) => Matches(e, NoFilters));
  }

  /** `field.toLowerCase().includes(term)` over the seven searchable fields;
      `lower` stands for `String.prototype.toLowerCase`. The empty term
      occurs in every field, so every member mentions it. */
  predicate Mentions(e: Entity, term: string, lower: string -> string): (r: bool)
    ensures term == "" ==> r
  {
    || Contains(lower(e.name), term)
    || Contains(lower(e.firstname), term)
    || Contains(lower(e.location), term)
    || Contains(lower(e.company), term)
    || Contains(lower(e.position), term)
    || Contains(lower(e.country), term)
    || Contains(lower(e.city), term)
  }

  /** `searchAlumni`: every member for a blank query, otherwise those
      mentioning the lower-cased query in one of their fields. */
  function SearchAlumni(xs: seq<Entity>, query: string, lower: string -> string): (r: seq<Entity>)
    ensures IsBlank(query) ==> r == xs
    ensures !IsBlank(query) ==> r == Where(xs, (e: Entity) => Mentions(e, lower(query), lower))
  {
    if IsBlank(query) then xs
    else
      var term := lower(query);
      Where(xs, (e: Entity) => Mentions(e, term, lower))
  }

  /** A member matches a non-blank query exactly when one of its lower-cased
      fields has the lower-cased query at some position. */
  lemma SearchFindsOccurrence(xs: seq<Entity>, query: string, lower: string -> string, e: Entity)
    requires !IsBlank(query) && e in xs
    ensures e in SearchAlumni(xs, query, lower) <==>
      exists field :: field in [e.name, e.firstname, e.location, e.company, e.position, e.country, e.city]
        && exists i :: 0 <= i <= |lower(field)| && IsPrefix(lower(query), lower(field)[i..])
  {
    var term := lower(query);
    var fields := [e.name, e.firstname, e.location, e.company, e.position, e.country, e.city];
    forall field | field in fields
      ensures Contains(lower(field), term) <==> exists i :: 0 <= i <= |lower(field)| && IsPrefix(term, lower(field)[i..])
    {
      ContainsAt(lower(field), term);
    }
    assert Mentions(e, term, lower) <==> exists field :: field in fields && Contains(lower(field), term) by {
      if Mentions(e, term, lower) {
        if Contains(lower(e.name), term) { assert fields[0] == e.name; }
        else if Contains(lower(e.firstname), term) { assert fields[1] == e.firstname; }
        else if Contains(lower(e.location), term) { assert fields[2] == e.location; }
        else if Contains(lower(e.company), term) { assert fields[3] == e.company; }
        else if Contains(lower(e.position), term) { assert fields[4] == e.position; }
        else if Contains(lower(e.country), term) { assert fields[5] == e.country; }
        else { assert fields[6] == e.city; }
      }
    }
  }

  /* ---------------------------------------------------------------------
     Grouping
     --------------------------------------------------------------------- */

  /** One entry of the country reference table; every field may be absent. */
  datatype CountryRef = CountryRef(center: Option<LatLng>, bounds: Option<Bounds>, zoomLevel: Option<int>)

  datatype CountryGroup = CountryGroup(
    country: string, count: nat, members: seq<Entity>,
    coordinates: LatLng, bounds: Option<Bounds>, zoomLevel: int)

  /** `countries[c]?.center || [0, 0]`. */
  function CountryCenter(table: map<string, CountryRef>, c: string): LatLng {
    if c in table && table[c].center.Some? then table[c].center.value else LatLng(0.0, 0.0)
  }

  /** `countries[c]?.zoomLevel || 6`: 0 is falsy, so it also falls back to 6. */
  function CountryZoom(table: map<string, CountryRef>, c: string): int {
    if c in table && table[c].zoomLevel.Some? && table[c].zoomLevel.value != 0 then table[c].zoomLevel.value else 6
  }

  function CountryBounds(table: map<string, CountryRef>, c: string): Option<Bounds> {
    if c in table then table[c].bounds else None
  }

  function ToCountryGroups(gs: seq<Group<string, Entity>>, table: map<string, CountryRef>): (r: seq<CountryGroup>)
    ensures |r| == |gs|
    ensures forall i :: 0 <= i < |gs| ==>
      r[i] == CountryGroup(gs[i].key, |gs[i].members|, gs[i].members,
        CountryCenter(table, gs[i].key), CountryBounds(table, gs[i].key), CountryZoom(table, gs[i].key))
  {
    if gs == [] then []
    else
      var g := gs[0];
      [CountryGroup(g.key, |g.members|, g.members, CountryCenter(table, g.key), CountryBounds(table, g.key), CountryZoom(table, g.key))]
        + ToCountryGroups(gs[1..], table)
  }

  /** `getAlumniByCountry`: one group per country, in order of first
      appearance, holding that country's members, with the reference
      table's centre, bounds and zoom. */
  function GroupByCountry(xs: seq<Entity>, table: map<string, CountryRef>): (r: seq<CountryGroup>)
    ensures forall i :: 0 <= i < |r| ==>
      && r[i].members == WithKey(xs, CountryOf, r[i].country)
      && r[i].count == |r[i].members| > 0
      && r[i].coordinates == CountryCenter(table, r[i].country)
      && r[i].bounds == CountryBounds(table, r[i].country)
      && r[i].zoomLevel == CountryZoom(table, r[i].country)
  {
    GroupByMembersMatch(xs, CountryOf);
    GroupByNonEmpty(xs, CountryOf);
    ToCountryGroups(GroupBy(xs, CountryOf), table)
  }

  function CountrySum(gs: seq<CountryGroup>): nat {
    if gs == [] then 0 else gs[0].count + CountrySum(gs[1..])
  }

  lemma {:induction false} CountrySumIsTotal(gs: seq<Group<string, Entity>>, table: map<string, CountryRef>)
    ensures CountrySum(ToCountryGroups(gs, table)) == Total(gs)
  {
    if gs != [] {
      CountrySumIsTotal(gs[1..], table);
    }
  }

  /** The country groups partition the list: countries are distinct, every
      member's country has a group, each group holds exactly the members from
      its country in input order with a matching count, and the counts add up
      to the list's length. */
  lemma GroupByCountrySpec(xs: seq<Entity>, table: map<string, CountryRef>)
    ensures var r := GroupByCountry(xs, table);
      && (forall i, j :: 0 <= i < j < |r| ==> r[i].country != r[j].country)
      && (forall i :: 0 <= i < |r| ==>
            r[i].members == WithKey(xs, CountryOf, r[i].country) && r[i].count == |r[i].members| > 0)
      && CountrySum(r) == |xs|
  {
    var gs := GroupBy(xs, CountryOf);
    GroupByKeysDistinct(xs, CountryOf);
    GroupByMembersMatch(xs, CountryOf);
    GroupByNonEmpty(xs, CountryOf);
    GroupByTotal(xs, CountryOf);
    CountrySumIsTotal(gs, table);
  }

  /** Every member's country has a group. */
  lemma GroupByCountryCovers(xs: seq<Entity>, table: map<string, CountryRef>, e: Entity)
    requires e in xs
    ensures exists i :: 0 <= i < |GroupByCountry(xs, table)| && GroupByCountry(xs, table)[i].country == e.country
  {
    GroupByCovers(xs, CountryOf, e);
    var gs := GroupBy(xs, CountryOf);
    var i :| 0 <= i < |gs| && gs[i].key == e.country;
    assert GroupByCountry(xs, table)[i].country == e.country;
  }

  /** A group's position, bounds and zoom come from the table when it has
      them, and are `[0, 0]`, absent and 6 otherwise; a zoom of 0 is falsy
      and also falls back to 6. */
  lemma CountryFallbacks(xs: seq<Entity>, table: map<string, CountryRef>, i: nat)
    requires i < |GroupByCountry(xs, table)|
    ensures var g := GroupByCountry(xs, table)[i];
      && (g.country !in table ==> g.coordinates == LatLng(0.0, 0.0) && g.zoomLevel == 6 && g.bounds.None?)
      && (g.country in table && table[g.country].center.Some? ==> g.coordinates == table[g.country].center.value)
      && (g.country in table && table[g.country].center.None? ==> g.coordinates == LatLng(0.0, 0.0))
      && (g.country in table ==> g.bounds == table[g.country].bounds)
      && (g.country in table && table[g.country].zoomLevel == Some(0) ==> g.zoomLevel == 6)
      && (g.country in table && table[g.country].zoomLevel.None? ==> g.zoomLevel == 6)
      && (forall z :: g.country in table && table[g.country].zoomLevel == Some(z) && z != 0 ==> g.zoomLevel == z)
  {
  }

  /** The grouping key of `getAlumniByCity`. */
  function CityKey(e: Entity): string {
    e.city + ", " + e.country
  }

  datatype CityGroup = CityGroup(city: string, country: string, count: nat, members: seq<Entity>, coordinates: Option<LatLng>)

  function ToCityGroups(gs: seq<Group<string, Entity>>): (r: seq<CityGroup>)
    requires forall i :: 0 <= i < |gs| ==> |gs[i].members| > 0
    ensures |r| == |gs|
    ensures forall i :: 0 <= i < |gs| ==>
      var m := gs[i].members;
      r[i] == CityGroup(m[0].city, m[0].country, |m|, m, m[0].coords)
  {
    if gs == [] then []
    else
      var m := gs[0].members;
      [CityGroup(m[0].city, m[0].country, |m|, m, m[0].coords)] + ToCityGroups(gs[1..])
  }

  /** `getAlumniByCity`: groups keyed by "city, country", each labelled and
      placed by its first member. */
  function GroupByCity(xs: seq<Entity>): (r: seq<CityGroup>)
    ensures forall i :: 0 <= i < |r| ==>
      && r[i].count == |r[i].members| > 0
      && r[i].city == r[i].members[0].city
      && r[i].country == r[i].members[0].country
      && r[i].coordinates == r[i].members[0].coords
  {
    GroupByNonEmpty(xs, CityKey);
    ToCityGroups(GroupBy(xs, CityKey))
  }

  function CityCount(g: CityGroup): int {
    g.count
  }

  lemma {:induction false} CitySumIsTotal(gs: seq<Group<string, Entity>>)
    requires forall i :: 0 <= i < |gs| ==> |gs[i].members| > 0
    ensures SumBy(ToCityGroups(gs), CityCount) == Total(gs)
  {
    if gs != [] {
      CitySumIsTotal(gs[1..]);
      assert ToCityGroups(gs)[1..] == ToCityGroups(gs[1..]);
    }
  }

  /** Each city group holds exactly the members with its "city, country"
      key, in input order; it sits at its first member's position (not an
      average); keys are distinct, every member's key has a group, and the
      counts add up to the list's length. */
  lemma GroupByCitySpec(xs: seq<Entity>)
    ensures var r := GroupByCity(xs);
      && (forall i :: 0 <= i < |r| ==>
            && r[i].count == |r[i].members| > 0
            && r[i].members == WithKey(xs, CityKey, CityKey(r[i].members[0]))
            && r[i].coordinates == r[i].members[0].coords
            && r[i].city == r[i].members[0].city)
      && (forall i, j :: 0 <= i < j < |r| ==> CityKey(r[i].members[0]) != CityKey(r[j].members[0]))
      && (forall e :: e in xs ==> exists i :: 0 <= i < |r| && CityKey(r[i].members[0]) == CityKey(e))
      && SumBy(r, CityCount) == |xs|
  {
    var gs := GroupBy(xs, CityKey);
    var r := GroupByCity(xs);
    GroupByNonEmpty(xs, CityKey);
    GroupByMembersMatch(xs, CityKey);
    GroupByKeysDistinct(xs, CityKey);
    forall i | 0 <= i < |gs|
      ensures CityKey(gs[i].members[0]) == gs[i].key
    {
      assert gs[i].members[0] in gs[i].members;
    }
    forall e | e in xs ensures exists i :: 0 <= i < |r| && CityKey(r[i].members[0]) == CityKey(e) {
      GroupByCityCovers(xs, e);
    }
    GroupByCitySum(xs);
  }

  lemma GroupByCityCovers(xs: seq<Entity>, e: Entity)
    requires e in xs
    ensures exists i :: 0 <= i < |GroupByCity(xs)| && CityKey(GroupByCity(xs)[i].members[0]) == CityKey(e)
  {
    var gs := GroupBy(xs, CityKey);
    GroupByNonEmpty(xs, CityKey);
    GroupByMembersMatch(xs, CityKey);
    GroupByCovers(xs, CityKey, e);
    var i :| 0 <= i < |gs| && gs[i].key == CityKey(e);
    assert gs[i].members[0] in gs[i].members;
    assert GroupByCity(xs)[i].members == gs[i].members;
  }

  lemma GroupByCitySum(xs: seq<Entity>)
    ensures SumBy(GroupByCity(xs), CityCount) == |xs|
  {
    GroupByNonEmpty(xs, CityKey);
    GroupByTotal(xs, CityKey);
    CitySumIsTotal(GroupBy(xs, CityKey));
  }

  /** The region key: for France, the first of three metropolitan areas
      whose name occurs in the city, else the city; elsewhere the country and
      the city. Every key starts with the member's country and an
      underscore. */
  function RegionKey(e: Entity): (r: string)
    ensures IsPrefix(e.country + "_", r)
  {
    var key := if e.country == "France" then
      if Contains(e.city, "Paris") || Contains(e.city, "\U{CE}le-de-France") then "France_IleDeFrance"
      else if Contains(e.city, "Lyon") || Contains(e.city, "Rh\U{F4}ne") then "France_RhoneAlpes"
      else if Contains(e.city, "Noum\U{E9}a") || Contains(e.city, "Nouvelle-Cal\U{E9}donie") then "France_NouvelleCaledonie"
      else "France_" + e.city
    else e.country + "_" + e.city;
    assert key[..|e.country + "_"|] == e.country + "_";
    key
  }

  /** Which region a member falls in: for a French member the first area
      whose name its city mentions, in the order Île-de-France, Rhône-Alpes,
      Nouvelle-Calédonie, and otherwise the city itself; for any other
      country, the country and the city. */
  lemma RegionKeyFirstMatch(e: Entity)
    ensures var paris := Contains(e.city, "Paris") || Contains(e.city, "\U{CE}le-de-France");
      var lyon := Contains(e.city, "Lyon") || Contains(e.city, "Rh\U{F4}ne");
      var noumea := Contains(e.city, "Noum\U{E9}a") || Contains(e.city, "Nouvelle-Cal\U{E9}donie");
      && (e.country == "France" && paris ==> RegionKey(e) == "France_IleDeFrance")
      && (e.country == "France" && !paris && lyon ==> RegionKey(e) == "France_RhoneAlpes")
      && (e.country == "France" && !paris && !lyon && noumea ==> RegionKey(e) == "France_NouvelleCaledonie")
      && (e.country == "France" && !paris && !lyon && !noumea ==> RegionKey(e) == "France_" + e.city)
      && (e.country != "France" ==> RegionKey(e) == e.country + "_" + e.city)
  {
  }

  /** The first matching area wins: a French city mentioning both Paris and
      Lyon belongs to Île-de-France. */
  lemma ParisBeforeLyon(e: Entity)
    requires e.country == "France" && e.city == "Paris-Lyon"
    ensures RegionKey(e) == "France_IleDeFrance"
  {
    assert IsPrefix("Paris", e.city);
  }

  datatype RegionGroup = RegionGroup(
    region: string, country: string, mainCity: string, count: nat, members: seq<Entity>, coordinates: Option<LatLng>)

  /** The position of a region group: its single member's, or the mean of
      its members' when there are several. None stands for a group with a
      member lacking a coordinate pair, for which the source yields no
      usable position: a lone member without coordinates leaves `undefined`,
      an array too short gives NaN, and a member without any coordinate
      array in a larger group makes the averaging throw a TypeError. */
  function RegionPosition(m: seq<Entity>): (r: Option<LatLng>)
    requires |m| > 0
    ensures |m| == 1 ==> r == m[0].coords
    ensures |m| > 1 && AllPlaced(m) ==>
      && r.Some?
      && r.value.lat * (|m| as real) == SumAxis(m, Lat)
      && r.value.lng * (|m| as real) == SumAxis(m, Lng)
  {
    if |m| == 1 then m[0].coords
    else if AllPlaced(m) then CentroidIsMean(m); Some(Centroid(m))
    else None
  }

  function ToRegionGroups(gs: seq<Group<string, Entity>>): (r: seq<RegionGroup>)
    requires forall i :: 0 <= i < |gs| ==> |gs[i].members| > 0
    ensures |r| == |gs|
    ensures forall i :: 0 <= i < |gs| ==>
      var m := gs[i].members;
      r[i] == RegionGroup(gs[i].key, m[0].country, m[0].city, |m|, m, RegionPosition(m))
  {
    if gs == [] then []
    else
      var m := gs[0].members;
      [RegionGroup(gs[0].key, m[0].country, m[0].city, |m|, m, RegionPosition(m))] + ToRegionGroups(gs[1..])
  }

  /** `getAlumniByRegion`: one group per region key, holding the members
      with that key, labelled by its first member and placed at
      `RegionPosition`. */
  function GroupByRegion(xs: seq<Entity>): (r: seq<RegionGroup>)
    ensures forall i :: 0 <= i < |r| ==>
      && r[i].members == WithKey(xs, RegionKey, r[i].region)
      && r[i].count == |r[i].members| > 0
      && r[i].country == r[i].members[0].country
      && r[i].mainCity == r[i].members[0].city
      && r[i].coordinates == RegionPosition(r[i].members)
  {
    GroupByNonEmpty(xs, RegionKey);
    GroupByMembersMatch(xs, RegionKey);
    ToRegionGroups(GroupBy(xs, RegionKey))
  }

  /** Region groups have distinct keys and hold exactly the members with
      that key, with a matching positive count. */
  lemma GroupByRegionSpec(xs: seq<Entity>)
    ensures var r := GroupByRegion(xs);
      && (forall i, j :: 0 <= i < j < |r| ==> r[i].region != r[j].region)
      && (forall i :: 0 <= i < |r| ==>
            r[i].members == WithKey(xs, RegionKey, r[i].region) && r[i].count == |r[i].members| > 0)
  {
    GroupByNonEmpty(xs, RegionKey);
    GroupByMembersMatch(xs, RegionKey);
    GroupByKeysDistinct(xs, RegionKey);
  }

  /** A region of located members is placed inside every box that holds
      them all. */
  lemma RegionInBox(m: seq<Entity>, b: Bounds)
    requires |m| > 0 && AllPlaced(m)
    requires forall i :: 0 <= i < |m| ==>
      b.south <= m[i].coords.value.lat <= b.north && b.west <= m[i].coords.value.lng <= b.east
    ensures var c := RegionPosition(m).value;
      b.south <= c.lat <= b.north && b.west <= c.lng <= b.east
  {
    if |m| > 1 {
      CentroidWithin(m, Lat, b.south, b.north);
      CentroidWithin(m, Lng, b.west, b.east);
    }
  }

  /* ---------------------------------------------------------------------
     Lookup and option lists
     --------------------------------------------------------------------- */

  /** The position of the first member with that id, or `|xs|` when there
      is none. */
  function FirstWithId(xs: seq<Entity>, id: int): (k: nat)
    ensures k <= |xs|
    ensures forall j :: 0 <= j < k ==> xs[j].id != id
    ensures k < |xs| ==> xs[k].id == id
  {
    if xs == [] then 0
    else if xs[0].id == id then 0
    else
      assert forall j :: 1 <= j < |xs| ==> xs[j] == xs[1..][j - 1];
      1 + FirstWithId(xs[1..], id)
  }

  /** `getAlumniById`: `find`, the first member with that id. */
  function GetById(xs: seq<Entity>, id: int): (r: Option<Entity>)
    ensures r.None? <==> forall i :: 0 <= i < |xs| ==> xs[i].id != id
    ensures r.Some? ==> exists i ::
      && 0 <= i < |xs| && xs[i] == r.value && r.value.id == id
      && forall j :: 0 <= j < i ==> xs[j].id != id
  {
    var k := FirstWithId(xs, id);
    if k < |xs| then Some(xs[k]) else None
  }

  /** `getAlumniByGraduationYear`. */
  function ByGraduationYear(xs: seq<Entity>, year: int): (r: seq<Entity>)
    ensures forall e | e in r :: e in xs && e.graduationYear == year
    ensures forall e | e in xs && e.graduationYear == year :: e in r
  {
    Where(xs, (e: Entity) => e.graduationYear == year)
  }

  function Years(xs: seq<Entity>): (r: seq<int>)
    ensures |r| == |xs| && forall i :: 0 <= i < |xs| ==> r[i] == xs[i].graduationYear
  {
    if xs == [] then [] else [xs[0].graduationYear] + Years(xs[1..])
  }

  /** The value of one text field of every member, in order. */
  function Field(xs: seq<Entity>, f: Entity -> string): (r: seq<string>)
    ensures |r| == |xs| && forall i :: 0 <= i < |xs| ==> r[i] == f(xs[i])
  {
    if xs == [] then [] else [f(xs[0])] + Field(xs[1..], f)
  }

  /** `getAvailableGraduationYears`: each year once, most recent first. */
  function AvailableYears(xs: seq<Entity>): (r: seq<int>)
    ensures StrictlyDescending(r)
    ensures forall y :: y in r <==> exists i :: 0 <= i < |xs| && xs[i].graduationYear == y
  {
    YearsOccur(xs);
    DistinctDescending(Years(xs))
  }

  /** `[...new Set(xs.map(f))].sort()` for a text field. */
  function AvailableValues(xs: seq<Entity>, f: Entity -> string): (r: seq<string>)
    ensures StrictlyAscending(r)
    ensures forall v :: v in r <==> exists i :: 0 <= i < |xs| && f(xs[i]) == v
  {
    FieldOccurs(xs, f);
    DistinctAscending(Field(xs, f))
  }

  /** `getAvailableCountries`. */
  function AvailableCountries(xs: seq<Entity>): seq<string> {
    AvailableValues(xs, (e: Entity) => e.country)
  }

  /** `getAvailableCompanies`. */
  function AvailableCompanies(xs: seq<Entity>): seq<string> {
    AvailableValues(xs, (e: Entity) => e.company)
  }

  /** `getAvailablePromotionTypes`. */
  function AvailablePromotionTypes(xs: seq<Entity>): seq<string> {
    AvailableValues(xs, (e: Entity) => e.promotionType)
  }

  /** An option list depends only on which values occur: two member lists
      with the same values of the field, in whatever order and number, give
      the same list, with no value twice. */
  lemma AvailableValuesCanonical(xs: seq<Entity>, ys: seq<Entity>, f: Entity -> string)
    requires forall v :: v in Field(xs, f) <==> v in Field(ys, f)
    ensures AvailableValues(xs, f) == AvailableValues(ys, f)
    ensures Distinct(AvailableValues(xs, f))
  {
    FieldOccurs(xs, f);
    FieldOccurs(ys, f);
    AscendingUnique(AvailableValues(xs, f), AvailableValues(ys, f));
    AscendingIsDistinct(AvailableValues(xs, f));
  }

  /** The year list likewise depends only on which years occur. */
  lemma AvailableYearsCanonical(xs: seq<Entity>, ys: seq<Entity>)
    requires forall y :: y in Years(xs) <==> y in Years(ys)
    ensures AvailableYears(xs) == AvailableYears(ys)
  {
    YearsOccur(xs);
    YearsOccur(ys);
    DescendingUnique(AvailableYears(xs), AvailableYears(ys));
  }

  lemma FieldOccurs(xs: seq<Entity>, f: Entity -> string)
    ensures forall v :: v in Field(xs, f) <==> exists i :: 0 <= i < |xs| && f(xs[i]) == v
  {
    var vs := Field(xs, f);
    forall v | v in vs ensures exists i :: 0 <= i < |xs| && f(xs[i]) == v {
      var i :| 0 <= i < |vs| && vs[i] == v;
    }
    forall v | exists i :: 0 <= i < |xs| && f(xs[i]) == v ensures v in vs {
      var i :| 0 <= i < |xs| && f(xs[i]) == v;
      assert vs[i] == v;
    }
  }

  lemma YearsOccur(xs: seq<Entity>)
    ensures forall y :: y in Years(xs) <==> exists i :: 0 <= i < |xs| && xs[i].graduationYear == y
  {
    var ys := Years(xs);
    forall y | y in ys ensures exists i :: 0 <= i < |xs| && xs[i].graduationYear == y {
      var i :| 0 <= i < |ys| && ys[i] == y;
    }
    forall y | exists i :: 0 <= i < |xs| && xs[i].graduationYear == y ensures y in ys {
      var i :| 0 <= i < |xs| && xs[i].graduationYear == y;
      assert ys[i] == y;
    }
  }
}
