/** Viewport partitioning (src/utils/geoBounds.js): which members are inside
    the visible rectangle, which compass direction each hidden member lies
    in, where to fly to reach a direction, when the direction indicators are
    worth showing, and their tooltip text. */
module GeoBounds {
  import opened Options
  import opened Alumni
  import opened Text
  import opened Collections

  datatype Direction = North | South | East | West

  /** Per-direction counters, `{north, south, east, west}`. */
  datatype Counts = Counts(north: nat, south: nat, east: nat, west: nat) {

    function Get(d: Direction): nat {
      match d
      case North => north
      case South => south
      case East => east
      case West => west
    }

    /** The sum of the four counters. */
    function Total(): nat {
      north + south + east + west
    }

    /** Adds one to the counter of `d`, if there is one. */
    function Bump(d: Option<Direction>): Counts {
      match d
      case None => this
      case Some(North) => this.(north := north + 1)
      case Some(South) => this.(south := south + 1)
      case Some(East) => this.(east := east + 1)
      case Some(West) => this.(west := west + 1)
    }
  }

  const ZeroCounts := Counts(0, 0, 0, 0)

  /** Per-direction member lists. */
  datatype Lists = Lists(north: seq<Entity>, south: seq<Entity>, east: seq<Entity>, west: seq<Entity>) {

    function Get(d: Direction): seq<Entity> {
      match d
      case North => north
      case South => south
      case East => east
      case West => west
    }

    /** Appends `e` to the list of `d`, if there is one. */
    function Push(d: Option<Direction>, e: Entity): Lists {
      match d
      case None => this
      case Some(North) => this.(north := north + [e])
      case Some(South) => this.(south := south + [e])
      case Some(East) => this.(east := east + [e])
      case Some(West) => this.(west := west + [e])
    }

    function Lengths(): Counts {
      Counts(|north|, |south|, |east|, |west|)
    }
  }

  const EmptyLists := Lists([], [], [], [])

  /** `isInBounds`: the point lies in the closed rectangle; false when the
      point or the bounds are missing. The edges belong to the rectangle, so
      each corner of a well-formed rectangle is inside it. */
  predicate InBounds(coords: Option<LatLng>, bounds: Option<Bounds>): (r: bool)
    ensures r ==> coords.Some? && bounds.Some?
    ensures (&& bounds.Some? && bounds.value.south <= bounds.value.north && bounds.value.west <= bounds.value.east
             && coords.Some? && coords.value.lat in {bounds.value.south, bounds.value.north}
             && coords.value.lng in {bounds.value.west, bounds.value.east}) ==> r
  {
    && coords.Some?
    && bounds.Some?
    && bounds.value.south <= coords.value.lat <= bounds.value.north
    && bounds.value.west <= coords.value.lng <= bounds.value.east
  }

  function KeepInBounds(b: Bounds, xs: seq<Entity>): (r: seq<Entity>)
    ensures |r| <= |xs|
    ensures forall e | e in r :: e in xs && InBounds(e.coords, Some(b))
    ensures forall e | e in xs && InBounds(e.coords, Some(b)) :: e in r
  {
    if xs == [] then []
    else
      assert xs == [xs[0]] + xs[1..];
      (if InBounds(xs[0].coords, Some(b)) then [xs[0]] else []) + KeepInBounds(b, xs[1..])
  }

  /** `getVisibleAlumni`: the members with a coordinate pair inside the
      bounds, in input order; nothing without bounds. */
  function VisibleAlumni(bounds: Option<Bounds>, xs: seq<Entity>): (r: seq<Entity>)
    ensures |r| <= |xs|
    ensures forall e | e in r :: e in xs && Placed(e) && InBounds(e.coords, bounds)
    ensures forall e | e in xs && InBounds(e.coords, bounds) :: e in r
    ensures bounds.None? ==> r == []
  {
    if bounds.None? || xs == [] then [] else KeepInBounds(bounds.value, xs)
  }

  /** Visibility is decided member by member: the visible part of a
      concatenation is the concatenation of the visible parts, so the
      result keeps input order. */
  lemma {:induction false} VisibleConcat(bounds: Option<Bounds>, xs: seq<Entity>, ys: seq<Entity>)
    ensures VisibleAlumni(bounds, xs + ys) == VisibleAlumni(bounds, xs) + VisibleAlumni(bounds, ys)
  {
    if bounds.Some? {
      KeepConcat(bounds.value, xs, ys);
    }
  }

  lemma {:induction false} KeepConcat(b: Bounds, xs: seq<Entity>, ys: seq<Entity>)
    ensures KeepInBounds(b, xs + ys) == KeepInBounds(b, xs) + KeepInBounds(b, ys)
  {
    if xs != [] {
      assert (xs + ys)[0] == xs[0];
      assert (xs + ys)[1..] == xs[1..] + ys;
      KeepConcat(b, xs[1..], ys);
    } else {
      assert xs + ys == ys;
    }
  }

  /** The direction bucket of one member: the first of lat > north,
      lat < south, lng > east, lng < west that holds; none for a member
      without coordinates or inside the bounds. */
  function Classify(b: Bounds, e: Entity): (r: Option<Direction>)
    ensures r.Some? <==> Placed(e) && !InBounds(e.coords, Some(b))
    ensures r == Some(North) <==> Placed(e) && e.coords.value.lat > b.north
  {
    if e.coords.None? then None
    else
      var p := e.coords.value;
      if p.lat > b.north then Some(North)
      else if p.lat < b.south then Some(South)
      else if p.lng > b.east then Some(East)
      else if p.lng < b.west then Some(West)
      else None
  }

  /** A member gets a bucket exactly when it has coordinates and lies
      outside the bounds; the bucket it gets is the first edge it is beyond,
      checking north, south, east, west in that order. */
  lemma ClassifySpec(b: Bounds, e: Entity)
    ensures Classify(b, e).Some? <==> Placed(e) && !InBounds(e.coords, Some(b))
    ensures Classify(b, e) == Some(North) <==> Placed(e) && e.coords.value.lat > b.north
    ensures Classify(b, e) == Some(South) <==>
      Placed(e) && b.south > e.coords.value.lat && e.coords.value.lat <= b.north
    ensures Classify(b, e) == Some(East) <==>
      Placed(e) && b.south <= e.coords.value.lat <= b.north && e.coords.value.lng > b.east
    ensures Classify(b, e) == Some(West) <==>
      Placed(e) && b.south <= e.coords.value.lat <= b.north
      && b.west > e.coords.value.lng && e.coords.value.lng <= b.east
  {
  }

  function CountFold(b: Bounds, xs: seq<Entity>): Counts {
    if xs == [] then ZeroCounts else CountFold(b, xs[..|xs| - 1]).Bump(Classify(b, xs[|xs| - 1]))
  }

  function ListFold(b: Bounds, xs: seq<Entity>): Lists {
    if xs == [] then EmptyLists else ListFold(b, xs[..|xs| - 1]).Push(Classify(b, xs[|xs| - 1]), xs[|xs| - 1])
  }

  /** `calculateDirectionalCounts`: every member with coordinates outside
      the bounds is counted once, in its bucket; nothing without bounds. */
  function DirectionalCounts(bounds: Option<Bounds>, hidden: seq<Entity>): (r: Counts)
    ensures bounds.None? ==> r == ZeroCounts
    ensures bounds.Some? ==> r.Total() == OutsideCount(bounds.value, hidden)
  {
    if bounds.None? || hidden == [] then ZeroCounts
    else
      CountFoldTotal(bounds.value, hidden);
      CountFold(bounds.value, hidden)
  }

  /** `getAlumniByDirection`: the lists the counters count, made of members
      with coordinates; nothing without bounds. */
  function AlumniByDirection(bounds: Option<Bounds>, hidden: seq<Entity>): (r: Lists)
    ensures bounds.None? ==> r == EmptyLists
    ensures r.Lengths() == DirectionalCounts(bounds, hidden)
    ensures forall d :: AllPlaced(r.Get(d))
  {
    if bounds.None? || hidden == [] then
      assert forall d :: EmptyLists.Get(d) == [];
      EmptyLists
    else
      FoldsAgree(bounds.value, hidden);
      ListFoldPlaced(bounds.value, hidden);
      ListFold(bounds.value, hidden)
  }

  lemma {:induction false} FoldsAgree(b: Bounds, xs: seq<Entity>)
    ensures CountFold(b, xs) == ListFold(b, xs).Lengths()
  {
    if xs != [] {
      FoldsAgree(b, xs[..|xs| - 1]);
    }
  }

  /** The counting and the listing versions agree: every counter is the
      length of the corresponding list. */
  lemma CountsMatchLists(bounds: Option<Bounds>, hidden: seq<Entity>)
    ensures DirectionalCounts(bounds, hidden) == AlumniByDirection(bounds, hidden).Lengths()
    ensures forall d :: DirectionalCounts(bounds, hidden).Get(d) == |AlumniByDirection(bounds, hidden).Get(d)|
  {
    if bounds.Some? && hidden != [] {
      FoldsAgree(bounds.value, hidden);
    }
  }

  lemma {:induction false} ListFoldMembers(b: Bounds, xs: seq<Entity>, d: Direction)
    ensures forall e | e in ListFold(b, xs).Get(d) :: e in xs && Classify(b, e) == Some(d)
    ensures forall e | e in xs && Classify(b, e) == Some(d) :: e in ListFold(b, xs).Get(d)
  {
    if xs != [] {
      ListFoldMembers(b, xs[..|xs| - 1], d);
      assert xs == xs[..|xs| - 1] + [xs[|xs| - 1]];
    }
  }

  /** A member is in the list of direction `d` exactly when it is one of
      the hidden members and `d` is its bucket; since `Classify` gives one
      bucket at most, no member is in two lists. */
  lemma ListsMembers(bounds: Option<Bounds>, hidden: seq<Entity>, d: Direction)
    requires bounds.Some?
    ensures forall e | e in AlumniByDirection(bounds, hidden).Get(d) ::
      e in hidden && Classify(bounds.value, e) == Some(d)
    ensures forall e | e in hidden && Classify(bounds.value, e) == Some(d) ::
      e in AlumniByDirection(bounds, hidden).Get(d)
  {
    ListFoldMembers(bounds.value, hidden, d);
  }

  lemma {:induction false} ListFoldConcat(b: Bounds, xs: seq<Entity>, ys: seq<Entity>, d: Direction)
    ensures ListFold(b, xs + ys).Get(d) == ListFold(b, xs).Get(d) + ListFold(b, ys).Get(d)
    decreases |ys|
  {
    if ys == [] {
      assert xs + ys == xs;
    } else {
      var init := ys[..|ys| - 1];
      assert (xs + ys)[..|xs + ys| - 1] == xs + init;
      assert (xs + ys)[|xs + ys| - 1] == ys[|ys| - 1];
      ListFoldConcat(b, xs, init, d);
    }
  }

  /** Each list keeps input order: the list of a concatenation is the
      concatenation of the lists. */
  lemma ListsConcat(b: Bounds, xs: seq<Entity>, ys: seq<Entity>, d: Direction)
    ensures AlumniByDirection(Some(b), xs + ys).Get(d)
         == AlumniByDirection(Some(b), xs).Get(d) + AlumniByDirection(Some(b), ys).Get(d)
  {
    ListFoldConcat(b, xs, ys, d);
    if xs == [] {
      assert xs + ys == ys;
    }
    if ys == [] {
      assert xs + ys == xs;
    }
  }

  /** The number of members with coordinates outside the bounds. */
  function OutsideCount(b: Bounds, xs: seq<Entity>): nat {
    if xs == [] then 0
    else
      var last := xs[|xs| - 1];
      OutsideCount(b, xs[..|xs| - 1]) + (if Placed(last) && !InBounds(last.coords, Some(b)) then 1 else 0)
  }

  lemma {:induction false} CountFoldTotal(b: Bounds, xs: seq<Entity>)
    ensures CountFold(b, xs).Total() == OutsideCount(b, xs)
  {
    if xs != [] {
      CountFoldTotal(b, xs[..|xs| - 1]);
      ClassifySpec(b, xs[|xs| - 1]);
    }
  }

  /** No member is lost or counted twice: the four counters add up to the
      number of members that have coordinates outside the bounds. */
  lemma CountsAddUp(b: Bounds, hidden: seq<Entity>)
    ensures DirectionalCounts(Some(b), hidden).Total() == OutsideCount(b, hidden)
  {
    CountFoldTotal(b, hidden);
  }

  lemma {:induction false} ListFoldPlaced(b: Bounds, xs: seq<Entity>)
    ensures forall d :: AllPlaced(ListFold(b, xs).Get(d))
  {
    if xs != [] {
      var init := xs[..|xs| - 1];
      var last := xs[|xs| - 1];
      ListFoldPlaced(b, init);
      forall d ensures AllPlaced(ListFold(b, init).Push(Classify(b, last), last).Get(d)) {
        var before := ListFold(b, init).Get(d);
        var after := ListFold(b, init).Push(Classify(b, last), last).Get(d);
        assert after == before || (after == before + [last] && Placed(last));
      }
    } else {
      assert forall d :: EmptyLists.Get(d) == [];
    }
  }

  /** Every listed member has coordinates. */
  lemma ListsPlaced(bounds: Option<Bounds>, hidden: seq<Entity>, d: Direction)
    ensures AllPlaced(AlumniByDirection(bounds, hidden).Get(d))
  {
  }

  /** A member both north and east of the viewport counts as north. */
  lemma NorthWinsOverEast(e: Entity)
    requires e.coords == Some(LatLng(15.0, 15.0))
    ensures Classify(Bounds(10.0, 0.0, 10.0, 0.0), e) == Some(North)
  {
  }

  /* ---------------------------------------------------------------------
     Navigation target
     --------------------------------------------------------------------- */

  datatype NavTarget = NavTarget(center: LatLng, zoom: int, alumniCount: nat, direction: string)

  /** The zoom chosen for a group of `n` members: 8 for one, 6 for two or
      three, 4 for four to ten, 3 beyond. */
  function NavigationZoom(n: nat): (z: int)
    ensures n == 1 ==> z == 8
    ensures 2 <= n <= 3 ==> z == 6
    ensures 4 <= n <= 10 ==> z == 4
    ensures n > 10 ==> z == 3
  {
    if n == 1 then 8 else if n <= 3 then 6 else if n <= 10 then 4 else 3
  }

  /** `getOptimalNavigationTarget`: null for an empty list, otherwise the
      members' mean position with a zoom chosen by their number. */
  function OptimalNavigationTarget(direction: string, list: seq<Entity>): (r: Option<NavTarget>)
    requires AllPlaced(list)
    ensures r.None? <==> list == []
    ensures r.Some? ==> r.value.alumniCount == |list| && r.value.direction == direction
    ensures r.Some? ==> r.value.zoom == NavigationZoom(|list|) && r.value.zoom in {8, 6, 4, 3}
    ensures 2 <= |list| <= 3 ==> r.Some? && r.value.zoom == 6
    ensures 4 <= |list| <= 10 ==> r.Some? && r.value.zoom == 4
    ensures |list| > 10 ==> r.Some? && r.value.zoom == 3
    ensures r.Some? ==> r.value.center.lat * (|list| as real) == SumAxis(list, Lat)
    ensures r.Some? ==> r.value.center.lng * (|list| as real) == SumAxis(list, Lng)
    ensures |list| == 1 ==> r == Some(NavTarget(list[0].coords.value, 8, 1, direction))
  {
    if list == [] then None
    else
      CentroidIsMean(list);
      assert |list| == 1 ==> list == [list[0]];
      CentroidOfOne(list[0]);
      Some(NavTarget(Centroid(list), NavigationZoom(|list|), |list|, direction))
  }

  /** Larger groups never get a closer zoom. */
  lemma NavigationZoomCoarsens(m: nat, n: nat)
    requires 1 <= m <= n
    ensures NavigationZoom(n) <= NavigationZoom(m)
  {
  }

  /** Flying to a direction's target really moves that way: the centre of
      the north list is north of the viewport, the south one south of it,
      and the east and west ones beyond their edge while level with the
      viewport. */
  lemma NavigationHeadsThatWay(b: Bounds, hidden: seq<Entity>, d: Direction)
    requires AlumniByDirection(Some(b), hidden).Get(d) != []
    ensures
      var list := AlumniByDirection(Some(b), hidden).Get(d);
      AllPlaced(list) &&
      var c := OptimalNavigationTarget(DirectionKey(d), list).value.center;
      match d
      case North => c.lat > b.north
      case South => c.lat < b.south
      case East => c.lng > b.east && b.south <= c.lat <= b.north
      case West => c.lng < b.west && b.south <= c.lat <= b.north
  {
    var list := AlumniByDirection(Some(b), hidden).Get(d);
    ListsPlaced(Some(b), hidden, d);
    ListsMembers(Some(b), hidden, d);
    assert forall i :: 0 <= i < |list| ==> Classify(b, list[i]) == Some(d) by {
      forall i | 0 <= i < |list| ensures Classify(b, list[i]) == Some(d) {
        assert list[i] in list;
      }
    }
    CentroidIsMean(list);
    match d
    case North =>
      CentroidAbove(list, Lat, b.north);
    case South =>
      CentroidBelow(list, Lat, b.south);
    case East =>
      CentroidAbove(list, Lng, b.east);
      CentroidWithin(list, Lat, b.south, b.north);
    case West =>
      CentroidBelow(list, Lng, b.west);
      CentroidWithin(list, Lat, b.south, b.north);
  }

  /* ---------------------------------------------------------------------
     Activation and tooltip
     --------------------------------------------------------------------- */

  /** `shouldShowBubbles(currentZoom, counts, minZoom)`. */
  function ShouldShowBubbles(zoom: int, counts: Counts, minZoom: int): (r: bool)
    ensures r <==> zoom >= minZoom && counts.Total() > 0
  {
    if zoom < minZoom then false
    else counts.north > 0 || counts.south > 0 || counts.east > 0 || counts.west > 0
  }

  /** The key the source uses for a direction. */
  function DirectionKey(d: Direction): string {
    match d
    case North => "north"
    case South => "south"
    case East => "east"
    case West => "west"
  }

  /** The direction a key names, if any. */
  function ParseDirection(key: string): (r: Option<Direction>)
    ensures forall d :: r == Some(d) <==> key == DirectionKey(d)
  {
    if key == "north" then Some(North)
    else if key == "south" then Some(South)
    else if key == "east" then Some(East)
    else if key == "west" then Some(West)
    else None
  }

  /** `directionNames[direction] || direction`. */
  function DirectionName(direction: string): (r: string)
    ensures ParseDirection(direction) == Some(North) ==> r == "nord"
    ensures ParseDirection(direction) == Some(South) ==> r == "sud"
    ensures ParseDirection(direction) == Some(East) ==> r == "est"
    ensures ParseDirection(direction) == Some(West) ==> r == "ouest"
    ensures ParseDirection(direction).None? ==> r == direction
  {
    match ParseDirection(direction)
    case Some(North) => "nord"
    case Some(South) => "sud"
    case Some(East) => "est"
    case Some(West) => "ouest"
    case None => direction
  }

  /** One `(country, count)` entry per group. */
  function TallyOf(gs: seq<Group<string, Entity>>): seq<(string, nat)> {
    if gs == [] then [] else [(gs[0].key, |gs[0].members|)] + TallyOf(gs[1..])
  }

  /** The `reduce` into `acc[alumni.country]` followed by
      `Object.entries`: each country with its number of members, in order
      of first appearance. */
  function CountryTally(list: seq<Entity>): seq<(string, nat)> {
    TallyOf(GroupBy(list, CountryOf))
  }

  function TallySum(t: seq<(string, nat)>): nat {
    if t == [] then 0 else t[0].1 + TallySum(t[1..])
  }

  lemma {:induction false} TallyOfShape(gs: seq<Group<string, Entity>>)
    ensures |TallyOf(gs)| == |gs|
    ensures forall i :: 0 <= i < |gs| ==> TallyOf(gs)[i] == (gs[i].key, |gs[i].members|)
    ensures TallySum(TallyOf(gs)) == Total(gs)
  {
    if gs != [] {
      TallyOfShape(gs[1..]);
    }
  }

  /** The tally names each country of the list once, with the number of
      members from it, and the numbers add up to the list's length. */
  lemma CountryTallyCorrect(list: seq<Entity>)
    ensures TallySum(CountryTally(list)) == |list|
    ensures forall i, j :: 0 <= i < j < |CountryTally(list)| ==> CountryTally(list)[i].0 != CountryTally(list)[j].0
    ensures forall i :: 0 <= i < |CountryTally(list)| ==>
      CountryTally(list)[i].1 == |WithKey(list, CountryOf, CountryTally(list)[i].0)| > 0
  {
    var gs := GroupBy(list, CountryOf);
    TallyOfShape(gs);
    GroupByTotal(list, CountryOf);
    GroupByKeysDistinct(list, CountryOf);
    GroupByMembersMatch(list, CountryOf);
    GroupByNonEmpty(list, CountryOf);
  }

  function Join(parts: seq<string>, sep: string): string {
    if parts == [] then "" else if |parts| == 1 then parts[0] else parts[0] + sep + Join(parts[1..], sep)
  }

  function TallyEntries(t: seq<(string, nat)>): seq<string> {
    if t == [] then [] else [t[0].0 + " (" + NatToString(t[0].1) + ")"] + TallyEntries(t[1..])
  }

  function Headline(direction: string, count: int): string {
    IntToString(count) + " alumni vers le " + DirectionName(direction)
  }

  /** `formatBubbleTooltip`: the headline, followed by a line listing the
      countries of the members, `country (n)` joined by commas, when the list
      is not empty. */
  function BubbleTooltip(direction: string, count: int, list: seq<Entity>): (r: string)
    ensures IsPrefix(Headline(direction, count), r)
    ensures r == Headline(direction, count) <==> list == []
    ensures list != [] ==> r[|Headline(direction, count)|] == '\n'
    ensures list != [] ==> r[|Headline(direction, count)| + 1..] == Join(TallyEntries(CountryTally(list)), ", ")
  {
    var head := Headline(direction, count);
    if |list| > 0 then
      var r := head + "\n" + Join(TallyEntries(CountryTally(list)), ", ");
      assert r[..|head|] == head;
      r
    else head
  }

  lemma {:induction false} TallyEntriesShape(t: seq<(string, nat)>)
    ensures |TallyEntries(t)| == |t|
    ensures forall i :: 0 <= i < |t| ==> TallyEntries(t)[i] == t[i].0 + " (" + NatToString(t[i].1) + ")"
  {
    if t != [] {
      TallyEntriesShape(t[1..]);
    }
  }

  /** The second line of the tooltip names every country of the list once,
      each followed by its number of members in brackets. */
  lemma TooltipListsCountries(direction: string, count: int, list: seq<Entity>)
    requires list != []
    ensures var t := CountryTally(list);
      var es := TallyEntries(t);
      && BubbleTooltip(direction, count, list) == Headline(direction, count) + "\n" + Join(es, ", ")
      && |es| == |t|
      && (forall i, j :: 0 <= i < j < |t| ==> t[i].0 != t[j].0)
      && (forall i :: 0 <= i < |t| ==>
            es[i] == t[i].0 + " (" + NatToString(|WithKey(list, CountryOf, t[i].0)|) + ")")
      && (forall e :: e in list ==> exists i :: 0 <= i < |t| && t[i].0 == e.country)
  {
    var t := CountryTally(list);
    var gs := GroupBy(list, CountryOf);
    var r := BubbleTooltip(direction, count, list);
    var head := Headline(direction, count);
    assert r == r[..|head| + 1] + r[|head| + 1..];
    assert r[..|head| + 1] == head + "\n";
    CountryTallyCorrect(list);
    TallyEntriesShape(t);
    TallyOfShape(gs);
    forall e | e in list ensures exists i :: 0 <= i < |t| && t[i].0 == e.country {
      GroupByCovers(list, CountryOf, e);
      var i :| 0 <= i < |gs| && gs[i].key == CountryOf(e);
      assert t[i].0 == e.country;
    }
  }
}
