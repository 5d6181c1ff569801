# Alumni map — a Dafny model

The application puts a school's former students ("alumni") on a Leaflet
world map. This project models the logic behind that map:

- **Alumni** (`alumni.dfy`): the member record, coordinates, the viewport
  rectangle, the three-field filter record, and the arithmetic mean of
  positions that several parts of the program compute.
- **GeoBounds** (`geo_bounds.dfy`, `src/utils/geoBounds.js`): which members
  lie inside the viewport; the north/south/east/west bucket of every member
  outside it, counted and listed; the navigation target for a bucket; the
  activation test; and the tooltip text.
- **GeoService** (`geo_service.dfy`, `src/services/geoService.js`): the
  zoom-to-level mapping, the proximity test and clustering, cluster centres,
  marker sizes and colours, and coordinate validation.
- **AlumniService** (`alumni_service.dfy`, `src/services/alumniService.js`):
  filtering, text search, grouping by country, city and region, lookup by id
  and year, and the option lists.
- **BubblesHook** (`bubbles_hook.dfy`, `src/hooks/useDirectionalBubbles.js`):
  the directional-bubble hook as a state machine. Map events, timers firing
  and prop changes are events; `calculateBubbleData` is split into a pure
  decision (`Compute`) and its effect on the state (`Apply`).
- **AlumniMap** (`alumni_map.dfy`, `src/components/AlumniMap.js`): the list
  shown after a filter change, the markers drawn at each zoom level and
  their order, where a click on a marker leads, marker styling, and the
  mode label.
- **AlumniFilters** (`alumni_filters.dfy`, `src/components/AlumniFilters.js`):
  the filter panel's state, the record it reports, its tags and options.
- **Options**, **Text**, **Collections**: the option type; decimal numerals,
  `parseInt`, substring search and string order; and filtering, grouping in
  order of first appearance, and sorting.

Members are compared by value: two records are the same member when every
field is equal. JavaScript compares objects by identity; the program never
relies on the difference, except that the bubble hook matches members by
`id`, which the model does as well.

## Model

| member | source | states |
|---|---|---|
| Alumni.HasActiveFilters | src/components/AlumniMap.js:41 | a filter record is active exactly when it differs from the all-empty record |
| Alumni.CentroidIsMean | src/utils/geoBounds.js:150-151 | the mean position times the number of members gives back the sums of latitudes and longitudes |
| Alumni.CentroidWithin | src/services/alumniService.js:196-198 | the mean of positions that all lie in a band lies in that band |
| Alumni.CentroidAbove | src/utils/geoBounds.js:150-151 | the mean of positions all strictly beyond a line is strictly beyond it |
| Alumni.CentroidOfOne | src/utils/geoBounds.js:150-151 | the mean of one member's position is that position |
| Text.ParseIntRoundTrip | src/services/alumniService.js:72 | reading the decimal text of any integer gives back that integer |
| Text.IntToStringInjective | src/services/geoService.js:73 | different integers have different decimal texts |
| Text.LexTransitive | src/services/alumniService.js:232 | the default string order used by `sort()` is transitive |
| Text.LexTotal | src/services/alumniService.js:232 | any two different strings are ordered one way or the other |
| Collections.WhereTwice | src/services/alumniService.js:66-91 | filtering by one test and then another equals filtering once by both |
| Collections.GroupByKeysDistinct | src/services/alumniService.js:98-116 | grouping into an object keyed by a field yields each key once |
| Collections.GroupByMembersMatch | src/services/alumniService.js:100-116 | each group holds exactly the elements with its key, in input order |
| Collections.GroupByTotal | src/services/alumniService.js:114-115 | the group sizes add up to the number of elements |
| Collections.GroupByCovers | src/services/alumniService.js:103-112 | every element's key has a group |
| Collections.SortByCount | src/components/AlumniMap.js:80 | the comparator sort by count yields a permutation in ascending count order with the same count total |
| Collections.AscendingUnique | src/services/alumniService.js:231-232 | two ascending lists with the same elements are equal |
| GeoBounds.InBounds | src/utils/geoBounds.js:11-25 | false when the point or the bounds are missing; the edges belong to the rectangle, so its corners are inside |
| GeoBounds.VisibleAlumni | src/utils/geoBounds.js:33-44 | the visible members are exactly the members with coordinates inside the bounds; none without bounds |
| GeoBounds.VisibleConcat | src/utils/geoBounds.js:38-43 | the visible members of two lists joined are the two results joined |
| GeoBounds.Classify | src/utils/geoBounds.js:70-86 | a member gets a bucket exactly when it has coordinates outside the bounds, and the north bucket exactly when it lies above the north edge |
| GeoBounds.ClassifySpec | src/utils/geoBounds.js:70-86 | a member gets a bucket exactly when it has coordinates outside the bounds; north and south first, east and west only within the latitude band |
| GeoBounds.NorthWinsOverEast | src/utils/geoBounds.js:77-83 | a member beyond both the north and the east edge is counted north |
| GeoBounds.DirectionalCounts | src/utils/geoBounds.js:52-90 | zero without bounds; otherwise the four counters add up to the number of members with coordinates outside the bounds |
| GeoBounds.AlumniByDirection | src/utils/geoBounds.js:98-137 | empty without bounds; each list is as long as the matching counter and holds only members with coordinates |
| GeoBounds.CountsMatchLists | src/utils/geoBounds.js:52-136 | every directional count is the length of that direction's list |
| GeoBounds.ListsMembers | src/utils/geoBounds.js:116-133 | a direction's list holds exactly the hidden members classified in that direction |
| GeoBounds.ListsConcat | src/utils/geoBounds.js:116-133 | the directional lists of two lists joined are the two lists joined |
| GeoBounds.CountsAddUp | src/utils/geoBounds.js:70-87 | the four counts add up to the number of hidden members with coordinates outside the bounds |
| GeoBounds.ListsPlaced | src/utils/geoBounds.js:116-119 | every member in a directional list has coordinates |
| GeoBounds.OptimalNavigationTarget | src/utils/geoBounds.js:144-169 | null exactly for an empty list; otherwise the members' mean position, their number and the direction, at zoom 8 for one member (at its own position), 6 for two or three, 4 for four to ten, 3 beyond |
| GeoBounds.NavigationZoom | src/utils/geoBounds.js:153-161 | zoom 8 for one member, 6 for two or three, 4 for four to ten, 3 beyond |
| GeoBounds.NavigationZoomCoarsens | src/utils/geoBounds.js:154-161 | more members never give a closer zoom |
| GeoBounds.NavigationHeadsThatWay | src/utils/geoBounds.js:144-151 | the target of a non-empty bucket lies beyond that bucket's edge (and, for east and west, within the latitude band) |
| GeoBounds.ShouldShowBubbles | src/utils/geoBounds.js:178-185 | bubbles are active exactly when zoomed in at least to the minimum and some count is positive |
| GeoBounds.ParseDirection | src/utils/geoBounds.js:195-202 | a key names a direction exactly when it is that direction's key |
| GeoBounds.DirectionName | src/utils/geoBounds.js:195-202 | the four keys get their French names; any other text is used as it is |
| GeoBounds.CountryTallyCorrect | src/utils/geoBounds.js:207-214 | the per-country tally lists each country once, with its number of members, and adds up to the list length |
| GeoBounds.BubbleTooltip | src/utils/geoBounds.js:194-220 | exactly the count headline for an empty list; otherwise the headline, a newline, and the per-country entries joined by ", " |
| GeoBounds.TooltipListsCountries | src/utils/geoBounds.js:207-217 | the tooltip's second line names every country of the list once, each as "country (n)" with n its number of members |
| GeoService.DisplayLevel | src/services/geoService.js:12-16 | countries up to zoom 4, regions from 5 to 7, individual members from 8 |
| GeoService.DisplayLevelMonotone | src/services/geoService.js:12-16 | zooming in never moves to a coarser level; the boundaries lie between 4 and 5 and between 7 and 8 |
| GeoService.SameCluster | src/services/geoService.js:45-60 | within 500 km at country level, 5 km at individual level, never at region level (no threshold of that name) |
| GeoService.CityThresholdUnused | src/services/geoService.js:52-58 | the 50 km "city" threshold is never looked up |
| GeoService.ClusterByProximity | src/services/geoService.js:65-101 | as written every member forms its own cluster with a copy of its position and count 1; the k-th cluster's id is "cluster_k", so the ids are distinct |
| GeoService.ClusterIdInjective | src/services/geoService.js:73 | different cluster numbers give different ids |
| GeoService.ClusterCenter | src/services/geoService.js:106-114 | none (NaN) exactly for an empty group; otherwise the mean position |
| GeoService.ClusterCenterInBox | src/services/geoService.js:106-114 | the centre of a group lies in every box that holds all its members |
| GeoService.MarkerSize | src/services/geoService.js:119-125 | square markers of side 40 for one member, 50 up to 5, 60 up to 10, 70 up to 20 and 80 beyond |
| GeoService.MarkerSizeMonotone | src/services/geoService.js:119-125 | a larger group never gets a smaller marker |
| GeoService.ClusterColor | src/services/geoService.js:130-136 | the five colours for one member, up to 5, up to 10, up to 20 and beyond |
| GeoService.ColorMatchesSize | src/services/geoService.js:119-136 | two counts share a colour exactly when they share a marker size |
| GeoService.IsValidCoordinates | src/services/geoService.js:141-148 | valid only for two numbers; the edges ±90 and ±180 are valid, a latitude beyond ±90 is not |
| GeoService.NormalizeCoordinates | src/services/geoService.js:141-163 | the result is always valid; a valid pair is kept, anything else becomes [0, 0] |
| GeoService.NormalizeIdempotent | src/services/geoService.js:153-163 | normalising a normalised pair changes nothing |
| AlumniService.FilterAlumni | src/services/alumniService.js:66-91 | the three successive filters equal one filter by all non-empty fields, in input order; an empty record keeps the list |
| AlumniService.FilterStages | src/services/alumniService.js:69-88 | each stage skipped for an empty field, the stages together keep exactly the matching members |
| AlumniService.Mentions | src/services/alumniService.js:52-60 | the seven-field test of the search; an empty term is mentioned by every member |
| AlumniService.SearchAlumni | src/services/alumniService.js:46-61 | a blank query returns everyone; otherwise the members one of whose seven fields contains the lower-cased query |
| AlumniService.SearchFindsOccurrence | src/services/alumniService.js:51-60 | a member is found exactly when the query occurs at some position of one of its lower-cased fields |
| AlumniService.GroupByCountry | src/services/alumniService.js:96-120 | each group holds exactly its country's members with a matching positive count, and the table's centre, bounds and zoom or their fallbacks |
| AlumniService.GroupByCountrySpec | src/services/alumniService.js:96-120 | one group per country, holding exactly that country's members with a matching positive count; the counts add up to the list length |
| AlumniService.GroupByCountryCovers | src/services/alumniService.js:100-116 | every member's country has a group |
| AlumniService.CountryFallbacks | src/services/alumniService.js:104-111 | the table's centre, bounds and non-zero zoom are used when present; a missing country, centre or zoom gives [0, 0], no bounds and 6; a zoom of 0 also gives 6 |
| AlumniService.GroupByCity | src/services/alumniService.js:125-147 | each group has a positive count equal to its size and takes its city, country and position from its first member |
| AlumniService.GroupByCitySpec | src/services/alumniService.js:125-147 | one group per "city, country", holding exactly its members, placed at its first member's position; every member's key has a group and the counts add up to the list length |
| AlumniService.RegionKey | src/services/alumniService.js:158-175 | every region key starts with the member's country and an underscore |
| AlumniService.RegionKeyFirstMatch | src/services/alumniService.js:158-175 | a French member goes to the first of Île-de-France, Rhône-Alpes, Nouvelle-Calédonie its city mentions, else to its city; any other member to its country and city |
| AlumniService.ParisBeforeLyon | src/services/alumniService.js:163-166 | the first French area that matches wins |
| AlumniService.RegionPosition | src/services/alumniService.js:185-200 | a lone member's position; otherwise the mean of the members' positions |
| AlumniService.GroupByRegion | src/services/alumniService.js:152-203 | each group holds exactly the members with its key, with a matching positive count, labelled by its first member and placed at the region position |
| AlumniService.GroupByRegionSpec | src/services/alumniService.js:152-203 | region groups have distinct keys and hold exactly the members with that key, with matching positive counts |
| AlumniService.RegionInBox | src/services/alumniService.js:194-200 | a region of located members lies in every box holding them all |
| AlumniService.GetById | src/services/alumniService.js:208-210 | absent exactly when no member has the id; otherwise the first member with it |
| AlumniService.ByGraduationYear | src/services/alumniService.js:215-217 | exactly the members of that year |
| AlumniService.AvailableYears | src/services/alumniService.js:222-225 | each year that occurs, once, newest first |
| AlumniService.AvailableValues | src/services/alumniService.js:230-249 | each value of the field that occurs, once, in ascending order |
| AlumniService.AvailableValuesCanonical | src/services/alumniService.js:230-249 | the option list depends only on which values occur |
| AlumniService.AvailableYearsCanonical | src/services/alumniService.js:222-225 | the year list depends only on which years occur |
| BubblesHook.Unmatched | src/hooks/useDirectionalBubbles.js:91-93 | keeps exactly the members whose id no visible member has |
| BubblesHook.HiddenSpec | src/hooks/useDirectionalBubbles.js:90-93 | a member is hidden exactly when no member inside the bounds shares its id |
| BubblesHook.Compute | src/hooks/useDirectionalBubbles.js:53-134 | clears exactly without map, members or when disabled; computes exactly with a ready map and readable bounds, storing the hidden members' counts and lists, active iff zoomed in enough with something hidden |
| BubblesHook.Apply | src/hooks/useDirectionalBubbles.js:53-134 | only the data, the display flag and the display timer change; a computed or failed run hides the bubbles; the display timer is armed for active data; consistent data stays consistent |
| BubblesHook.RecomputeResets | src/hooks/useDirectionalBubbles.js:53-60 | without map, members or when disabled, the data is cleared and nothing else changes |
| BubblesHook.RecomputeDefers | src/hooks/useDirectionalBubbles.js:63-87 | a map not ready, invalid bounds or a failing `getBounds` leave the state unchanged |
| BubblesHook.RecomputeFails | src/hooks/useDirectionalBubbles.js:126-133 | an exception clears the data and hides the bubbles |
| BubblesHook.RecomputeSucceeds | src/hooks/useDirectionalBubbles.js:89-124 | the hidden members' buckets are stored, active iff zoomed in enough with something hidden; bubbles hidden for now; the display timer armed when active |
| BubblesHook.BucketedMembersAreHidden | src/hooks/useDirectionalBubbles.js:89-97 | every bucketed member is a member beyond that bucket's edge whose id no member in view has |
| BubblesHook.InitialWellformed | src/hooks/useDirectionalBubbles.js:27-31 | the initial state is consistent |
| BubblesHook.ComputeOk | src/hooks/useDirectionalBubbles.js:89-106 | every computed bubble record has counts equal to its list lengths, placed members, and is active only with a positive total |
| BubblesHook.Step | src/hooks/useDirectionalBubbles.js:142-284 | only the events that recompute change the data, and every event keeps consistent data consistent |
| BubblesHook.StepWellformed | src/hooks/useDirectionalBubbles.js:142-284 | every event keeps the bubble data consistent |
| BubblesHook.RunWellformed | src/hooks/useDirectionalBubbles.js:142-284 | any sequence of events keeps the bubble data consistent |
| BubblesHook.ReachableWellformed | src/hooks/useDirectionalBubbles.js:53-284 | every state reachable from the initial one is consistent |
| BubblesHook.ActivityHides | src/hooks/useDirectionalBubbles.js:142-155 | user activity hides the bubbles at once, cancels the display timer and arms the activity timer, keeping the data |
| BubblesHook.ActivityFiresShows | src/hooks/useDirectionalBubbles.js:157-165 | when the activity timer fires the bubbles are shown exactly if they were or the data is active |
| BubblesHook.MapChangeIdempotent | src/hooks/useDirectionalBubbles.js:245-250 | two map changes in a row have the effect of one |
| BubblesHook.BurstCoalesces | src/hooks/useDirectionalBubbles.js:174-184 | any burst of map changes is debounced into the effect of one |
| BubblesHook.QuietPeriodShows | src/hooks/useDirectionalBubbles.js:108-121 | a map change followed by the debounce and the display delay shows active bubbles |
| BubblesHook.QuietPeriodShowsComputed | src/hooks/useDirectionalBubbles.js:89-124 | zoomed in far enough, with a member off-screen whose id no member in view has, the recompute is active and a quiet period after a map change shows the bubbles |
| BubblesHook.InactiveStaysHidden | src/hooks/useDirectionalBubbles.js:142-165 | without a recompute, inactive data is never shown and never changes |
| BubblesHook.DisposeStops | src/hooks/useDirectionalBubbles.js:258-275 | the cleanup removes the listeners and cancels the display and activity delays only; the debounce delay, the poll and the data are kept |
| BubblesHook.DisposedIgnoresMapChange | src/hooks/useDirectionalBubbles.js:174-184 | after the cleanup a map event changes nothing, but a debounce delay armed before it still recomputes |
| BubblesHook.PollNeverListens | src/hooks/useDirectionalBubbles.js:223-256 | a map not ready at mount never gets listeners, however often the poll comes round |
| BubblesHook.ExposedActive | src/hooks/useDirectionalBubbles.js:311 | shown only when the bubbles are displayed and the data is active; consistent shown data has something hidden |
| BubblesHook.TotalHidden | src/hooks/useDirectionalBubbles.js:322 | the sum of the four counters, which for consistent data is the number of listed members |
| BubblesHook.GetBubbleInfo | src/hooks/useDirectionalBubbles.js:287-300 | `hasAlumni` iff the count is positive; the count equals the list length and the country tally total; an unknown direction gives zeros |
| BubblesHook.IsDirectionActive | src/hooks/useDirectionalBubbles.js:303-305 | a direction is active iff the data is active and that direction's list is not empty |
| BubblesHook.HasAnyBubbles | src/hooks/useDirectionalBubbles.js:322-323 | some bubble exists iff the hidden total is positive |
| BubblesHook.ExposedHasDirection | src/hooks/useDirectionalBubbles.js:311 | when the bubbles are shown, some direction is active |
| BubblesHook.Navigate | src/hooks/useDirectionalBubbles.js:187-214 | navigation succeeds iff there is a map and the direction's list is not empty, and then flies to the optimal navigation target of that list (its mean position, at the zoom of its size band) |
| BubblesHook.NavigateHeadsThatWay | src/hooks/useDirectionalBubbles.js:187-214 | after a recompute, navigating to a non-empty bucket flies beyond that bucket's edge |
| AlumniMap.DisplayedAlumni | src/components/AlumniMap.js:36-51 | the shown list is the service filter of the full list (the shortcut for no filter agrees with it) |
| AlumniMap.ClearingFiltersRestoresAll | src/components/AlumniMap.js:36-51 | clearing every filter shows the full list again; filtering never adds members |
| AlumniMap.UpdateMarkers | src/components/AlumniMap.js:357-386 | no markers without a map or data; otherwise the mode follows the zoom and country or region groups are drawn smallest first, or one card for exactly each member with a position (all members when all have one) |
| AlumniMap.MarkersCountEveryone | src/components/AlumniMap.js:76-104 | when every member has a position, at every level the numbers on the markers add up to the number of members shown |
| AlumniMap.MarkersShowEveryone | src/components/AlumniMap.js:76-104 | when every member has a position, at every level each member shown is counted on some marker |
| AlumniMap.UnplacedMemberNotDrawn | src/components/AlumniMap.js:304-347 | a member without a position gets no card at the individual level, and at region level the region marker holding it has no position for `L.marker` |
| AlumniMap.CountryClick | src/components/AlumniMap.js:176-187 | a lone member is shown at its own position at the individual level; a larger country at region level around its centre |
| AlumniMap.RegionClick | src/components/AlumniMap.js:281-286 | a region click shows the region's position at the individual level |
| AlumniMap.ClickZoomsIn | src/components/AlumniMap.js:176-286 | a click always moves to a closer level, and a one-member marker leads to that member at zoom 8 |
| AlumniMap.StyleOf | src/components/AlumniMap.js:111-170 | stacking order 1000 + count and offset 100 × count; intensity count/20 up to 20 members, then 1; opacities within [0.7, 1] and [0.8, 1]; the marker size of the count; font at least 14 px |
| AlumniMap.LargerGroupsOnTop | src/components/AlumniMap.js:113-117 | a larger group is stacked above a smaller one, no less opaque and no smaller |
| AlumniMap.ModeLabel | src/components/AlumniMap.js:583 | "Pays" exactly for "country", "Ville" exactly for "city", "Individuel" for anything else |
| AlumniMap.RegionModeReadsIndividual | src/components/AlumniMap.js:583 | the mode label never reads "Ville"; it reads "Pays" iff zoom is 4 or less; the region view reads "Individuel" |
| AlumniFilters.Set | src/components/AlumniFilters.js:24-31 | the chosen field takes the value and the other two keep theirs |
| AlumniFilters.SetLaws | src/components/AlumniFilters.js:24-31 | setting a field to its own value changes nothing; a later setting overrides an earlier one |
| AlumniFilters.OptionsOf | src/components/AlumniFilters.js:12-22 | the years that occur newest first, the countries and types that occur in ascending order, each once |
| AlumniFilters.HandleFilterChange | src/components/AlumniFilters.js:24-31 | the new state is reported as it is, with only the chosen field changed |
| AlumniFilters.ClearAllFilters | src/components/AlumniFilters.js:33-41 | every field becomes empty, so no filter is active, and that record is reported |
| AlumniFilters.Tags | src/components/AlumniFilters.js:119-155 | one tag exactly for each non-empty field |
| AlumniFilters.TagsShownIffActive | src/components/AlumniFilters.js:119-120 | the tag area shows exactly when a filter is active |
| AlumniFilters.RemoveTagKeepsOthers | src/components/AlumniFilters.js:126-153 | removing a tag removes that tag only |
| AlumniFilters.YearOptionSelectsThatYear | src/components/AlumniFilters.js:72-81 | choosing a year option keeps exactly that year's members, and some member if the year was offered |
| AlumniFilters.CountryOptionSelectsThatCountry | src/components/AlumniFilters.js:85-98 | choosing an offered country keeps exactly, and at least one of, that country's members |

The hook's cleanup stops only the map listeners and the display and
activity delays. A pending debounce delay and the readiness poll keep
running after it (`BubblesHook.DisposeStops`,
`BubblesHook.DisposedIgnoresMapChange`).

## Left out

- The haversine distance (`calculateDistance`, `toRadians`) uses floating-point trigonometry; it is a parameter of `GeoService.SameCluster`.
- GeoService.SameCluster: requires both members to have coordinates; the source throws a TypeError otherwise, and that error path is not modelled.
- GeoService.ClusterByProximity: requires every member to have coordinates, because copying missing coordinates throws in the source.
- GeoService.ClusterCenter: requires every member to have coordinates. In the source a member with no coordinate array makes `a.coordinates[0]` throw a TypeError, and an array too short gives NaN; neither path is modelled.
- GeoBounds.OptimalNavigationTarget: requires every member to have coordinates. This always holds for the directional lists it is called with (`GeoBounds.ListsPlaced`).
- AlumniMap.UpdateMarkers: at region level the model still lists every region group. In the source a member without a position breaks the region view: `getAlumniByRegion` throws on it in a group of two or more, and otherwise `L.marker` throws on the region's missing position in `createRegionMarker`, uncaught, so the larger regions sorted after it are not drawn. `AlumniMap.UnplacedMemberNotDrawn` states where the position is missing; the interrupted drawing is not modelled.
- GeoService.DisplayLevel, GeoBounds.ShouldShowBubbles and AlumniMap.UpdateMarkers take the zoom as an integer, which is what Leaflet reports with its default zoom snapping. Fractional zooms are not modelled.
- AlumniService.SearchAlumni: the seven searched fields are always strings here. In the source a member lacking one of them makes `toLowerCase` throw a TypeError; that path is not modelled.
- Real numbers stand for JavaScript doubles. Rounding, NaN and infinities are not modelled. A group's NaN or `undefined` position is represented as an absent position.
- AlumniService.FilterAlumni: the year filter parses the text strictly (optional minus sign, then digits only). JavaScript's `parseInt` also accepts leading spaces, a plus sign and trailing junk. The two agree on every option the panel offers (`AlumniFilters.YearOptionSelectsThatYear`).
- `toLowerCase` is a parameter of the search, since Unicode case mapping is not modelled.
- String order is code-point order. JavaScript's default `sort()` compares UTF-16 code units, and the two orders differ only above U+FFFF.
- JavaScript objects enumerate integer-like keys first and can clash with prototype keys. Groups, tallies and counts are kept here in order of first appearance, without that reordering.
- `loadData`, the singleton and `getAllAlumni` are left out: the data comes from a JSON fetch. The model takes the member list as input.
- `getStatistics` is left out: it only counts lists and takes `Math.min`/`Math.max` of the years.
- Leaflet and the DOM are left out: marker creation, hover effects, `flyTo`/`setView` animation, card rendering and React scheduling. A rendering is modelled as the sequence of groups or members that get a marker.
- `isUpdating` is left out, as are real timer durations; timers are modelled as pending or not.
- BubblesHook.Step: events that run `calculateBubbleData` carry the outcome of that run as a value. `BubblesHook.ReachableWellformed` ties that value to `BubblesHook.Compute` for the props of the moment.
- The `onNavigate` callback and exceptions thrown by `flyTo` are left out.
- Longitudes are not wrapped at the antimeridian, and neither does the source wrap them.
- The marker click's delayed `setDisplayMode` is the same computation as `AlumniMap.UpdateMarkers` and is not modelled separately.
- Sort stability is not stated: `Collections.SortByCount` promises order and permutation only.
