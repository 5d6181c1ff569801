/** The directional-indicator hook (src/hooks/useDirectionalBubbles.js) as
    an event-driven state machine. Each timer the hook arms is a flag that
    says whether it is pending; its callback running is an event. The
    props the callbacks read (the map, the member list, the zoom, the
    options) are the `Env` carried by the events that recompute. */
module BubblesHook {
  import opened Options
  import opened Alumni
  import opened Collections
  import opened GeoBounds

  /** What reading the map's bounds yields. `BoundsInvalid` is a null or
      invalid bounds object, `BoundsUnavailable` a `getBounds` that throws,
      and `BoundsMalformed` a bounds object that passes `isValid` but whose
      corners cannot be read, so that the computation itself throws. */
  datatype BoundsRead = BoundsOk(b: Bounds) | BoundsInvalid | BoundsUnavailable | BoundsMalformed

  /** No map instance, one that is not fully initialised, or a ready one. */
  datatype MapHost = NoMap | NotReady | Ready(read: BoundsRead)

  datatype Env = Env(host: MapHost, alumni: seq<Entity>, zoom: int, minZoom: int, disabled: bool)

  /** The `bubbleData` state: counters, lists and the activation flag. */
  datatype BubbleData = BubbleData(counts: Counts, lists: Lists, isActive: bool)

  const Cleared := BubbleData(ZeroCounts, EmptyLists, false)

  datatype HookState = HookState(
    data: BubbleData,
    shouldDisplay: bool,
    displayPending: bool,
    activityPending: bool,
    debouncePending: bool,
    pollPending: bool,
    listening: bool)

  const Initial := HookState(Cleared, false, false, false, false, false, false)

  /* ---------------------------------------------------------------------
     calculateBubbleData
     --------------------------------------------------------------------- */

  /** Some member of `vs` has the id of `e`. */
  predicate SharesId(e: Entity, vs: seq<Entity>) {
    exists i :: 0 <= i < |vs| && vs[i].id == e.id
  }

  /** The members of `xs` whose id matches no member of `vs`, in order. */
  function Unmatched(xs: seq<Entity>, vs: seq<Entity>): (r: seq<Entity>)
    ensures forall e | e in r :: e in xs && !SharesId(e, vs)
    ensures forall e | e in xs && !SharesId(e, vs) :: e in r
  {
    if xs == [] then []
    else
      assert xs == [xs[0]] + xs[1..];
      (if SharesId(xs[0], vs) then [] else [xs[0]]) + Unmatched(xs[1..], vs)
  }

  /** `allAlumni.filter(a => !visible.some(v => v.id === a.id))`. */
  function HiddenOf(b: Bounds, xs: seq<Entity>): seq<Entity> {
    Unmatched(xs, VisibleAlumni(Some(b), xs))
  }

  /** A member is hidden exactly when no member inside the bounds has its
      id; in particular a member inside the bounds is never hidden. */
  lemma HiddenSpec(b: Bounds, xs: seq<Entity>, e: Entity)
    ensures e in HiddenOf(b, xs) <==>
      e in xs && forall v | v in xs && InBounds(v.coords, Some(b)) :: v.id != e.id
  {
    var visible := VisibleAlumni(Some(b), xs);
    if e in xs && !SharesId(e, visible) {
      forall v | v in xs && InBounds(v.coords, Some(b)) ensures v.id != e.id {
        var i :| 0 <= i < |visible| && visible[i] == v;
      }
    }
    if e in xs && SharesId(e, visible) {
      var i :| 0 <= i < |visible| && visible[i].id == e.id;
      assert visible[i] in visible;
    }
  }

  /** What one run of `calculateBubbleData` decides. */
  datatype Outcome =
    | Reset             // no map, no members or disabled: the data is cleared
    | Deferred          // map not ready or bounds unusable: nothing changes
    | Failed            // the computation threw: cleared and hidden
    | Computed(data: BubbleData)

  /** `calculateBubbleData` as a decision: clear without a map, members or
      when disabled; wait while the map or its bounds are not usable; fail
      when reading the corners throws; otherwise bucket the hidden members. */
  function Compute(env: Env): (r: Outcome)
    ensures r == Reset <==> env.host.NoMap? || env.alumni == [] || env.disabled
    ensures r.Computed? <==> !env.disabled && env.alumni != [] && env.host.Ready? && env.host.read.BoundsOk?
    ensures r.Computed? ==>
      var b := env.host.read.b;
      && r.data.counts == DirectionalCounts(Some(b), HiddenOf(b, env.alumni))
      && r.data.lists == AlumniByDirection(Some(b), HiddenOf(b, env.alumni))
      && (r.data.isActive <==> env.zoom >= env.minZoom && r.data.counts.Total() > 0)
  {
    if env.host.NoMap? || env.alumni == [] || env.disabled then Reset
    else if env.host.NotReady? then Deferred
    else
      match env.host.read
      case BoundsInvalid => Deferred
      case BoundsUnavailable => Deferred
      case BoundsMalformed => Failed
      case BoundsOk(b) =>
        var hidden := HiddenOf(b, env.alumni);
        var counts := DirectionalCounts(Some(b), hidden);
        Computed(BubbleData(counts, AlumniByDirection(Some(b), hidden), ShouldShowBubbles(env.zoom, counts, env.minZoom)))
  }

  /** `Object.values(counts).some(count => count > 0)`. */
  predicate AnyCount(c: Counts) {
    c.north > 0 || c.south > 0 || c.east > 0 || c.west > 0
  }

  /** The state after a run of `calculateBubbleData` that decided `o`: a
      display delay is (re)armed only for active data with something hidden.
      Only the data, the display flag and the display delay can change, and
      consistent data stays consistent. */
  function Apply(s: HookState, o: Outcome): (r: HookState)
    ensures r.activityPending == s.activityPending && r.debouncePending == s.debouncePending
    ensures r.pollPending == s.pollPending && r.listening == s.listening
    ensures o.Deferred? ==> r == s
    ensures o.Reset? ==> r == s.(data := Cleared)
    ensures o.Failed? || o.Computed? ==> !r.shouldDisplay
    ensures o.Computed? ==>
      (r.data == o.data && (r.displayPending <==> s.displayPending || (o.data.isActive && AnyCount(o.data.counts))))
    ensures Wellformed(s) && OutcomeOk(o) ==> Wellformed(r)
  {
    assert forall d :: Cleared.lists.Get(d) == [];
    match o
    case Reset => s.(data := Cleared)
    case Deferred => s
    case Failed => s.(data := Cleared, shouldDisplay := false)
    case Computed(d) =>
      if d.isActive && AnyCount(d.counts) then s.(data := d, shouldDisplay := false, displayPending := true)
      else s.(data := d, shouldDisplay := false)
  }

  /** The state after `calculateBubbleData` runs with the props `env`. */
  function Recompute(s: HookState, env: Env): HookState {
    Apply(s, Compute(env))
  }

  /** Without a map, without members or when disabled, a recompute clears
      the data and touches nothing else. */
  lemma RecomputeResets(s: HookState, env: Env)
    requires env.host.NoMap? || env.alumni == [] || env.disabled
    ensures Recompute(s, env) == s.(data := Cleared)
    ensures !Recompute(s, env).data.isActive && Recompute(s, env).data.counts.Total() == 0
  {
  }

  /** A map that is not ready, invalid bounds, or a `getBounds` that throws
      leave the whole state as it was. */
  lemma RecomputeDefers(s: HookState, env: Env)
    requires !env.host.NoMap? && env.alumni != [] && !env.disabled
    requires env.host.NotReady? || env.host.read.BoundsInvalid? || env.host.read.BoundsUnavailable?
    ensures Recompute(s, env) == s
  {
  }

  /** An exception during the computation clears the data and hides the
      indicators; a pending display timer stays armed. */
  lemma RecomputeFails(s: HookState, env: Env)
    requires !env.host.NoMap? && env.alumni != [] && !env.disabled
    requires env.host == Ready(BoundsMalformed)
    ensures Recompute(s, env) == s.(data := Cleared, shouldDisplay := false)
  {
  }

  /** A successful recompute stores the buckets of the hidden members,
      activates them when zoomed in far enough with something hidden, always
      hides the indicators for now, and arms the display timer exactly when
      the new data is active. */
  lemma RecomputeSucceeds(s: HookState, env: Env, b: Bounds)
    requires env.alumni != [] && !env.disabled && env.host == Ready(BoundsOk(b))
    ensures var r := Recompute(s, env);
      && r.data.counts == DirectionalCounts(Some(b), HiddenOf(b, env.alumni))
      && r.data.lists == AlumniByDirection(Some(b), HiddenOf(b, env.alumni))
      && (r.data.isActive <==> env.zoom >= env.minZoom && r.data.counts.Total() > 0)
      && !r.shouldDisplay
      && (r.data.isActive ==> r.displayPending)
      && (!r.data.isActive ==> r.displayPending == s.displayPending)
      && r.activityPending == s.activityPending && r.debouncePending == s.debouncePending
  {
    assert Compute(env).Computed?;
  }

  /** Every member in a bucket after a recompute is one of the members,
      lies beyond that bucket's edge, and shares its id with no member
      inside the bounds. */
  lemma BucketedMembersAreHidden(s: HookState, env: Env, b: Bounds, d: Direction, e: Entity)
    requires env.alumni != [] && !env.disabled && env.host == Ready(BoundsOk(b))
    requires e in Recompute(s, env).data.lists.Get(d)
    ensures e in env.alumni && Classify(b, e) == Some(d)
    ensures forall v | v in env.alumni && InBounds(v.coords, Some(b)) :: v.id != e.id
  {
    var hidden := HiddenOf(b, env.alumni);
    RecomputeSucceeds(s, env, b);
    assert e in AlumniByDirection(Some(b), hidden).Get(d);
    ListsMembers(Some(b), hidden, d);
    HiddenSpec(b, env.alumni, e);
  }

  /* ---------------------------------------------------------------------
     Events
     --------------------------------------------------------------------- */

  /** The events. A callback that runs `calculateBubbleData` carries the
      outcome of that run, which for the props `env` of the moment is
      `Compute(env)`. */
  datatype Event =
    | Refresh(outcome: Outcome)                   // the effect on members, zoom and `disabled`
    | Mount(host: MapHost, outcome: Outcome)      // the effect on the map instance
    | MapChange                                   // a `moveend` or `zoomend` from the map
    | UserActivity                                // `handleUserActivity`
    | DisplayFires                                // the display delay elapses
    | ActivityFires                               // the activity delay elapses
    | DebounceFires(outcome: Outcome)             // the debounce delay elapses
    | PollFires(ready: bool, outcome: Outcome)    // the initialisation poll comes round
    | Dispose                                     // the map effect's cleanup

  /** `handleUserActivity`: hide now, cancel both delays, arm a new
      activity delay. */
  function Activity(s: HookState): HookState {
    s.(shouldDisplay := false, displayPending := false, activityPending := true)
  }

  /** One event. Only the events that run `calculateBubbleData` can change
      the data, and every event keeps consistent data consistent. */
  function Step(s: HookState, ev: Event): (r: HookState)
    ensures ev.MapChange? || ev.UserActivity? || ev.DisplayFires? || ev.ActivityFires? || ev.Dispose? ==>
      r.data == s.data
    ensures Wellformed(s) && EventOk(ev) ==> Wellformed(r)
  {
    match ev
    case Refresh(o) => Apply(s, o)
    case Mount(host, o) =>
      if host.NoMap? then s
      else if host.NotReady? then s.(pollPending := true)
      else Apply(s, o).(listening := true)
    case MapChange =>
      if s.listening then Activity(s).(debouncePending := true) else s
    case UserActivity => Activity(s)
    case DisplayFires =>
      if s.displayPending then s.(displayPending := false, shouldDisplay := true) else s
    case ActivityFires =>
      if !s.activityPending then s
      else if s.data.isActive && AnyCount(s.data.counts) then s.(activityPending := false, shouldDisplay := true)
      else s.(activityPending := false)
    case DebounceFires(o) =>
      if s.debouncePending then Apply(s.(debouncePending := false), o) else s
    case PollFires(ready, o) =>
      if !s.pollPending then s
      else if ready then Apply(s.(pollPending := false), o)
      else s
    case Dispose =>
      s.(listening := false, displayPending := false, activityPending := false)
  }

  function Run(s: HookState, evs: seq<Event>): HookState
    decreases |evs|
  {
    if evs == [] then s else Run(Step(s, evs[0]), evs[1..])
  }

  /** Consistent bubble data: each counter is its list's length, every
      listed member has coordinates, and active data has something to show. */
  predicate DataOk(d: BubbleData) {
    && d.counts == d.lists.Lengths()
    && (forall dir :: AllPlaced(d.lists.Get(dir)))
    && (d.isActive ==> d.counts.Total() > 0)
  }

  predicate OutcomeOk(o: Outcome) {
    o.Computed? ==> DataOk(o.data)
  }

  predicate EventOk(ev: Event) {
    match ev
    case Refresh(o) => OutcomeOk(o)
    case Mount(_, o) => OutcomeOk(o)
    case DebounceFires(o) => OutcomeOk(o)
    case PollFires(_, o) => OutcomeOk(o)
    case _ => true
  }

  predicate Wellformed(s: HookState) {
    DataOk(s.data)
  }

  lemma InitialWellformed()
    ensures Wellformed(Initial)
  {
    assert forall d :: Initial.data.lists.Get(d) == [];
  }

  /** Every outcome `calculateBubbleData` can reach has consistent data. */
  lemma ComputeOk(env: Env)
    ensures OutcomeOk(Compute(env))
  {
    if Compute(env).Computed? {
      var b := env.host.read.b;
      var hidden := HiddenOf(b, env.alumni);
      CountsMatchLists(Some(b), hidden);
      forall d ensures AllPlaced(AlumniByDirection(Some(b), hidden).Get(d)) {
        ListsPlaced(Some(b), hidden, d);
      }
    }
  }

  lemma ApplyWellformed(s: HookState, o: Outcome)
    requires Wellformed(s) && OutcomeOk(o)
    ensures Wellformed(Apply(s, o))
  {
    if !o.Computed? {
      assert forall d :: Cleared.lists.Get(d) == [];
    }
  }

  lemma RecomputeWellformed(s: HookState, env: Env)
    requires Wellformed(s)
    ensures Wellformed(Recompute(s, env))
  {
    ComputeOk(env);
    ApplyWellformed(s, Compute(env));
  }

  /** Every event keeps the data consistent. */
  lemma StepWellformed(s: HookState, ev: Event)
    requires Wellformed(s) && EventOk(ev)
    ensures Wellformed(Step(s, ev))
  {
    match ev
    case Refresh(o) => ApplyWellformed(s, o);
    case Mount(_, o) => ApplyWellformed(s, o);
    case DebounceFires(o) => ApplyWellformed(s.(debouncePending := false), o);
    case PollFires(_, o) => ApplyWellformed(s.(pollPending := false), o);
    case _ =>
  }

  lemma {:induction false} RunWellformed(s: HookState, evs: seq<Event>)
    requires Wellformed(s) && forall i :: 0 <= i < |evs| ==> EventOk(evs[i])
    ensures Wellformed(Run(s, evs))
    decreases |evs|
  {
    if evs != [] {
      StepWellformed(s, evs[0]);
      RunWellformed(Step(s, evs[0]), evs[1..]);
    }
  }

  /** Every state the hook reaches from its initial state is consistent,
      provided each recompute carries an outcome of `Compute`. */
  lemma ReachableWellformed(evs: seq<Event>, envs: seq<Env>)
    requires |envs| == |evs|
    requires forall i :: 0 <= i < |evs| ==> match evs[i]
      case Refresh(o) => o == Compute(envs[i])
      case Mount(_, o) => o == Compute(envs[i])
      case DebounceFires(o) => o == Compute(envs[i])
      case PollFires(_, o) => o == Compute(envs[i])
      case _ => true
    ensures Wellformed(Run(Initial, evs))
  {
    InitialWellformed();
    forall i | 0 <= i < |evs| ensures EventOk(evs[i]) {
      ComputeOk(envs[i]);
    }
    RunWellformed(Initial, evs);
  }

  /** User activity hides the indicators at once, cancels the display
      delay, arms the activity delay and keeps the data. */
  lemma ActivityHides(s: HookState)
    ensures var r := Step(s, UserActivity);
      !ExposedActive(r) && !r.displayPending && r.activityPending && r.data == s.data
  {
  }

  /** When the activity delay elapses the indicators show exactly when they
      were showing or the stored data is active; the data is unchanged. */
  lemma ActivityFiresShows(s: HookState)
    requires s.activityPending && Wellformed(s)
    ensures var r := Step(s, ActivityFires);
      (r.shouldDisplay <==> s.shouldDisplay || s.data.isActive) && r.data == s.data && !r.activityPending
  {
  }

  /** A second map event before the debounce delay elapses changes nothing:
      the earlier pending recompute is replaced by the new one. */
  lemma MapChangeIdempotent(s: HookState)
    ensures Step(Step(s, MapChange), MapChange) == Step(s, MapChange)
  {
  }

  function Repeat(ev: Event, n: nat): (r: seq<Event>)
    ensures |r| == n && forall i :: 0 <= i < n ==> r[i] == ev
  {
    if n == 0 then [] else [ev] + Repeat(ev, n - 1)
  }

  /** A burst of map events leaves one recompute pending, as a single event
      does. */
  lemma {:induction false} BurstCoalesces(s: HookState, n: nat)
    requires n >= 1
    ensures Run(s, Repeat(MapChange, n)) == Step(s, MapChange)
    decreases n
  {
    if n > 1 {
      BurstCoalesces(Step(s, MapChange), n - 1);
      MapChangeIdempotent(s);
      assert Repeat(MapChange, n)[1..] == Repeat(MapChange, n - 1);
    } else {
      assert Repeat(MapChange, 1)[1..] == [];
    }
  }

  /** After a map change, once the debounce and display delays elapse with
      no further activity, the indicators of active data are showing. */
  lemma QuietPeriodShows(s: HookState, o: Outcome)
    requires s.listening && OutcomeOk(o)
    requires o.Computed? && o.data.isActive
    ensures ExposedActive(Run(s, [MapChange, DebounceFires(o), DisplayFires]))
  {
    var evs := [MapChange, DebounceFires(o), DisplayFires];
    assert evs[1..] == [DebounceFires(o), DisplayFires];
    assert evs[1..][1..] == [DisplayFires];
    assert evs[1..][1..][1..] == [];
    var s1 := Step(s, MapChange);
    assert s1.debouncePending;
    var s2 := Step(s1, DebounceFires(o));
    assert s2.data == o.data && s2.displayPending;
    assert Run(s, evs) == Run(s1, evs[1..]) == Run(s2, evs[1..][1..]) == Step(s2, DisplayFires);
  }

  /** The same in terms of the props: zoomed in far enough, with some member
      off-screen whose id no member in view has, the recompute yields active
      data, and a quiet period after a map change shows the indicators. */
  lemma QuietPeriodShowsComputed(s: HookState, env: Env, b: Bounds, e: Entity)
    requires s.listening
    requires !env.disabled && env.host == Ready(BoundsOk(b)) && env.zoom >= env.minZoom
    requires e in env.alumni && Classify(b, e).Some?
    requires forall v | v in env.alumni && InBounds(v.coords, Some(b)) :: v.id != e.id
    ensures Compute(env).Computed? && Compute(env).data.isActive
    ensures ExposedActive(Run(s, [MapChange, DebounceFires(Compute(env)), DisplayFires]))
  {
    var hidden := HiddenOf(b, env.alumni);
    var d := Classify(b, e).value;
    HiddenSpec(b, env.alumni, e);
    ListsMembers(Some(b), hidden, d);
    CountsMatchLists(Some(b), hidden);
    var r := Recompute(s, env);
    RecomputeSucceeds(s, env, b);
    assert e in r.data.lists.Get(d);
    assert r.data.counts.Get(d) > 0;
    assert r.data.counts.Total() > 0;
    ComputeOk(env);
    QuietPeriodShows(s, Compute(env));
  }

  /** Only a recompute can activate the data: starting from inactive data,
      no sequence of user activity, map events, timer expiries or cleanups
      ever exposes the indicators. */
  lemma {:induction false} InactiveStaysHidden(s: HookState, evs: seq<Event>)
    requires !s.data.isActive
    requires forall i :: 0 <= i < |evs| ==>
      evs[i] in {MapChange, UserActivity, DisplayFires, ActivityFires, Dispose}
    ensures !ExposedActive(Run(s, evs))
    ensures Run(s, evs).data == s.data
    decreases |evs|
  {
    if evs != [] {
      assert evs[0] in {MapChange, UserActivity, DisplayFires, ActivityFires, Dispose};
      InactiveStaysHidden(Step(s, evs[0]), evs[1..]);
    }
  }

  /** The map effect's cleanup removes the listeners and cancels the
      display and activity delays only: a pending debounce delay and the
      readiness poll keep running, and the data and display flag are kept. */
  lemma DisposeStops(s: HookState)
    ensures var r := Step(s, Dispose);
      && !r.listening && !r.displayPending && !r.activityPending
      && r.data == s.data && r.shouldDisplay == s.shouldDisplay
      && r.debouncePending == s.debouncePending && r.pollPending == s.pollPending
  {
  }

  /** After the cleanup map events are no longer heard, but a debounce delay
      armed before it still runs `calculateBubbleData`. */
  lemma DisposedIgnoresMapChange(s: HookState, o: Outcome)
    ensures Step(Step(s, Dispose), MapChange) == Step(s, Dispose)
    ensures s.debouncePending ==>
      Step(Step(s, Dispose), DebounceFires(o)) == Apply(Step(s, Dispose).(debouncePending := false), o)
  {
  }

  lemma {:induction false} PollsKeepListening(s: HookState, evs: seq<Event>)
    requires forall i :: 0 <= i < |evs| ==> evs[i].PollFires?
    ensures Run(s, evs).listening == s.listening
    decreases |evs|
  {
    if evs != [] {
      PollsKeepListening(Step(s, evs[0]), evs[1..]);
    }
  }

  /** Listeners are attached only when the map is ready at mount: a map that
      becomes ready through the poll is never listened to, however many
      times the poll comes round. */
  lemma PollNeverListens(s: HookState, o: Outcome, evs: seq<Event>)
    requires !s.listening
    requires forall i :: 0 <= i < |evs| ==> evs[i].PollFires?
    ensures !Run(Step(s, Mount(NotReady, o)), evs).listening
  {
    PollsKeepListening(Step(s, Mount(NotReady, o)), evs);
  }

  /* ---------------------------------------------------------------------
     Derived values and navigation
     --------------------------------------------------------------------- */

  /** The exposed `isActive`: consistent data only shows with something
      hidden. */
  function ExposedActive(s: HookState): (r: bool)
    ensures r ==> s.shouldDisplay && s.data.isActive
    ensures Wellformed(s) && r ==> TotalHidden(s) > 0
  {
    s.shouldDisplay && s.data.isActive
  }

  /** `totalHiddenAlumni`: with consistent data, the number of members in
      the four lists. */
  function TotalHidden(s: HookState): (r: nat)
    ensures r == s.data.counts.Total()
    ensures Wellformed(s) ==>
      r == |s.data.lists.north| + |s.data.lists.south| + |s.data.lists.east| + |s.data.lists.west|
  {
    s.data.counts.north + s.data.counts.south + s.data.counts.east + s.data.counts.west
  }

  /** `counts[direction] || 0` and `alumni[direction] || []`. */
  function CountFor(s: HookState, direction: string): nat {
    match ParseDirection(direction)
    case Some(d) => s.data.counts.Get(d)
    case None => 0
  }

  function ListFor(s: HookState, direction: string): seq<Entity> {
    match ParseDirection(direction)
    case Some(d) => s.data.lists.Get(d)
    case None => []
  }

  datatype BubbleInfo = BubbleInfo(count: nat, alumniList: seq<Entity>, hasAlumni: bool, countries: seq<(string, nat)>)

  /** `getBubbleInfo`. */
  function GetBubbleInfo(s: HookState, direction: string): (r: BubbleInfo)
    ensures r.hasAlumni <==> r.count > 0
    ensures Wellformed(s) ==> r.count == |r.alumniList| == TallySum(r.countries)
    ensures ParseDirection(direction).None? ==> r == BubbleInfo(0, [], false, [])
  {
    var list := ListFor(s, direction);
    CountryTallyCorrect(list);
    assert list == [] ==> CountryTally(list) == [];
    BubbleInfo(CountFor(s, direction), list, CountFor(s, direction) > 0, CountryTally(list))
  }

  /** `isDirectionActive`. */
  function IsDirectionActive(s: HookState, direction: string): (r: bool)
    ensures r ==> s.data.isActive && GetBubbleInfo(s, direction).hasAlumni
    ensures r ==> TotalHidden(s) > 0
    ensures Wellformed(s) ==> (r <==> s.data.isActive && ListFor(s, direction) != [])
  {
    s.data.isActive && CountFor(s, direction) > 0
  }

  /** `hasAnyBubbles`. */
  function HasAnyBubbles(s: HookState): (r: bool)
    ensures r <==> TotalHidden(s) > 0
  {
    AnyCount(s.data.counts)
  }

  /** The exposed state is showing only for active data that has somewhere
      to point: some direction is active. */
  lemma ExposedHasDirection(s: HookState)
    requires Wellformed(s) && ExposedActive(s)
    ensures exists d :: IsDirectionActive(s, DirectionKey(d))
  {
    if s.data.counts.north > 0 { assert IsDirectionActive(s, DirectionKey(North)); }
    else if s.data.counts.south > 0 { assert IsDirectionActive(s, DirectionKey(South)); }
    else if s.data.counts.east > 0 { assert IsDirectionActive(s, DirectionKey(East)); }
    else { assert IsDirectionActive(s, DirectionKey(West)); }
  }

  /** `navigateToDirection`: the answer and the target flown to. Without a
      map, for an unknown direction or an empty bucket there is no flight;
      otherwise the map flies to the bucket's navigation target. */
  function Navigate(s: HookState, direction: string, hasMap: bool): (r: (bool, Option<NavTarget>))
    requires Wellformed(s)
    ensures r.0 <==> r.1.Some?
    ensures r.0 <==> hasMap && ListFor(s, direction) != []
    ensures r.1.Some? ==> r.1.value.alumniCount == CountFor(s, direction) && r.1.value.direction == direction
    ensures r.0 ==> AllPlaced(ListFor(s, direction)) && r.1 == OptimalNavigationTarget(direction, ListFor(s, direction))
  {
    var list := ListFor(s, direction);
    if !hasMap || list == [] then (false, None)
    else
      var target := OptimalNavigationTarget(direction, list);
      if target.Some? then (true, target) else (false, None)
  }

  /** Navigating towards a non-empty bucket of data computed for bounds `b`
      heads that way. */
  lemma NavigateHeadsThatWay(s: HookState, env: Env, b: Bounds, d: Direction)
    requires env.alumni != [] && !env.disabled && env.host == Ready(BoundsOk(b))
    requires Wellformed(s)
    requires Recompute(s, env).data.lists.Get(d) != []
    ensures Wellformed(Recompute(s, env)) &&
      var r := Navigate(Recompute(s, env), DirectionKey(d), true);
      && r.0
      && var c := r.1.value.center;
      match d
      case North => c.lat > b.north
      case South => c.lat < b.south
      case East => c.lng > b.east && b.south <= c.lat <= b.north
      case West => c.lng < b.west && b.south <= c.lat <= b.north
  {
    RecomputeWellformed(s, env);
    var hidden := HiddenOf(b, env.alumni);
    RecomputeSucceeds(s, env, b);
    assert Recompute(s, env).data.lists.Get(d) == AlumniByDirection(Some(b), hidden).Get(d);
    NavigationHeadsThatWay(b, hidden, d);
  }
}
