/** What a controller may see: one published snapshot, and the queries it may put to it. */
module Observations {
  import opened Wrappers
  import opened SeatRosters
  import opened Commands
  import opened PlaneArithmetic

  const MAXIMUM_TICK: nat := 9_007_199_254_740_991
  const MAXIMUM_COMPONENT_MAGNITUDE: real := 1_000_000_000_000.0
  /** Seconds in one simulation tick. */
  const FIXED_DELTA: real := 1.0 / 400.0

  datatype TacticalError =
    | RunningTickInvalid | WindowExpiryOverflow | CandidateLimitExceeded | ObjectiveInvalid | ModeUnsupported
    | VectorOutOfRange | ObservationControllerMismatch

  // ---------------------------------------------------------------- half-open windows of ticks

  datatype TickWindow = TickWindow(activation: Tick, expiry: Tick) {
    predicate Contains(tick: Tick) { activation <= tick < expiry }
    predicate Expired(tick: Tick) { tick >= expiry }
  }

  function CreateWindow(activation: Tick, duration: nat): Result<TickWindow, TacticalError> {
    if activation + duration > MAXIMUM_TICK then Failure(WindowExpiryOverflow)
    else Success(TickWindow(activation, activation + duration))
  }

  // ---------------------------------------------------------------- published components

  datatype PhysicsBody = PhysicsBody(position: Vector2, velocity: Vector2, radius: real, isStatic: bool)
  datatype Controllable = Controllable(controllerId: ControllerId, generation: Option<Tick>)
  datatype ShieldWindows = ShieldWindows(protection: TickWindow, cooldown: TickWindow)
  datatype Circle = Circle(center: Vector2, radius: real)

  datatype Entry<+T> = Entry(entity: EntityId, value: T)

  /** A component store: strictly ascending by entity. */
  type Store<T> = seq<Entry<T>>

  ghost predicate ValidStore<T>(s: Store<T>) {
    forall i, j :: 0 <= i < j < |s| ==> s[i].entity < s[j].entity
  }

  /** The first matching entry wins. */
  function Find<T>(s: Store<T>, e: EntityId): (r: Option<T>)
    ensures r.Some? ==> Entry(e, r.value) in s
    ensures r.None? ==> forall x :: x in s ==> x.entity != e
  {
    if s == [] then None else if s[0].entity == e then Some(s[0].value) else Find(s[1..], e)
  }

  lemma FindIsUnique<T>(s: Store<T>, x: Entry<T>)
    requires ValidStore(s) && x in s
    ensures Find(s, x.entity) == Some(x.value)
  {
    var r := Find(s, x.entity);
    assert r.Some?;
    var i :| 0 <= i < |s| && s[i] == x;
    var j :| 0 <= j < |s| && s[j] == Entry(x.entity, r.value);
  }

  /** The entities that carry both components, from one walk over the two stores. */
  function Join<A, B>(a: Store<A>, b: Store<B>): seq<(EntityId, A, B)>
    decreases |a| + |b|
  {
    if a == [] || b == [] then []
    else if a[0].entity < b[0].entity then Join(a[1..], b)
    else if b[0].entity < a[0].entity then Join(a, b[1..])
    else [(a[0].entity, a[0].value, b[0].value)] + Join(a[1..], b[1..])
  }

  ghost predicate AscendingByEntity<A, B>(s: seq<(EntityId, A, B)>) {
    forall i, k :: 0 <= i < k < |s| ==> s[i].0 < s[k].0
  }

  /** The join visits each entity that carries both components exactly once, in ascending order. */
  lemma {:induction false} JoinIsExact<A, B>(a: Store<A>, b: Store<B>)
    requires ValidStore(a) && ValidStore(b)
    ensures forall x :: x in Join(a, b) <==> Entry(x.0, x.1) in a && Entry(x.0, x.2) in b
    ensures AscendingByEntity(Join(a, b))
    decreases |a| + |b|
  {
    forall x ensures x in Join(a, b) <==> Entry(x.0, x.1) in a && Entry(x.0, x.2) in b { JoinHolds(a, b, x); }
    if a != [] && b != [] {
      if a[0].entity < b[0].entity {
        JoinIsExact(a[1..], b);
      } else if b[0].entity < a[0].entity {
        JoinIsExact(a, b[1..]);
      } else {
        JoinIsExact(a[1..], b[1..]);
        var rest := Join(a[1..], b[1..]);
        forall i | 0 <= i < |rest| ensures a[0].entity < rest[i].0 {
          JoinHolds(a[1..], b[1..], rest[i]);
          assert rest[i] in rest;
        }
      }
    }
  }

  lemma {:induction false} JoinHolds<A, B>(a: Store<A>, b: Store<B>, x: (EntityId, A, B))
    requires ValidStore(a) && ValidStore(b)
    ensures x in Join(a, b) <==> Entry(x.0, x.1) in a && Entry(x.0, x.2) in b
    decreases |a| + |b|
  {
    if a != [] && b != [] {
      assert a == [a[0]] + a[1..] && b == [b[0]] + b[1..];
      if a[0].entity < b[0].entity {
        JoinHolds(a[1..], b, x);
      } else if b[0].entity < a[0].entity {
        JoinHolds(a, b[1..], x);
      } else {
        JoinHolds(a[1..], b[1..], x);
        assert x == (a[0].entity, a[0].value, b[0].value) <==> Entry(x.0, x.1) == a[0] && Entry(x.0, x.2) == b[0];
        assert Entry(x.0, x.1) == a[0] ==> Entry(x.0, x.2) !in b[1..];
      }
    }
  }

  datatype MatchPhase = Lobby | Countdown | Running | Ended

  /** Which schema the running mode publishes; only a race publishes anything in it that is read here. */
  datatype ModeState = KingOfTheHill | RoyalePlacements | Race(course: RaceCourse) | NoModeState

  /** The road is the corridor its id names, if the terrain has that corridor. */
  datatype RaceCourse = RaceCourse(road: Option<nat>, checkpoints: seq<Vector2>, checkpointRadius: real)

  datatype Snapshot = Snapshot(
    tick: Tick,
    phase: MatchPhase,
    runningStarted: Tick,
    acceleration: real,
    normalTopSpeed: real,
    mode: ModeState,
    hills: Store<Circle>,
    hillMotions: Store<Vector2>,
    zones: Store<Circle>,
    progress: Store<nat>,
    bodies: Store<PhysicsBody>,
    controllables: Store<Controllable>,
    stuns: Store<TickWindow>,
    shields: Store<ShieldWindows>,
    chargeCooldowns: Store<TickWindow>,
    zoneExposures: Store<()>,
    hillPresences: Store<()>,
    lethals: Store<()>)

  datatype Projection = Projection(point: Vector2, distance: real)

  /** Geometry the terrain queries own. Nothing is assumed about the answers except that a root is a
      root; a corridor is known by its half width and its index. */
  datatype Geometry = Geometry(
    width: real,
    height: real,
    holes: seq<Vector2>,
    corridors: seq<real>,
    root: real -> real,
    supportsPoint: Vector2 -> bool,
    firstSupportExit: (Vector2, Vector2) -> Option<real>,
    centrelineDistance: (nat, Vector2) -> real,
    centrelineProjection: (nat, Vector2) -> Projection)

  ghost predicate IsSquareRoot(root: real -> real) {
    forall s: real {:trigger root(s)} :: s >= 0.0 ==> root(s) >= 0.0 && Square(root(s)) == s
  }

  datatype Observation = Observation(snapshot: Snapshot, geometry: Geometry, controller: ControllerId)
  {
    /** The one body this controller drives: the first entity naming it. */
    function Entity(): Option<EntityId> {
      EntityDrivenBy(snapshot.controllables, controller)
    }
  }

  /** Stores are in order, arena bounds are positive, and roots are roots. */
  ghost predicate ValidObservation(o: Observation) {
    var s := o.snapshot;
    && ValidStore(s.bodies) && ValidStore(s.controllables) && ValidStore(s.stuns) && ValidStore(s.shields)
    && ValidStore(s.chargeCooldowns) && ValidStore(s.zoneExposures) && ValidStore(s.hillPresences)
    && ValidStore(s.lethals)
    && ValidStore(s.hills) && ValidStore(s.hillMotions) && ValidStore(s.zones) && ValidStore(s.progress)
    && (s.mode.Race? && s.mode.course.road.Some? ==> s.mode.course.road.value < |o.geometry.corridors|)
    && o.geometry.width > 0.0 && o.geometry.height > 0.0 && IsSquareRoot(o.geometry.root)
    && s.tick <= MAXIMUM_TICK && s.normalTopSpeed >= 1.0 && s.acceleration >= 0.0
  }

  function EntityDrivenBy(s: Store<Controllable>, c: ControllerId): (r: Option<EntityId>)
    ensures r.Some? ==> exists x :: x in s && x.entity == r.value && x.value.controllerId == c
    ensures r.None? ==> forall x :: x in s ==> x.value.controllerId != c
  {
    if s == [] then None else if s[0].value.controllerId == c then Some(s[0].entity) else EntityDrivenBy(s[1..], c)
  }

  // ---------------------------------------------------------------- steering arithmetic

  function Magnitude(g: Geometry, v: Vector2): real {
    g.root(SquaredMagnitude(v))
  }

  predicate Representable(v: Vector2) {
    && -MAXIMUM_COMPONENT_MAGNITUDE <= v.x <= MAXIMUM_COMPONENT_MAGNITUDE
    && -MAXIMUM_COMPONENT_MAGNITUDE <= v.y <= MAXIMUM_COMPONENT_MAGNITUDE
  }

  lemma MagnitudeIsPositive(g: Geometry, v: Vector2)
    requires IsSquareRoot(g.root)
    ensures Magnitude(g, v) >= 0.0 && Square(Magnitude(g, v)) == SquaredMagnitude(v)
    ensures Magnitude(g, v) == 0.0 <==> v == ZERO_VECTOR
  {
    hide Square, SquaredMagnitude;
    SquaredMagnitudeIsZeroOnlyAtZero(v);
    SquareIsPositive(Magnitude(g, v));
  }
}
