/** One pass's objective candidates: the running mode's provider, the shove provider, and terrain screening. */
module TacticalObjectives {
  import opened Wrappers
  import opened Commands
  import opened PlaneArithmetic
  import opened Observations
  import opened NearestOpponents
  import opened TacticalCandidates
  import opened ShoveSetups

  const MAXIMUM_PREDICTION_COUNT: nat := MAXIMUM_CANDIDATE_COUNT + PROVIDER_COUNT * MAXIMUM_CANDIDATE_COUNT

  datatype Disposition = Ready | Waiting | Finished

  datatype Work = Work(raw: nat, screened: nat, predictions: nat)

  const NO_WORK := Work(0, 0, 0)

  datatype Objectives = Objectives(disposition: Disposition, candidates: seq<Candidate>, work: Work)

  datatype Raw = Raw(disposition: Disposition, candidates: seq<Candidate>, predictions: nat)

  // ---------------------------------------------------------------- the mode's own provider

  function Extrapolated(center: Vector2, velocity: Vector2, ticks: nat): Vector2 {
    var seconds := ticks as real * FIXED_DELTA;
    Vector2(center.x + velocity.x * seconds, center.y + velocity.y * seconds)
  }

  /** The future centre of a roaming hill, or its centre when that is not a representable point. */
  function PredictedCenter(center: Vector2, velocity: Vector2, horizon: nat): Vector2 {
    var p := Extrapolated(center, velocity, horizon);
    if Representable(p) then p else center
  }

  /** Where a centre is after so many ticks of its committed velocity. */
  function CenterAfter(center: Vector2, velocity: Vector2, ticks: nat): Vector2 {
    if ticks == 0 then center
    else
      var before := CenterAfter(center, velocity, ticks - 1);
      Vector2(before.x + velocity.x * FIXED_DELTA, before.y + velocity.y * FIXED_DELTA)
  }

  /** The intercept is where the hill's own motion takes it by the horizon, tick by tick, or its centre
      when that is nowhere representable. */
  lemma {:induction false} PredictionFollowsTheMotion(center: Vector2, velocity: Vector2, horizon: nat)
    ensures PredictedCenter(center, velocity, horizon) ==
      if Representable(CenterAfter(center, velocity, horizon)) then CenterAfter(center, velocity, horizon) else center
  {
    hide Extrapolated;
    MotionIsLinear(center, velocity, horizon);
  }

  lemma {:induction false} MotionIsLinear(center: Vector2, velocity: Vector2, ticks: nat)
    ensures CenterAfter(center, velocity, ticks) == Extrapolated(center, velocity, ticks)
  {
    if ticks > 0 {
      MotionIsLinear(center, velocity, ticks - 1);
      OneMoreTick(velocity.x, ticks);
      OneMoreTick(velocity.y, ticks);
    }
  }

  lemma OneMoreTick(v: real, ticks: nat)
    requires ticks > 0
    ensures v * ((ticks - 1) as real * FIXED_DELTA) + v * FIXED_DELTA == v * (ticks as real * FIXED_DELTA)
  {
  }

  predicate RadiusAdmitted(radius: real, positive: bool) {
    0.0 <= radius <= MAXIMUM_COMPONENT_MAGNITUDE && (positive ==> radius > 0.0)
  }

  function PredictionsFor(e: Entry<Circle>, motions: Store<Vector2>, policy: Policy): nat {
    if Find(motions, e.entity).Some? && policy.predictionHorizonTicks > 0 then 1 else 0
  }

  /** A published circle as a candidate. A hill carries its committed motion, met where it will be when
      the profile predicts; a zone publishes no motion. */
  function CircleCandidate(kind: ObjectiveKind, e: Entry<Circle>, motions: Store<Vector2>, body: PhysicsBody,
                           policy: Policy): Candidate
  {
    var key := ObjectiveKey(kind, e.entity);
    match Find(motions, e.entity)
    case None => Built(key, e.value.center, e.value.radius, body)
    case Some(v) =>
      var horizon := policy.predictionHorizonTicks;
      var target := if horizon > 0 then PredictedCenter(e.value.center, v, horizon) else e.value.center;
      Built(key, target, e.value.radius, body).(objectiveVelocity := v)
  }

  function CircleCandidates(kind: ObjectiveKind, circles: Store<Circle>, motions: Store<Vector2>, body: PhysicsBody,
                            policy: Policy)
    : Result<Raw, TacticalError>
  {
    if circles == [] then Success(Raw(Ready, [], 0))
    else
      match CircleCandidates(kind, circles[..|circles| - 1], motions, body, policy)
      case Failure(e) => Failure(e)
      case Success(before) =>
        var last := circles[|circles| - 1];
        if !RadiusAdmitted(last.value.radius, false) then Failure(ObjectiveInvalid)
        else Success(Raw(Ready, before.candidates + [CircleCandidate(kind, last, motions, body, policy)],
                         before.predictions + PredictionsFor(last, motions, policy)))
  }

  function RaceCandidates(o: Observation, course: RaceCourse, body: PhysicsBody,
                          policy: Policy): Result<Raw, TacticalError>
    requires course.road.Some? ==> course.road.value < |o.geometry.corridors|
  {
    var entity := o.Entity();
    if entity.None? || Find(o.snapshot.progress, entity.value).None? then Success(Raw(Waiting, [], 0))
    else
      var next := Find(o.snapshot.progress, entity.value).value;
      if course.road.None? || course.checkpoints == [] || next > |course.checkpoints| then Failure(ObjectiveInvalid)
      else
        var halfWidth := o.geometry.corridors[course.road.value];
        if !RadiusAdmitted(course.checkpointRadius, true) || course.checkpointRadius > halfWidth
        then Failure(ObjectiveInvalid)
        else if next == |course.checkpoints| then Success(Raw(Finished, [], 0))
        else
          var nearest := o.geometry.centrelineProjection(course.road.value, body.position);
          Success(Raw(Ready, [
            if nearest.distance > policy.roadCautionFraction * halfWidth
            then Built(ObjectiveKey(RaceRecovery, next), nearest.point, 0.0, body)
            else Built(ObjectiveKey(RaceGate, next), course.checkpoints[next], course.checkpointRadius, body)], 0))
  }

  function BoundedCircles(kind: ObjectiveKind, circles: Store<Circle>, motions: Store<Vector2>, body: PhysicsBody,
                          policy: Policy)
    : Result<Raw, TacticalError>
  {
    if |circles| > MAXIMUM_CANDIDATE_COUNT then Failure(CandidateLimitExceeded)
    else CircleCandidates(kind, circles, motions, body, policy)
  }

  function ModeCandidates(o: Observation, body: PhysicsBody, policy: Policy): Result<Raw, TacticalError>
    requires o.snapshot.mode.Race? && o.snapshot.mode.course.road.Some? ==>
      o.snapshot.mode.course.road.value < |o.geometry.corridors|
  {
    match o.snapshot.mode
    case KingOfTheHill => BoundedCircles(Hill, o.snapshot.hills, o.snapshot.hillMotions, body, policy)
    case RoyalePlacements => BoundedCircles(Zone, o.snapshot.zones, [], body, policy)
    case Race(course) => RaceCandidates(o, course, body, policy)
    case NoModeState => Failure(ModeUnsupported)
  }

  /** The loop over published circles. */
  method CollectCircles(kind: ObjectiveKind, circles: Store<Circle>, motions: Store<Vector2>, body: PhysicsBody,
                        policy: Policy)
    returns (r: Result<Raw, TacticalError>)
    ensures r == BoundedCircles(kind, circles, motions, body, policy)
  {
    hide CircleCandidate;
    if |circles| > MAXIMUM_CANDIDATE_COUNT { return Failure(CandidateLimitExceeded); }
    var candidates, predictions: nat := [], 0;
    for i := 0 to |circles|
      invariant CircleCandidates(kind, circles[..i], motions, body, policy) ==
        Success(Raw(Ready, candidates, predictions))
    {
      assert circles[..i + 1][..i] == circles[..i];
      if !RadiusAdmitted(circles[i].value.radius, false) {
        CircleFailureStays(kind, circles, motions, body, policy, i + 1);
        return Failure(ObjectiveInvalid);
      }
      candidates := candidates + [CircleCandidate(kind, circles[i], motions, body, policy)];
      predictions := predictions + PredictionsFor(circles[i], motions, policy);
    }
    assert circles[..|circles|] == circles;
    r := Success(Raw(Ready, candidates, predictions));
  }

  lemma {:induction false} CircleFailureStays(kind: ObjectiveKind, circles: Store<Circle>, motions: Store<Vector2>,
                                              body: PhysicsBody, policy: Policy, n: nat)
    requires n <= |circles| && CircleCandidates(kind, circles[..n], motions, body, policy).Failure?
    ensures CircleCandidates(kind, circles, motions, body, policy) ==
      CircleCandidates(kind, circles[..n], motions, body, policy)
  {
    if n == |circles| {
      assert circles[..n] == circles;
    } else {
      assert circles[..|circles| - 1][..n] == circles[..n];
      CircleFailureStays(kind, circles[..|circles| - 1], motions, body, policy, n);
    }
  }

  method CollectMode(o: Observation, body: PhysicsBody, policy: Policy) returns (r: Result<Raw, TacticalError>)
    requires ValidObservation(o)
    ensures r == ModeCandidates(o, body, policy)
  {
    match o.snapshot.mode {
      case KingOfTheHill => r := CollectCircles(Hill, o.snapshot.hills, o.snapshot.hillMotions, body, policy);
      case RoyalePlacements => r := CollectCircles(Zone, o.snapshot.zones, [], body, policy);
      case Race(course) => r := RaceCandidates(o, course, body, policy);
      case NoModeState => r := Failure(ModeUnsupported);
    }
  }

  // ---------------------------------------------------------------- terrain screening

  /** How far this bot could travel before the horizon ends, and never farther than the diagonal. */
  function Reach(o: Observation, policy: Policy, diagonal: real): real {
    if policy.predictionHorizonTicks == 0 then 0.0
    else
      var travelled := o.snapshot.normalTopSpeed * (policy.predictionHorizonTicks as real * FIXED_DELTA);
      if travelled < diagonal then travelled else diagonal
  }

  /** What screening measures for one pass. */
  datatype Screen = Screen(geometry: Geometry, origin: Vector2, diagonal: real, reach: real)

  function ScreenOf(o: Observation, body: PhysicsBody, policy: Policy): Screen {
    var diagonal := ArenaDiagonal(o.geometry);
    Screen(o.geometry, body.position, diagonal, Reach(o, policy, diagonal))
  }

  function Capped(x: real): real {
    if x < 1.0 then x else 1.0
  }

  function EscapeRay(s: Screen, delta: Vector2, distance: real): Vector2
    requires distance > 0.0
  {
    Vector2((delta.x / distance) * s.reach, (delta.y / distance) * s.reach)
  }

  datatype Screened = Screened(candidates: seq<Candidate>, predictions: nat)

  /** One raw candidate: unsupported or unreachable in a straight line and it is dropped; otherwise it
      is measured, and marked when a bot heading for it would leave the ground within the horizon. */
  function ScreenOne(s: Screen, c: Candidate): Result<Screened, TacticalError>
    requires s.diagonal > 0.0
  {
    var delta := Offset(s.origin, c.target);
    if !s.geometry.supportsPoint(c.target) then Success(Screened([], 0))
    else if !Representable(delta) then Failure(VectorOutOfRange)
    else if s.geometry.firstSupportExit(s.origin, delta).Some? then Success(Screened([], 0))
    else
      var distance := Magnitude(s.geometry, delta);
      var measured := c.(normalizedDistance := Capped(distance / s.diagonal));
      if s.reach > 0.0 && distance > 0.0 then
        var ray := EscapeRay(s, delta, distance);
        if !Representable(ray) then Failure(VectorOutOfRange)
        else Success(Screened([measured.(escapeBlocked := s.geometry.firstSupportExit(s.origin, ray).Some?)], 1))
      else Success(Screened([measured], 0))
  }

  function ScreenAll(s: Screen, raws: seq<Candidate>): Result<Screened, TacticalError>
    requires s.diagonal > 0.0
  {
    if raws == [] then Success(Screened([], 0))
    else
      match ScreenAll(s, raws[..|raws| - 1])
      case Failure(e) => Failure(e)
      case Success(before) =>
        match ScreenOne(s, raws[|raws| - 1])
        case Failure(e) => Failure(e)
        case Success(one) => Success(Screened(before.candidates + one.candidates, before.predictions + one.predictions))
  }

  /** The pass's raw candidates: the mode's own, and the shoves beside them when it has something to pursue. */
  function RawCandidates(o: Observation, body: PhysicsBody, policy: Policy): Result<Raw, TacticalError>
    requires ValidObservation(o) && ValidPolicy(policy)
  {
    match ModeCandidates(o, body, policy)
    case Failure(e) => Failure(e)
    case Success(raw) =>
      if |raw.candidates| > MAXIMUM_CANDIDATE_COUNT then Failure(CandidateLimitExceeded)
      else if raw.disposition != Ready then Success(raw)
      else
        var shoves := ShoveCandidates(o, body, policy);
        if |shoves| > MAXIMUM_CANDIDATE_COUNT then Failure(CandidateLimitExceeded)
        else Success(raw.(candidates := raw.candidates + shoves))
  }

  function Collected(o: Observation, body: PhysicsBody, policy: Policy): Result<Objectives, TacticalError>
    requires ValidObservation(o) && ValidPolicy(policy)
  {
    ArenaDiagonalIsPositive(o.geometry);
    ScreenMeasuresTheArena(o, body, policy);
    match RawCandidates(o, body, policy)
    case Failure(e) => Failure(e)
    case Success(raw) =>
      match ScreenAll(ScreenOf(o, body, policy), raw.candidates)
      case Failure(e) => Failure(e)
      case Success(screened) =>
        Success(Objectives(raw.disposition, screened.candidates,
                           Work(|raw.candidates|, |screened.candidates|, raw.predictions + screened.predictions)))
  }

  // ---------------------------------------------------------------- the loops of one pass

  method KeepNearest(o: Observation, body: PhysicsBody, joined: seq<(EntityId, PhysicsBody, Controllable)>)
    returns (kept: seq<ShoveOpponent>)
    requires AscendingByEntity(joined)
    ensures kept == OfferAll(OpponentsIn(o, body, joined))
  {
    hide SquaredMagnitude, OfferAll, Offer, IsNearest, OpponentOf, IsOpponent;
    var filter := new NearestFilter();
    for i := 0 to |joined|
      invariant filter.Valid() && fresh(filter) && fresh(filter.entries)
      invariant filter.seen == OpponentsIn(o, body, joined[..i])
      invariant filter.entries[..filter.count] == OfferAll(filter.seen)
    {
      var x := joined[i];
      assert joined[..i + 1][..i] == joined[..i];
      if IsOpponent(o, x.1, x.2) {
        OpponentsAreDistinct(o, body, joined[..i]);
        OfferAllGrows(filter.seen, OpponentOf(body, x.0, x.1));
        OpponentKeepsEntity(body, x.0, x.1);
        forall s | s in filter.seen ensures s.entity != x.0 {
          var y :| y in joined[..i] && s == OpponentOf(body, y.0, y.1);
          OpponentKeepsEntity(body, y.0, y.1);
        }
        filter.InsertNearest(OpponentOf(body, x.0, x.1));
      }
    }
    assert joined[..|joined|] == joined;
    kept := filter.entries[..filter.count];
  }

  /** One kept opponent: what it offers to be shoved into, and where to stand for it. */
  method ConsiderShove(o: Observation, body: PhysicsBody, policy: Policy, opponent: ShoveOpponent)
    returns (candidates: seq<Candidate>)
    ensures candidates == ShoveFrom(o, body, policy, opponent)
  {
    hide OfferedHazards, NearestOf, ShoveAt, OpeningOf;
    candidates := [];
    if OpeningOf(o, policy, opponent.entity) >= policy.minimumOpening {
      var hazard := NearestShoveHazard(o, Vector2(opponent.x, opponent.y));
      if hazard.Some? { candidates := ShoveAt(o, body, policy, opponent, hazard.value); }
    }
  }

  method CollectShoves(o: Observation, body: PhysicsBody, policy: Policy) returns (candidates: seq<Candidate>)
    requires ValidObservation(o) && |policy.weights| == OBJECTIVE_KIND_COUNT
    ensures candidates == ShoveCandidates(o, body, policy)
  {
    hide OpponentsIn, OfferAll, ShoveFrom, AscendingByEntity;
    candidates := [];
    if policy.weights[Ordinal(ShoveSetup)] == 0.0 { return; }
    JoinIsExact(o.snapshot.bodies, o.snapshot.controllables);
    var nearest := KeepNearest(o, body, Join(o.snapshot.bodies, o.snapshot.controllables));
    for i := 0 to |nearest|
      invariant candidates == ShovesFrom(o, body, policy, nearest[..i])
    {
      assert nearest[..i + 1][..i] == nearest[..i];
      var shoves := ConsiderShove(o, body, policy, nearest[i]);
      candidates := candidates + shoves;
    }
    assert nearest[..|nearest|] == nearest;
  }

  method ScreenCandidates(s: Screen, raws: seq<Candidate>) returns (r: Result<Screened, TacticalError>)
    requires s.diagonal > 0.0
    ensures r == ScreenAll(s, raws)
  {
    hide ScreenOne;
    var candidates, predictions: nat := [], 0;
    for i := 0 to |raws|
      invariant ScreenAll(s, raws[..i]) == Success(Screened(candidates, predictions))
    {
      assert raws[..i + 1][..i] == raws[..i];
      match ScreenOne(s, raws[i]) {
        case Failure(e) =>
          ScreenFailureStays(s, raws, i + 1);
          return Failure(e);
        case Success(one) =>
          candidates, predictions := candidates + one.candidates, predictions + one.predictions;
      }
    }
    assert raws[..|raws|] == raws;
    r := Success(Screened(candidates, predictions));
  }

  lemma {:induction false} ScreenFailureStays(s: Screen, raws: seq<Candidate>, n: nat)
    requires s.diagonal > 0.0 && n <= |raws| && ScreenAll(s, raws[..n]).Failure?
    ensures ScreenAll(s, raws) == ScreenAll(s, raws[..n])
  {
    if n == |raws| {
      assert raws[..n] == raws;
    } else {
      assert raws[..|raws| - 1][..n] == raws[..n];
      ScreenFailureStays(s, raws[..|raws| - 1], n);
    }
  }

  /** The whole pass: the mode's provider, the shoves beside it, and the screen over both. */
  method CollectObjectives(o: Observation, body: PhysicsBody, policy: Policy)
    returns (r: Result<Objectives, TacticalError>)
    requires ValidObservation(o) && ValidPolicy(policy)
    ensures r == Collected(o, body, policy)
  {
    hide ModeCandidates, ShoveCandidates, ScreenAll, ScreenOf, ArenaDiagonal;
    ArenaDiagonalIsPositive(o.geometry);
    var mode := CollectMode(o, body, policy);
    if mode.Failure? { return Failure(mode.error); }
    var raw := mode.value;
    if |raw.candidates| > MAXIMUM_CANDIDATE_COUNT { return Failure(CandidateLimitExceeded); }
    if raw.disposition == Ready {
      var shoves := CollectShoves(o, body, policy);
      if |shoves| > MAXIMUM_CANDIDATE_COUNT { return Failure(CandidateLimitExceeded); }
      raw := raw.(candidates := raw.candidates + shoves);
    }
    var screen := ScreenOf(o, body, policy);
    ScreenMeasuresTheArena(o, body, policy);
    var screened := ScreenCandidates(screen, raw.candidates);
    match screened {
      case Failure(e) => r := Failure(e);
      case Success(s) =>
        r := Success(Objectives(raw.disposition, s.candidates,
                                Work(|raw.candidates|, |s.candidates|, raw.predictions + s.predictions)));
    }
  }

  lemma ScreenMeasuresTheArena(o: Observation, body: PhysicsBody, policy: Policy)
    ensures ScreenOf(o, body, policy).diagonal == ArenaDiagonal(o.geometry)
  {
  }
}
