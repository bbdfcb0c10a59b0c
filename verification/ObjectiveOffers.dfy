/** What a pass is offered, said in the snapshot's and the terrain's own numbers. */
module ObjectiveOffers {
  import opened Wrappers
  import opened SeatRosters
  import opened Commands
  import opened PlaneArithmetic
  import opened Observations
  import opened NearestOpponents
  import opened TacticalCandidates
  import opened ShoveSetups
  import opened TacticalObjectives
  import opened TacticalScreening

  /** The square of the way from one point to another. */
  function SquaredWay(a: Vector2, b: Vector2): real {
    (b.x - a.x) * (b.x - a.x) + (b.y - a.y) * (b.y - a.y)
  }

  lemma MeasuredOut(a: Vector2, b: Vector2)
    ensures SquaredMagnitude(Offset(a, b)) == SquaredWay(a, b)
  {
  }

  /** An objective just built: measured from the body, fully open, not yet screened. */
  function Unscreened(key: ObjectiveKey, target: Vector2, radius: real, velocity: Vector2, at: Vector2): Candidate {
    Candidate(key, target, radius, SquaredWay(at, target), 0.0, false, 1.0, velocity)
  }

  /** A point the simulation can hold. */
  predicate InDomain(p: Vector2) {
    -1_000_000_000_000.0 <= p.x <= 1_000_000_000_000.0 && -1_000_000_000_000.0 <= p.y <= 1_000_000_000_000.0
  }

  predicate RadiusInRange(radius: real) {
    0.0 <= radius <= 1_000_000_000_000.0
  }

  /** The least entity that names this controller drives for it. */
  lemma {:induction false} TheFirstNamedEntityIsDriven(s: Store<Controllable>, c: ControllerId)
    requires ValidStore(s)
    ensures var e := EntityDrivenBy(s, c);
      && (e.None? <==> forall x :: x in s ==> x.value.controllerId != c)
      && (e.Some? ==> exists x :: x in s && x.entity == e.value && x.value.controllerId == c)
      && (e.Some? ==> forall x :: x in s && x.value.controllerId == c ==> e.value <= x.entity)
  {
    if s != [] && s[0].value.controllerId != c {
      assert s == [s[0]] + s[1..];
      TheFirstNamedEntityIsDriven(s[1..], c);
    } else if s != [] {
      assert s[0] in s;
    }
  }

  // ---------------------------------------------------------------- circles

  /** Every circle offered has a radius in range, or there is no offer at all. */
  lemma {:induction false} CirclesAreOfferedOrRefused(kind: ObjectiveKind, circles: Store<Circle>,
                                                      motions: Store<Vector2>, body: PhysicsBody, policy: Policy)
    ensures var r := CircleCandidates(kind, circles, motions, body, policy);
      && (r.Success? <==> forall e :: e in circles ==> RadiusInRange(e.value.radius))
      && (r.Failure? ==> r.error == ObjectiveInvalid)
  {
    hide CircleCandidate, PredictionsFor;
    if circles != [] {
      var front, last := circles[..|circles| - 1], circles[|circles| - 1];
      assert circles == front + [last];
      CirclesAreOfferedOrRefused(kind, front, motions, body, policy);
    }
  }

  /** A circle with a published motion is met where that motion takes it by the horizon, tick by tick, or at
      its centre when that is nowhere representable; without one it is met at its centre. */
  lemma CircleIsOffered(kind: ObjectiveKind, e: Entry<Circle>, motions: Store<Vector2>, body: PhysicsBody,
                        policy: Policy)
    requires ValidStore(motions)
    ensures var c, key := CircleCandidate(kind, e, motions, body, policy), ObjectiveKey(kind, e.entity);
      var center, radius, horizon := e.value.center, e.value.radius, policy.predictionHorizonTicks;
      && ((forall m :: m in motions ==> m.entity != e.entity) ==>
            c == Unscreened(key, center, radius, ZERO_VECTOR, body.position))
      && (forall v :: Entry(e.entity, v) in motions ==>
            c == Unscreened(key, if InDomain(CenterAfter(center, v, horizon)) then CenterAfter(center, v, horizon)
                                 else center, radius, v, body.position))
  {
    hide CenterAfter, PredictedCenter;
    var found := Find(motions, e.entity);
    if found.Some? {
      assert Entry(e.entity, found.value) in motions;
      PredictionFollowsTheMotion(e.value.center, found.value, policy.predictionHorizonTicks);
      NoTicksNoMotion(e.value.center, found.value);
      MeasuredOut(body.position, e.value.center);
      MeasuredOut(body.position, PredictedCenter(e.value.center, found.value, policy.predictionHorizonTicks));
      forall v | Entry(e.entity, v) in motions ensures v == found.value {
        FindIsUnique(motions, Entry(e.entity, v));
      }
    } else {
      MeasuredOut(body.position, e.value.center);
    }
  }

  lemma NoTicksNoMotion(center: Vector2, v: Vector2)
    ensures CenterAfter(center, v, 0) == center
  {
  }

  /** The circles of a mode: refused when there are more than thirty-two or one of them has no radius in
      range, and otherwise offered one by one in entity order. */
  lemma CirclesAreOffered(kind: ObjectiveKind, circles: Store<Circle>, motions: Store<Vector2>, body: PhysicsBody,
                          policy: Policy)
    requires ValidStore(circles) && ValidStore(motions)
    ensures var r := BoundedCircles(kind, circles, motions, body, policy);
      && (r == Failure(CandidateLimitExceeded) <==> |circles| > 32)
      && (r == Failure(ObjectiveInvalid) <==>
            |circles| <= 32 && exists e :: e in circles && !RadiusInRange(e.value.radius))
      && (r.Success? <==> |circles| <= 32 && forall e :: e in circles ==> RadiusInRange(e.value.radius))
      && (r.Success? ==> r.value.disposition == Ready && |r.value.candidates| == |circles|)
      && (r.Success? ==> forall i :: 0 <= i < |circles| ==>
            r.value.candidates[i] == CircleCandidate(kind, circles[i], motions, body, policy))
  {
    hide CircleCandidate, RadiusInRange, CircleCandidates;
    CirclesAreOfferedOrRefused(kind, circles, motions, body, policy);
    if CircleCandidates(kind, circles, motions, body, policy).Success? {
      CirclesAreSound(kind, circles, motions, body, policy);
    }
  }

  /** Each mode offers its own: a hill match its hills with their motions, a royale its zones without any,
      and a mode that publishes neither is not supported. */
  lemma ModesOfferTheirOwn(o: Observation, body: PhysicsBody, policy: Policy)
    requires ValidObservation(o) && !o.snapshot.mode.Race?
    ensures ModeCandidates(o, body, policy) ==
      if o.snapshot.mode.KingOfTheHill? then
        BoundedCircles(Hill, o.snapshot.hills, o.snapshot.hillMotions, body, policy)
      else if o.snapshot.mode.RoyalePlacements? then BoundedCircles(Zone, o.snapshot.zones, [], body, policy)
      else Failure(ModeUnsupported)
  {
  }

  // ---------------------------------------------------------------- a race

  /** A course a racer can be sent along: a road there is, a gate to go for or all of them passed, and gates
      that fit the road. */
  predicate CourseIsSound(o: Observation, course: RaceCourse, next: nat) {
    && course.road.Some? && course.road.value < |o.geometry.corridors| && 1 <= |course.checkpoints|
    && next <= |course.checkpoints| && 0.0 < course.checkpointRadius <= 1_000_000_000_000.0
    && course.checkpointRadius <= o.geometry.corridors[course.road.value]
  }

  /** What a race offers a body on its way to this gate: the gate itself while the body keeps within the
      cautious part of the road, and once beyond it the nearest point of the centreline. */
  function RaceTarget(o: Observation, course: RaceCourse, next: nat, at: Vector2, policy: Policy): Candidate
    requires CourseIsSound(o, course, next) && next < |course.checkpoints|
  {
    var road := course.road.value;
    var projection := o.geometry.centrelineProjection(road, at);
    if projection.distance <= policy.roadCautionFraction * o.geometry.corridors[road]
    then Unscreened(ObjectiveKey(RaceGate, next), course.checkpoints[next], course.checkpointRadius, ZERO_VECTOR, at)
    else Unscreened(ObjectiveKey(RaceRecovery, next), projection.point, 0.0, ZERO_VECTOR, at)
  }

  /** A race waits exactly while the bot has no body or no progress, refuses exactly an unsound course, is
      finished exactly when the last gate is passed, and otherwise offers exactly one target. */
  lemma RaceOffersOneTarget(o: Observation, body: PhysicsBody, policy: Policy)
    requires ValidObservation(o) && o.snapshot.mode.Race?
    ensures var r, course := ModeCandidates(o, body, policy), o.snapshot.mode.course;
      && (r == Success(Raw(Waiting, [], 0)) <==>
            o.Entity().None? || forall e :: e in o.snapshot.progress ==> e.entity != o.Entity().value)
      && (forall next: nat :: o.Entity().Some? && Entry(o.Entity().value, next) in o.snapshot.progress ==>
            && (r == Failure(ObjectiveInvalid) <==> !CourseIsSound(o, course, next))
            && (r == Success(Raw(Finished, [], 0)) <==>
                  CourseIsSound(o, course, next) && next == |course.checkpoints|)
            && (CourseIsSound(o, course, next) && next < |course.checkpoints| ==>
                  r == Success(Raw(Ready, [RaceTarget(o, course, next, body.position, policy)], 0))))
  {
    hide SquaredMagnitude, SquaredWay;
    if o.Entity().Some? {
      var self, course := o.Entity().value, o.snapshot.mode.course;
      forall next: nat | Entry(self, next) in o.snapshot.progress
        ensures Find(o.snapshot.progress, self) == Some(next)
      {
        FindIsUnique(o.snapshot.progress, Entry(self, next));
      }
      if course.road.Some? {
        MeasuredOut(body.position, o.geometry.centrelineProjection(course.road.value, body.position).point);
      }
      forall i | 0 <= i < |course.checkpoints|
        ensures SquaredMagnitude(Offset(body.position, course.checkpoints[i])) ==
          SquaredWay(body.position, course.checkpoints[i])
      {
        MeasuredOut(body.position, course.checkpoints[i]);
      }
    }
  }

  // ---------------------------------------------------------------- opponents

  /** A published body some other controller drives and that can move. */
  ghost predicate IsRival(o: Observation, e: EntityId, b: PhysicsBody) {
    && Entry(e, b) in o.snapshot.bodies && !b.isStatic
    && exists c :: Entry(e, c) in o.snapshot.controllables && c.controllerId != o.controller
  }

  ghost predicate RivalSeen(o: Observation, at: Vector2, p: ShoveOpponent) {
    exists b :: IsRival(o, p.entity, b) && p.x == b.position.x && p.y == b.position.y && p.radius == b.radius &&
      p.squaredDistance == SquaredWay(at, b.position)
  }

  lemma {:induction false} OpponentsAmong(o: Observation, self: PhysicsBody,
                                          joined: seq<(EntityId, PhysicsBody, Controllable)>, p: ShoveOpponent)
    ensures p in OpponentsIn(o, self, joined) <==>
      exists x :: x in joined && x.2.controllerId != o.controller && !x.1.isStatic && p == OpponentOf(self, x.0, x.1)
  {
    hide OpponentOf;
    if joined != [] {
      var front, last := joined[..|joined| - 1], joined[|joined| - 1];
      assert joined == front + [last];
      OpponentsAmong(o, self, front, p);
    }
  }

  /** The opponents a shove may be about are exactly the other controllers' published bodies that can move,
      each measured from this bot's own. */
  lemma OpponentsAreTheRivals(o: Observation, self: PhysicsBody, p: ShoveOpponent)
    requires ValidObservation(o)
    ensures p in Opponents(o, self) <==> RivalSeen(o, self.position, p)
  {
    hide OpponentOf, OpponentsIn, SquaredMagnitude;
    var joined := Join(o.snapshot.bodies, o.snapshot.controllables);
    JoinIsExact(o.snapshot.bodies, o.snapshot.controllables);
    OpponentsAmong(o, self, joined, p);
    if p in Opponents(o, self) {
      var x :| x in joined && x.2.controllerId != o.controller && !x.1.isStatic && p == OpponentOf(self, x.0, x.1);
      OpponentIsMeasured(self, x.0, x.1);
      assert IsRival(o, p.entity, x.1);
    }
    if RivalSeen(o, self.position, p) {
      var b :| IsRival(o, p.entity, b) && p.x == b.position.x && p.y == b.position.y && p.radius == b.radius
        && p.squaredDistance == SquaredWay(self.position, b.position);
      var c :| Entry(p.entity, c) in o.snapshot.controllables && c.controllerId != o.controller;
      OpponentIsMeasured(self, p.entity, b);
      assert (p.entity, b, c) in joined;
    }
  }

  lemma OpponentIsMeasured(self: PhysicsBody, e: EntityId, b: PhysicsBody)
    ensures OpponentOf(self, e, b) ==
            ShoveOpponent(e, b.position.x, b.position.y, b.radius, SquaredWay(self.position, b.position))
  {
  }

  // ---------------------------------------------------------------- what there is to be shoved into

  /** The length of the way from one point to another. */
  predicate IsLength(d: real, a: Vector2, b: Vector2) {
    d >= 0.0 && d * d == SquaredWay(a, b)
  }

  /** A badness at a point somewhere else: as far away as it is, and its safe side straight away from it. */
  predicate PointsAwayFrom(h: Hazard, bad: Vector2, at: Vector2) {
    && bad != at && IsLength(h.distance, bad, at)
    && h.away.x * h.distance == at.x - bad.x && h.away.y * h.distance == at.y - bad.y
  }

  /** A badness past an edge, seen from inside: its safe side is straight toward the middle. */
  ghost predicate PointsToward(h: Hazard, middle: Vector2, at: Vector2) {
    && middle != at
    && exists d :: IsLength(d, middle, at) && h.away.x * d == middle.x - at.x && h.away.y * d == middle.y - at.y
  }

  /** Every badness there is for an opponent here: each hole, the edge of the nearest road it is on, each body
      that kills on contact, and the rim of each hill it is in. */
  ghost predicate Threatens(o: Observation, at: Vector2, h: Hazard) {
    var g, i := o.geometry, h.identity;
    match h.source
    case Hole => i < |g.holes| && PointsAwayFrom(h, g.holes[i], at)
    case CorridorEdge =>
      && i < |g.corridors|
      && (forall k: nat :: k < |g.corridors| ==> g.centrelineDistance(i, at) <= g.centrelineDistance(k, at))
      && (forall k: nat :: k < i ==> g.centrelineDistance(i, at) < g.centrelineDistance(k, at))
      && g.centrelineDistance(i, at) <= g.corridors[i]
      && h.distance == g.corridors[i] - g.centrelineProjection(i, at).distance
      && PointsToward(h, g.centrelineProjection(i, at).point, at)
    case LethalEntity =>
      exists b :: Entry(i, ()) in o.snapshot.lethals && Entry(i, b) in o.snapshot.bodies &&
        PointsAwayFrom(h, b.position, at)
    case HillExit =>
      exists c, d :: Entry(i, c) in o.snapshot.hills && IsLength(d, c.center, at) && d <= c.radius &&
        h.distance == c.radius - d && PointsToward(h, c.center, at)
  }

  lemma LengthIsUnique(d: real, e: real, a: Vector2, b: Vector2)
    requires IsLength(d, a, b) && IsLength(e, a, b)
    ensures d == e
  {
    RootIsMonotone(d, e);
    RootIsMonotone(e, d);
  }

  lemma MagnitudeIsLength(g: Geometry, a: Vector2, b: Vector2)
    requires IsSquareRoot(g.root)
    ensures IsLength(Magnitude(g, Offset(a, b)), a, b) && (Magnitude(g, Offset(a, b)) == 0.0 <==> a == b)
  {
    hide Square, SquaredMagnitude, Magnitude, IsSquareRoot;
    MagnitudeIsPositive(g, Offset(a, b));
    MeasuredOut(a, b);
    SquareIsProduct(Magnitude(g, Offset(a, b)));
    OffsetIsZeroOnlyThere(a, b);
  }

  lemma QuotientIs(x: real, y: real, d: real)
    requires d > 0.0
    ensures x == y / d <==> x * d == y
  {
    var q := y / d;
    assert q * d == y;
    if x * d == y { assert (x - q) * d == 0.0; TimesSign(x - q, d); TimesSign(q - x, d); }
  }

  lemma OutwardIsExact(g: Geometry, bad: Vector2, at: Vector2, source: HazardSource, identity: nat, h: Hazard)
    requires IsSquareRoot(g.root)
    ensures h in OutwardHazard(g, bad, at, source, identity) <==>
      h.source == source && h.identity == identity && PointsAwayFrom(h, bad, at)
  {
    hide Magnitude, IsSquareRoot, IsLength;
    var d := Magnitude(g, Offset(bad, at));
    MagnitudeIsLength(g, bad, at);
    LengthIsPositive(d, bad, at);
    if d > 0.0 {
      QuotientIs(h.away.x, at.x - bad.x, d);
      QuotientIs(h.away.y, at.y - bad.y, d);
      if PointsAwayFrom(h, bad, at) { LengthIsUnique(d, h.distance, bad, at); }
      assert h.away == Vector2(h.away.x, h.away.y);
    }
  }

  lemma LengthIsPositive(d: real, a: Vector2, b: Vector2)
    requires IsLength(d, a, b)
    ensures d >= 0.0
  {
  }

  lemma InwardIsExact(g: Geometry, middle: Vector2, at: Vector2, left: real, source: HazardSource, identity: nat,
                      h: Hazard)
    requires IsSquareRoot(g.root)
    ensures h in InwardHazard(g, middle, at, left, source, identity) <==>
      h.source == source && h.identity == identity && h.distance == left && PointsToward(h, middle, at)
  {
    hide Magnitude, IsSquareRoot, IsLength;
    var d := Magnitude(g, Offset(middle, at));
    MagnitudeIsLength(g, middle, at);
    LengthIsPositive(d, middle, at);
    if d > 0.0 {
      QuotientIs(h.away.x, middle.x - at.x, d);
      QuotientIs(h.away.y, middle.y - at.y, d);
      assert -(at.x - middle.x) / d == (middle.x - at.x) / d && -(at.y - middle.y) / d == (middle.y - at.y) / d;
      if PointsToward(h, middle, at) {
        var e :| IsLength(e, middle, at) && h.away.x * e == middle.x - at.x && h.away.y * e == middle.y - at.y;
        LengthIsUnique(d, e, middle, at);
      }
      assert h.away == Vector2(h.away.x, h.away.y);
    }
  }

  lemma {:induction false} HolesOffer(g: Geometry, at: Vector2, count: nat, h: Hazard)
    requires IsSquareRoot(g.root) && count <= |g.holes|
    ensures h in HoleHazards(g, at, count) <==>
      h.source == Hole && h.identity < count && PointsAwayFrom(h, g.holes[h.identity], at)
  {
    hide IsSquareRoot, OutwardHazard, PointsAwayFrom;
    if count > 0 {
      HolesOffer(g, at, count - 1, h);
      OutwardIsExact(g, g.holes[count - 1], at, Hole, count - 1, h);
    }
  }

  lemma {:induction false} NearestCorridorIsFirst(g: Geometry, at: Vector2, count: nat)
    ensures var r := NearestCorridor(g, at, count);
      r.Some? ==>
        && (forall k: nat :: k < count ==> g.centrelineDistance(r.value, at) <= g.centrelineDistance(k, at))
        && (forall k: nat :: k < r.value ==> g.centrelineDistance(r.value, at) < g.centrelineDistance(k, at))
  {
    if count > 0 { NearestCorridorIsFirst(g, at, count - 1); }
  }

  lemma RoadsOffer(o: Observation, at: Vector2, h: Hazard)
    requires IsSquareRoot(o.geometry.root)
    ensures h in RoadHazards(o.geometry, at) <==> h.source == CorridorEdge && Threatens(o, at, h)
  {
    hide IsSquareRoot, InwardHazard, PointsToward, PointsAwayFrom, IsLength;
    var g := o.geometry;
    NearestCorridorIsFirst(g, at, |g.corridors|);
    match NearestCorridor(g, at, |g.corridors|) {
      case None =>
      case Some(road) =>
        var p := g.centrelineProjection(road, at);
        InwardIsExact(g, p.point, at, g.corridors[road] - p.distance, CorridorEdge, road, h);
        if h.source == CorridorEdge && Threatens(o, at, h) { assert h.identity == road; }
    }
  }

  lemma {:induction false} LethalsOffer(g: Geometry, lethals: seq<(EntityId, (), PhysicsBody)>, at: Vector2, h: Hazard)
    requires IsSquareRoot(g.root)
    ensures h in LethalHazards(g, lethals, at) <==>
      h.source == LethalEntity && exists x :: x in lethals && x.0 == h.identity && PointsAwayFrom(h, x.2.position, at)
  {
    hide IsSquareRoot, OutwardHazard, PointsAwayFrom;
    if lethals != [] {
      var front, last := lethals[..|lethals| - 1], lethals[|lethals| - 1];
      assert lethals == front + [last];
      LethalsOffer(g, front, at, h);
      OutwardIsExact(g, last.2.position, at, LethalEntity, last.0, h);
    }
  }

  /** The rim of this hill is a badness for an opponent in it. */
  ghost predicate RimThreatens(e: Entry<Circle>, at: Vector2, h: Hazard) {
    exists d :: IsLength(d, e.value.center, at) && d <= e.value.radius && h.distance == e.value.radius - d &&
      PointsToward(h, e.value.center, at)
  }

  lemma RimIsExact(g: Geometry, e: Entry<Circle>, at: Vector2, h: Hazard)
    requires IsSquareRoot(g.root)
    ensures h in ExitHazard(g, e, at) <==> h.source == HillExit && h.identity == e.entity && RimThreatens(e, at, h)
  {
    hide IsSquareRoot, InwardHazard, PointsToward, Magnitude, IsLength;
    var d := Magnitude(g, Offset(e.value.center, at));
    MagnitudeIsLength(g, e.value.center, at);
    InwardIsExact(g, e.value.center, at, e.value.radius - d, HillExit, e.entity, h);
    forall x | IsLength(x, e.value.center, at) ensures x == d { LengthIsUnique(x, d, e.value.center, at); }
  }

  lemma {:induction false} HillsOffer(g: Geometry, hills: Store<Circle>, at: Vector2, h: Hazard)
    requires IsSquareRoot(g.root)
    ensures h in HillHazards(g, hills, at) <==>
      h.source == HillExit && exists e :: e in hills && e.entity == h.identity && RimThreatens(e, at, h)
  {
    hide IsSquareRoot, ExitHazard, RimThreatens;
    if hills != [] {
      var front, last := hills[..|hills| - 1], hills[|hills| - 1];
      assert hills == front + [last];
      HillsOffer(g, front, at, h);
      RimIsExact(g, last, at, h);
    }
  }

  /** The walks offer exactly what threatens an opponent here, and nothing else. */
  lemma OfferedHazardsAreTheThreats(o: Observation, at: Vector2, h: Hazard)
    requires ValidObservation(o)
    ensures h in OfferedHazards(o, at) <==> Threatens(o, at, h)
  {
    hide HoleHazards, RoadHazards, LethalHazards, HillHazards, PointsAwayFrom, PointsToward, IsSquareRoot, IsLength;
    var g := o.geometry;
    HolesOffer(g, at, |g.holes|, h);
    RoadsOffer(o, at, h);
    LethalsOffer(g, Join(o.snapshot.lethals, o.snapshot.bodies), at, h);
    HillsOffer(g, o.snapshot.hills, at, h);
    match h.source {
      case LethalEntity => LethalThreats(o, at, h);
      case HillExit => RimThreats(o, at, h);
      case _ =>
    }
  }

  lemma LethalThreats(o: Observation, at: Vector2, h: Hazard)
    requires ValidObservation(o) && h.source == LethalEntity
    ensures Threatens(o, at, h) <==>
      exists x :: x in Join(o.snapshot.lethals, o.snapshot.bodies) && x.0 == h.identity &&
        PointsAwayFrom(h, x.2.position, at)
  {
    hide PointsAwayFrom, Join;
    JoinIsExact(o.snapshot.lethals, o.snapshot.bodies);
    var joined := Join(o.snapshot.lethals, o.snapshot.bodies);
    if Threatens(o, at, h) {
      var b :| Entry(h.identity, ()) in o.snapshot.lethals && Entry(h.identity, b) in o.snapshot.bodies
        && PointsAwayFrom(h, b.position, at);
      assert (h.identity, (), b) in joined;
    }
    if x :| x in joined && x.0 == h.identity && PointsAwayFrom(h, x.2.position, at) {
      assert x.1 == () && Entry(h.identity, x.1) in o.snapshot.lethals && Entry(h.identity, x.2) in o.snapshot.bodies;
    }
  }

  lemma RimThreats(o: Observation, at: Vector2, h: Hazard)
    requires h.source == HillExit
    ensures Threatens(o, at, h) <==>
      exists e :: e in o.snapshot.hills && e.entity == h.identity && RimThreatens(e, at, h)
  {
    hide PointsToward, IsLength;
    if Threatens(o, at, h) {
      var c, d :| Entry(h.identity, c) in o.snapshot.hills && IsLength(d, c.center, at) && d <= c.radius
        && h.distance == c.radius - d && PointsToward(h, c.center, at);
      assert RimThreatens(Entry(h.identity, c), at, h);
    }
  }

  /** Of two badnesses a shove aims at the one nearer by, then a hole before an edge before a killer before a
      rim, then the one with the smaller identity. */
  predicate AimedAtFirst(l: Hazard, r: Hazard) {
    || l.distance < r.distance
    || (l.distance == r.distance && (|| Rank(l.source) < Rank(r.source)
                                     || (l.source == r.source && l.identity <= r.identity)))
  }

  function Rank(s: HazardSource): nat {
    match s
    case Hole => 1
    case CorridorEdge => 2
    case LethalEntity => 3
    case HillExit => 4
  }

  /** The badness the walks keep is a threat, no threat comes before it, and there is none to keep exactly
      when nothing threatens. */
  lemma ChosenHazardIsTheFirstThreat(o: Observation, at: Vector2, h: Hazard)
    requires ValidObservation(o)
    ensures var chosen := NearestOf(OfferedHazards(o, at));
      && (Threatens(o, at, h) ==> chosen.Some? && AimedAtFirst(chosen.value, h))
      && (chosen.Some? ==> Threatens(o, at, chosen.value))
  {
    hide OfferedHazards, Threatens, NearestOf, ValidObservation;
    var offers := OfferedHazards(o, at);
    NearestHazardIsLeast(offers);
    OfferedHazardsAreTheThreats(o, at, h);
    if NearestOf(offers).Some? { OfferedHazardsAreTheThreats(o, at, NearestOf(offers).value); }
  }

  // ---------------------------------------------------------------- shoves

  /** An opening falls short of one by the preference's share of what the exposure does. */
  lemma OpeningIsPartOfTheExposure(exposure: real, preference: real)
    ensures 1.0 - Opening(exposure, preference) == preference * (1.0 - exposure)
  {
  }

  /** The margin a shove stands off and arrives within is a hundredth of the arena's diagonal. */
  lemma MarginIsAHundredthOfTheDiagonal(g: Geometry)
    requires IsSquareRoot(g.root)
    ensures ShoveMargin(g) >= 0.0
    ensures (100.0 * ShoveMargin(g)) * (100.0 * ShoveMargin(g)) == g.width * g.width + g.height * g.height
  {
    hide IsSquareRoot, Square, SquaredMagnitude;
    var size := Vector2(g.width, g.height);
    MagnitudeIsPositive(g, size);
    InComponents(size);
    SquareIsProduct(Magnitude(g, size));
    assert 100.0 * ShoveMargin(g) == Magnitude(g, size);
  }

  /** A kept opponent is a target exactly when it is as open as the profile asks, something threatens it, and
      the point to stand at is representable; the target is that point, arrived at within the margin. */
  lemma ShoveIsOfferedExactlyWhen(o: Observation, body: PhysicsBody, policy: Policy, opponent: ShoveOpponent)
    requires ValidObservation(o)
    ensures var chosen := NearestOf(OfferedHazards(o, Vector2(opponent.x, opponent.y)));
      var opening, margin := OpeningOf(o, policy, opponent.entity), ShoveMargin(o.geometry);
      var off := body.radius + opponent.radius + margin;
      var stand := if chosen.Some? then StandingPoint(opponent, chosen.value.away, off) else ZERO_VECTOR;
      ShoveFrom(o, body, policy, opponent) ==
        if opening >= policy.minimumOpening && chosen.Some? && InDomain(stand) then
          [Unscreened(ObjectiveKey(ShoveSetup, opponent.entity), stand, margin, ZERO_VECTOR,
                      body.position).(opening := opening)]
        else []
  {
    hide OfferedHazards, NearestOf, Exposure, Opening, ArenaDiagonal, SquaredMagnitude, SquaredWay, StandingPoint;
    var chosen := NearestOf(OfferedHazards(o, Vector2(opponent.x, opponent.y)));
    if chosen.Some? {
      var off := body.radius + opponent.radius + ShoveMargin(o.geometry);
      MeasuredOut(body.position, StandingPoint(opponent, chosen.value.away, off));
    }
  }

  lemma {:induction false} ShovesAmong(o: Observation, body: PhysicsBody, policy: Policy, kept: seq<ShoveOpponent>,
                                       c: Candidate)
    ensures c in ShovesFrom(o, body, policy, kept) <==> exists k :: k in kept && c in ShoveFrom(o, body, policy, k)
  {
    hide ShoveFrom;
    if kept != [] {
      var front, last := kept[..|kept| - 1], kept[|kept| - 1];
      assert kept == front + [last];
      ShovesAmong(o, body, policy, front, c);
    }
  }

  /** A pass's raw objectives are the mode's and, when the mode has something to pursue and the profile weighs
      shoves at all, those of the nearest rivals. */
  lemma RawObjectivesAreTheModesAndTheShoves(o: Observation, body: PhysicsBody, policy: Policy, c: Candidate)
    requires ValidObservation(o) && ValidPolicy(policy) && ModeCandidates(o, body, policy).Success?
    ensures var mode := ModeCandidates(o, body, policy).value;
      && RawCandidates(o, body, policy).Success?
      && RawCandidates(o, body, policy).value.disposition == mode.disposition
      && (c in RawCandidates(o, body, policy).value.candidates <==>
            || c in mode.candidates
            || (mode.disposition.Ready? && policy.weights[4] != 0.0 &&
                exists k :: k in OfferAll(Opponents(o, body)) && c in ShoveFrom(o, body, policy, k)))
  {
    hide ModeCandidates, ShovesFrom, ShoveFrom, OfferAll, Opponents;
    ModeIsSound(o, body, policy);
    ShovesAmong(o, body, policy, OfferAll(Opponents(o, body)), c);
  }

  // ---------------------------------------------------------------- the screen

  /** How far a bot can get before the horizon, and never farther than across the arena. */
  predicate IsReach(reach: real, o: Observation, policy: Policy, across: real) {
    var ticks := policy.predictionHorizonTicks as real;
    var travelled := o.snapshot.normalTopSpeed * ticks / 400.0;
    if travelled < across then reach == travelled else reach == across
  }

  /** What the screen measures with: the arena's diagonal and that reach; its escape ray runs toward the target
      for exactly the reach. */
  lemma ScreenIsExact(o: Observation, body: PhysicsBody, policy: Policy, target: Vector2)
    requires ValidObservation(o)
    ensures var s, d := ScreenOf(o, body, policy), Magnitude(o.geometry, Offset(body.position, target));
      && s.origin == body.position && s.geometry == o.geometry
      && s.diagonal > 0.0 && s.diagonal * s.diagonal == o.geometry.width * o.geometry.width +
                                                        o.geometry.height * o.geometry.height
      && IsReach(s.reach, o, policy, s.diagonal)
      && IsLength(d, body.position, target)
      && (d > 0.0 ==>
            var ray := EscapeRay(s, Offset(body.position, target), d);
            ray.x * d == (target.x - body.position.x) * s.reach && ray.y * d == (target.y - body.position.y) * s.reach)
  {
    hide IsSquareRoot, Square, SquaredMagnitude, IsLength, ValidStore;
    var g := o.geometry;
    var size := Vector2(g.width, g.height);
    ArenaDiagonalIsPositive(g);
    MagnitudeIsPositive(g, size);
    InComponents(size);
    SquareIsProduct(Magnitude(g, size));
    MagnitudeIsLength(g, body.position, target);
    ReachIsExact(o, policy, Magnitude(g, size));
    var d := Magnitude(g, Offset(body.position, target));
    if d > 0.0 {
      ScaledBack(target.x - body.position.x, d, Reach(o, policy, Magnitude(g, size)));
      ScaledBack(target.y - body.position.y, d, Reach(o, policy, Magnitude(g, size)));
    }
  }

  lemma ReachIsExact(o: Observation, policy: Policy, across: real)
    requires across > 0.0
    ensures IsReach(Reach(o, policy, across), o, policy, across)
  {
    var top, ticks := o.snapshot.normalTopSpeed, policy.predictionHorizonTicks as real;
    Rearranged(top, ticks);
    if policy.predictionHorizonTicks == 0 { assert ticks == 0.0; }
  }

  lemma Rearranged(top: real, ticks: real)
    ensures top * (ticks * FIXED_DELTA) == top * ticks / 400.0
    ensures ticks == 0.0 ==> top * ticks / 400.0 == 0.0
  {
  }

  lemma ScaledBack(x: real, d: real, reach: real)
    requires d > 0.0
    ensures (x / d) * reach * d == x * reach
  {
    var q := x / d;
    assert q * d == x;
    assert q * reach * d == (q * d) * reach;
  }

  /** One raw objective under the screen: dropped exactly when it stands on no ground or the ground ends on the way
      there; refused exactly when that way, or the escape ray of a bot that can get anywhere, is out of the
      simulation's domain; and otherwise kept, with its distance as a share of the diagonal and the ray's answer. */
  lemma ObjectiveIsScreened(s: Screen, c: Candidate)
    requires s.diagonal > 0.0
    ensures var r, off := ScreenOne(s, c), Vector2(c.target.x - s.origin.x, c.target.y - s.origin.y);
      var d := s.geometry.root(SquaredWay(s.origin, c.target));
      var stands, ends := s.geometry.supportsPoint(c.target), s.geometry.firstSupportExit(s.origin, off).Some?;
      var moves := s.reach > 0.0 && d > 0.0;
      var ray := if moves then EscapeRay(s, off, d) else ZERO_VECTOR;
      var share := if d < s.diagonal then d / s.diagonal else 1.0;
      && (r == Success(Screened([], 0)) <==> !stands || (InDomain(off) && ends))
      && (r == Failure(VectorOutOfRange) <==>
            stands && (!InDomain(off) || (!ends && moves && !InDomain(ray))))
      && (stands && InDomain(off) && !ends && !moves ==>
            r == Success(Screened([c.(normalizedDistance := share)], 0)))
      && (stands && InDomain(off) && !ends && moves && InDomain(ray) ==>
            r == Success(Screened([c.(normalizedDistance := share,
                                      escapeBlocked := s.geometry.firstSupportExit(s.origin, ray).Some?)], 1)))
  {
    hide SquaredMagnitude, SquaredWay, EscapeRay;
    MeasuredOut(s.origin, c.target);
    var d := Magnitude(s.geometry, Offset(s.origin, c.target));
    ShareBelowOne(d, s.diagonal);
  }

  lemma ShareBelowOne(d: real, most: real)
    requires most > 0.0
    ensures d < most <==> d / most < 1.0
  {
    var q := d / most;
    assert q * most == d;
    TimesSign(1.0 - q, most);
    TimesSign(q - 1.0, most);
  }

  /** The screen lets through exactly the raw objectives that stand on the ground in a straight line over
      ground. */
  lemma ScreenedAreTheReachable(s: Screen, raws: seq<Candidate>, key: ObjectiveKey, target: Vector2)
    requires s.diagonal > 0.0 && IsSquareRoot(s.geometry.root) && AllSoundRaw(s.origin, raws) && DistinctKeys(raws)
    requires ScreenAll(s, raws).Success?
    ensures (exists x :: x in ScreenAll(s, raws).value.candidates && x.key == key && x.target == target) <==>
      && (exists c :: c in raws && c.key == key && c.target == target) && s.geometry.supportsPoint(target)
      && s.geometry.firstSupportExit(s.origin, Offset(s.origin, target)).None?
  {
    hide ScreenAll, SoundRaw, SquaredMagnitude, IsSquareRoot, EscapeRay;
    var kept := ScreenAll(s, raws).value.candidates;
    ScreenedIsSound(s, raws);
    if x :| x in kept && x.key == key && x.target == target {
      assert SoundScreened(s, x);
      var c :| c in raws && c.key == x.key && c.target == x.target;
    }
    if s.geometry.supportsPoint(target) && s.geometry.firstSupportExit(s.origin, Offset(s.origin, target)).None? {
      forall c | c in raws && c.key == key && c.target == target
        ensures exists x :: x in kept && x.key == key && x.target == target
      {
        ScreenKeepsReachable(s, raws, c);
      }
    }
  }

  // ---------------------------------------------------------------- the work a pass reports

  /** The hills met ahead of themselves. */
  ghost function Intercepted(circles: Store<Circle>, motions: Store<Vector2>): set<nat> {
    set i: nat | i < |circles| && Find(motions, circles[i].entity).Some?
  }

  lemma OneMoreCircle(circles: Store<Circle>, motions: Store<Vector2>)
    requires circles != []
    ensures var n := |circles| - 1;
      |Intercepted(circles, motions)| ==
      |Intercepted(circles[..n], motions)| + if Find(motions, circles[n].entity).Some? then 1 else 0
  {
    var n := |circles| - 1;
    assert Intercepted(circles, motions) ==
      Intercepted(circles[..n], motions) + if Find(motions, circles[n].entity).Some? then {n} else {};
  }

  lemma {:induction false} InterceptsAreCounted(kind: ObjectiveKind, circles: Store<Circle>, motions: Store<Vector2>,
                                                body: PhysicsBody, policy: Policy)
    requires CircleCandidates(kind, circles, motions, body, policy).Success?
    ensures CircleCandidates(kind, circles, motions, body, policy).value.predictions ==
            if policy.predictionHorizonTicks > 0 then |Intercepted(circles, motions)| else 0
  {
    hide CircleCandidate, Intercepted, Find, RadiusAdmitted;
    if circles == [] {
      NothingIsThere(motions);
    } else {
      InterceptsAreCounted(kind, circles[..|circles| - 1], motions, body, policy);
      OneMoreCircle(circles, motions);
    }
  }

  lemma NothingIsThere(motions: Store<Vector2>)
    ensures Intercepted([], motions) == {}
  {
  }

  /** The candidates an escape ray was cast for: those somewhere else than the bot. */
  ghost function CastFor(origin: Vector2, kept: seq<Candidate>): set<nat> {
    set i: nat | i < |kept| && kept[i].target != origin
  }

  lemma {:induction false} CastsAreCounted(s: Screen, raws: seq<Candidate>)
    requires s.diagonal > 0.0 && IsSquareRoot(s.geometry.root) && ScreenAll(s, raws).Success?
    ensures ScreenAll(s, raws).value.predictions ==
            if s.reach > 0.0 then |CastFor(s.origin, ScreenAll(s, raws).value.candidates)| else 0
  {
    hide ScreenOne, IsSquareRoot;
    if raws != [] {
      var n := |raws| - 1;
      CastsAreCounted(s, raws[..n]);
      OneIsCast(s, raws[n]);
      var before, one := ScreenAll(s, raws[..n]).value.candidates, ScreenOne(s, raws[n]).value.candidates;
      var k := |before|;
      if one == [] {
        assert before + one == before;
      } else {
        assert CastFor(s.origin, before + one) ==
          CastFor(s.origin, before) + if one[0].target != s.origin then {k} else {};
      }
    }
  }

  lemma OneIsCast(s: Screen, c: Candidate)
    requires s.diagonal > 0.0 && IsSquareRoot(s.geometry.root) && ScreenOne(s, c).Success?
    ensures var one := ScreenOne(s, c).value;
      && |one.candidates| <= 1 && (one.candidates == [] ==> one.predictions == 0)
      && (one.candidates != [] ==>
            && one.candidates[0].target == c.target
            && one.predictions == if s.reach > 0.0 && c.target != s.origin then 1 else 0)
  {
    hide IsSquareRoot, Magnitude, EscapeRay, IsLength;
    MagnitudeIsLength(s.geometry, s.origin, c.target);
    LengthIsPositive(Magnitude(s.geometry, Offset(s.origin, c.target)), s.origin, c.target);
  }

  /** The work of a pass: the raw objectives, those left, and one prediction for each hill met ahead of itself and
      for each escape ray. */
  lemma WorkIsCounted(o: Observation, body: PhysicsBody, policy: Policy)
    requires ValidObservation(o) && ValidPolicy(policy) && Collected(o, body, policy).Success?
    ensures RawCandidates(o, body, policy).Success?
    ensures var r, s := Collected(o, body, policy).value, ScreenOf(o, body, policy);
      var met := if o.snapshot.mode.KingOfTheHill? && policy.predictionHorizonTicks > 0
                 then |Intercepted(o.snapshot.hills, o.snapshot.hillMotions)| else 0;
      var cast := if s.reach > 0.0 then |CastFor(body.position, r.candidates)| else 0;
      r.work == Work(|RawCandidates(o, body, policy).value.candidates|, |r.candidates|, met + cast)
  {
    hide ScreenAll, CircleCandidates, RaceCandidates, ShoveCandidates, ScreenOf, IsSquareRoot, ValidStore,
      ArenaDiagonal,
      Intercepted;
    ArenaDiagonalIsPositive(o.geometry);
    ScreenMeasuresTheArena(o, body, policy);
    ScreenStartsAtTheBody(o, body, policy);
    var raw := RawCandidates(o, body, policy).value;
    CastsAreCounted(ScreenOf(o, body, policy), raw.candidates);
    RawPredictions(o, body, policy);
  }

  lemma RawPredictions(o: Observation, body: PhysicsBody, policy: Policy)
    requires ValidObservation(o) && ValidPolicy(policy) && RawCandidates(o, body, policy).Success?
    ensures RawCandidates(o, body, policy).value.predictions ==
            if o.snapshot.mode.KingOfTheHill? && policy.predictionHorizonTicks > 0
            then |Intercepted(o.snapshot.hills, o.snapshot.hillMotions)| else 0
  {
    hide CircleCandidates, ShoveCandidates, ValidStore, IsSquareRoot, Intercepted;
    match o.snapshot.mode {
      case KingOfTheHill => InterceptsAreCounted(Hill, o.snapshot.hills, o.snapshot.hillMotions, body, policy);
      case RoyalePlacements =>
        InterceptsAreCounted(Zone, o.snapshot.zones, [], body, policy);
        NothingIsIntercepted(o.snapshot.zones);
      case _ =>
    }
  }

  lemma NothingIsIntercepted(circles: Store<Circle>)
    ensures |Intercepted(circles, [])| == 0
  {
    assert Intercepted(circles, []) == {};
  }
}
