/** The provider that turns a nearby opponent and the nearest badness into somewhere to stand. */
module ShoveSetups {
  import opened Wrappers
  import opened SeatRosters
  import opened Commands
  import opened PlaneArithmetic
  import opened Observations
  import opened NearestOpponents
  import opened TacticalCandidates

  const SHOVE_STANDOFF_DIAGONAL_FRACTION: real := 0.01
  const EXPOSURE_STUN_WEIGHT: real := 0.5
  const EXPOSURE_SHIELD_SPENT_WEIGHT: real := 0.125
  const EXPOSURE_CHARGE_SPENT_WEIGHT: real := 0.125
  const EXPOSURE_OUTSIDE_ZONE_WEIGHT: real := 0.125
  const EXPOSURE_HILL_HOLD_WEIGHT: real := 0.125

  // ---------------------------------------------------------------- exposure and opening

  function Exposure(s: Snapshot, opponent: EntityId, now: Tick): real {
    var stun := Find(s.stuns, opponent);
    var shield := Find(s.shields, opponent);
    var charge := Find(s.chargeCooldowns, opponent);
    (if stun.Some? && stun.value.Contains(now) then EXPOSURE_STUN_WEIGHT else 0.0) +
    (if shield.Some? && !shield.value.cooldown.Expired(now) && !shield.value.protection.Contains(now)
     then EXPOSURE_SHIELD_SPENT_WEIGHT else 0.0) +
    (if charge.Some? && !charge.value.Expired(now) then EXPOSURE_CHARGE_SPENT_WEIGHT else 0.0) +
    (if Find(s.zoneExposures, opponent).Some? then EXPOSURE_OUTSIDE_ZONE_WEIGHT else 0.0) +
    (if Find(s.hillPresences, opponent).Some? then EXPOSURE_HILL_HOLD_WEIGHT else 0.0)
  }

  function Opening(exposure: real, preference: real): real {
    Times(exposure, preference) + (1.0 - preference)
  }

  /** Whatever is published the opening stays in the range the escape penalty lives in; no preference
      makes it exactly one and full preference makes it the exposure itself. */
  lemma OpeningStaysInUnitInterval(s: Snapshot, opponent: EntityId, now: Tick, preference: real)
    requires UnitInterval(preference)
    ensures UnitInterval(Opening(Exposure(s, opponent, now), preference))
    ensures preference == 0.0 ==> Opening(Exposure(s, opponent, now), preference) == 1.0
    ensures preference == 1.0 ==> Opening(Exposure(s, opponent, now), preference) == Exposure(s, opponent, now)
  {
    var e := Exposure(s, opponent, now);
    assert UnitInterval(e);
    UnitProduct(e, preference);
  }

  /** The published signs that an opponent is exposed: stunned now, shield spent but not protecting,
      charge spent, outside the zone, holding a hill. */
  ghost predicate Stunned(s: Snapshot, e: EntityId, now: Tick) {
    exists x :: x in s.stuns && x.entity == e && x.value.activation <= now < x.value.expiry
  }

  ghost predicate ShieldSpent(s: Snapshot, e: EntityId, now: Tick) {
    exists x ::
      && x in s.shields && x.entity == e && now < x.value.cooldown.expiry
      && !(x.value.protection.activation <= now < x.value.protection.expiry)
  }

  ghost predicate ChargeSpent(s: Snapshot, e: EntityId, now: Tick) {
    exists x :: x in s.chargeCooldowns && x.entity == e && now < x.value.expiry
  }

  ghost predicate Holds(s: Store<()>, e: EntityId) {
    exists x :: x in s && x.entity == e
  }

  function Worth(sign: bool, weight: real): real {
    if sign then weight else 0.0
  }

  /** Exposure counts each sign the stores publish once: a stun for a half, every other for an eighth. */
  lemma ExposureCountsSigns(s: Snapshot, e: EntityId, now: Tick)
    requires ValidStore(s.stuns) && ValidStore(s.shields) && ValidStore(s.chargeCooldowns)
    ensures Exposure(s, e, now) ==
      Worth(Stunned(s, e, now), 0.5) + Worth(ShieldSpent(s, e, now), 0.125) + Worth(ChargeSpent(s, e, now), 0.125) +
      Worth(Holds(s.zoneExposures, e), 0.125) + Worth(Holds(s.hillPresences, e), 0.125)
  {
    StoreAnswers(s.stuns, e);
    StoreAnswers(s.shields, e);
    StoreAnswers(s.chargeCooldowns, e);
    assert Find(s.zoneExposures, e).Some? ==> Entry(e, Find(s.zoneExposures, e).value) in s.zoneExposures;
    assert Find(s.hillPresences, e).Some? ==> Entry(e, Find(s.hillPresences, e).value) in s.hillPresences;
  }

  lemma StoreAnswers<T>(s: Store<T>, e: EntityId)
    requires ValidStore(s)
    ensures Find(s, e).Some? ==> Entry(e, Find(s, e).value) in s
    ensures forall x :: x in s && x.entity == e ==> Find(s, e) == Some(x.value)
  {
    forall x | x in s && x.entity == e ensures Find(s, e) == Some(x.value) { FindIsUnique(s, x); }
  }

  // ---------------------------------------------------------------- the nearest badness

  datatype HazardSource = Hole | CorridorEdge | LethalEntity | HillExit

  function SourceOrdinal(s: HazardSource): nat {
    match s
    case Hole => 0
    case CorridorEdge => 1
    case LethalEntity => 2
    case HillExit => 3
  }

  datatype Hazard = Hazard(distance: real, away: Vector2, source: HazardSource, identity: nat)

  predicate HazardPrecedes(l: Hazard, r: Hazard) {
    if l.distance != r.distance then l.distance < r.distance
    else if l.source != r.source then SourceOrdinal(l.source) < SourceOrdinal(r.source)
    else l.identity < r.identity
  }

  /** A badness at a point: the safe side is straight away from it. */
  function OutwardHazard(g: Geometry, bad: Vector2, position: Vector2, source: HazardSource, identity: nat): seq<Hazard>
  {
    var delta := Offset(bad, position);
    var distance := Magnitude(g, delta);
    if distance > 0.0 then [Hazard(distance, Vector2(delta.x / distance, delta.y / distance), source, identity)] else []
  }

  /** A badness past an edge the opponent is inside of: the safe side is the middle's. */
  function InwardHazard(g: Geometry, middle: Vector2, position: Vector2, left: real, source: HazardSource,
                        identity: nat): seq<Hazard>
  {
    var outward := Offset(middle, position);
    var distance := Magnitude(g, outward);
    if distance > 0.0 then [Hazard(left, Vector2(-outward.x / distance, -outward.y / distance), source, identity)]
    else []
  }

  function HoleHazards(g: Geometry, position: Vector2, count: nat): seq<Hazard>
    requires count <= |g.holes|
  {
    if count == 0 then []
    else HoleHazards(g, position, count - 1) + OutwardHazard(g, g.holes[count - 1], position, Hole, count - 1)
  }

  /** The first of the nearest centrelines among the first count corridors. */
  function NearestCorridor(g: Geometry, position: Vector2, count: nat): (r: Option<nat>)
    ensures r.None? <==> count == 0
    ensures r.Some? ==> r.value < count
  {
    if count == 0 then None
    else
      match NearestCorridor(g, position, count - 1)
      case None => Some(count - 1)
      case Some(road) =>
        Some(if g.centrelineDistance(count - 1, position) < g.centrelineDistance(road, position)
             then count - 1 else road)
  }

  function EdgeHazard(g: Geometry, road: nat, position: Vector2): seq<Hazard>
    requires road < |g.corridors|
  {
    if g.centrelineDistance(road, position) <= g.corridors[road] then
      var p := g.centrelineProjection(road, position);
      InwardHazard(g, p.point, position, g.corridors[road] - p.distance, CorridorEdge, road)
    else []
  }

  function RoadHazards(g: Geometry, position: Vector2): seq<Hazard> {
    match NearestCorridor(g, position, |g.corridors|)
    case None => []
    case Some(road) => EdgeHazard(g, road, position)
  }

  function LethalHazards(g: Geometry, lethals: seq<(EntityId, (), PhysicsBody)>, position: Vector2): seq<Hazard> {
    if lethals == [] then []
    else
      var last := lethals[|lethals| - 1];
      LethalHazards(g, lethals[..|lethals| - 1], position) +
        OutwardHazard(g, last.2.position, position, LethalEntity, last.0)
  }

  function ExitHazard(g: Geometry, hill: Entry<Circle>, position: Vector2): seq<Hazard> {
    var distance := Magnitude(g, Offset(hill.value.center, position));
    if distance <= hill.value.radius
    then InwardHazard(g, hill.value.center, position, hill.value.radius - distance, HillExit, hill.entity)
    else []
  }

  function HillHazards(g: Geometry, hills: Store<Circle>, position: Vector2): seq<Hazard> {
    if hills == [] then []
    else HillHazards(g, hills[..|hills| - 1], position) + ExitHazard(g, hills[|hills| - 1], position)
  }

  /** Every badness on offer for one opponent, in the order the provider meets them. */
  function OfferedHazards(o: Observation, position: Vector2): seq<Hazard> {
    var g := o.geometry;
    HoleHazards(g, position, |g.holes|) + RoadHazards(g, position) +
    LethalHazards(g, Join(o.snapshot.lethals, o.snapshot.bodies), position) +
    HillHazards(g, o.snapshot.hills, position)
  }

  function OfferHazard(best: Option<Hazard>, h: Hazard): Option<Hazard> {
    if best.None? || HazardPrecedes(h, best.value) then Some(h) else best
  }

  function NearestOf(offers: seq<Hazard>): Option<Hazard> {
    if offers == [] then None else OfferHazard(NearestOf(offers[..|offers| - 1]), offers[|offers| - 1])
  }

  /** The badness a shove aims at is one of those on offer, and none on offer precedes it. */
  lemma {:induction false} NearestHazardIsLeast(offers: seq<Hazard>)
    ensures NearestOf(offers).None? <==> offers == []
    ensures NearestOf(offers).Some? ==>
      NearestOf(offers).value in offers && forall h :: h in offers ==> !HazardPrecedes(h, NearestOf(offers).value)
  {
    if offers != [] {
      var front, last := offers[..|offers| - 1], offers[|offers| - 1];
      NearestHazardIsLeast(front);
      assert offers == front + [last];
    }
  }

  lemma OneMoreOffer(before: seq<Hazard>, offer: seq<Hazard>)
    requires |offer| <= 1
    ensures NearestOf(before + offer) ==
      if offer == [] then NearestOf(before) else OfferHazard(NearestOf(before), offer[0])
  {
    if offer == [] {
      assert before + offer == before;
    } else {
      assert (before + offer)[..|before + offer| - 1] == before;
    }
  }

  method Consider(best: Option<Hazard>, offer: seq<Hazard>, ghost before: seq<Hazard>) returns (r: Option<Hazard>)
    requires |offer| <= 1 && best == NearestOf(before)
    ensures r == NearestOf(before + offer)
  {
    OneMoreOffer(before, offer);
    r := if offer == [] then best else OfferHazard(best, offer[0]);
  }

  /** The four walks over published badnesses, keeping the best one met. */
  method NearestShoveHazard(o: Observation, position: Vector2) returns (best: Option<Hazard>)
    ensures best == NearestOf(OfferedHazards(o, position))
  {
    var g := o.geometry;
    best := None;
    for i := 0 to |g.holes|
      invariant best == NearestOf(HoleHazards(g, position, i))
    {
      best := Consider(best, OutwardHazard(g, g.holes[i], position, Hole, i), HoleHazards(g, position, i));
    }
    ghost var met := HoleHazards(g, position, |g.holes|);
    best := ConsiderRoad(g, position, best, met);
    met := met + RoadHazards(g, position);
    best := ConsiderLethals(g, position, Join(o.snapshot.lethals, o.snapshot.bodies), best, met);
    met := met + LethalHazards(g, Join(o.snapshot.lethals, o.snapshot.bodies), position);
    best := ConsiderHills(g, position, o.snapshot.hills, best, met);
  }

  method ConsiderRoad(g: Geometry, position: Vector2, best: Option<Hazard>, ghost met: seq<Hazard>)
    returns (r: Option<Hazard>)
    requires best == NearestOf(met)
    ensures r == NearestOf(met + RoadHazards(g, position))
  {
    var road: Option<nat> := None;
    for i := 0 to |g.corridors|
      invariant road == NearestCorridor(g, position, i)
    {
      if road.None? || g.centrelineDistance(i, position) < g.centrelineDistance(road.value, position) {
        road := Some(i);
      }
    }
    r := Consider(best, if road.None? then [] else EdgeHazard(g, road.value, position), met);
  }

  method ConsiderLethals(g: Geometry, position: Vector2, lethals: seq<(EntityId, (), PhysicsBody)>,
                         best: Option<Hazard>, ghost met: seq<Hazard>)
    returns (r: Option<Hazard>)
    requires best == NearestOf(met)
    ensures r == NearestOf(met + LethalHazards(g, lethals, position))
  {
    r := best;
    assert met + [] == met;
    for i := 0 to |lethals|
      invariant r == NearestOf(met + LethalHazards(g, lethals[..i], position))
    {
      assert lethals[..i + 1][..i] == lethals[..i];
      ghost var before := LethalHazards(g, lethals[..i], position);
      var offer := OutwardHazard(g, lethals[i].2.position, position, LethalEntity, lethals[i].0);
      r := Consider(r, offer, met + before);
      assert met + before + offer == met + (before + offer);
    }
    assert lethals[..|lethals|] == lethals;
  }

  method ConsiderHills(g: Geometry, position: Vector2, hills: Store<Circle>, best: Option<Hazard>,
                       ghost met: seq<Hazard>)
    returns (r: Option<Hazard>)
    requires best == NearestOf(met)
    ensures r == NearestOf(met + HillHazards(g, hills, position))
  {
    r := best;
    assert met + [] == met;
    for i := 0 to |hills|
      invariant r == NearestOf(met + HillHazards(g, hills[..i], position))
    {
      assert hills[..i + 1][..i] == hills[..i];
      ghost var before := HillHazards(g, hills[..i], position);
      var offer := ExitHazard(g, hills[i], position);
      r := Consider(r, offer, met + before);
      assert met + before + offer == met + (before + offer);
    }
    assert hills[..|hills|] == hills;
  }

  // ---------------------------------------------------------------- standing behind the opponent

  function StandingPoint(opponent: ShoveOpponent, away: Vector2, standoff: real): Vector2 {
    Vector2(opponent.x + away.x * standoff, opponent.y + away.y * standoff)
  }

  /** What a badness is measured from, and where the opponent is along its away direction from there: that
      far past a hole or a lethal body, and short of the middle of a road or a hill. */
  datatype Anchor = Anchor(point: Vector2, coordinate: real)

  ghost predicate IsAnchor(o: Observation, position: Vector2, h: Hazard, a: Anchor) {
    var g := o.geometry;
    match h.source
    case Hole => h.identity < |g.holes| && a == Anchor(g.holes[h.identity], h.distance)
    case CorridorEdge =>
      h.identity < |g.corridors| &&
      var p := g.centrelineProjection(h.identity, position);
      && a == Anchor(p.point, -Magnitude(g, Offset(p.point, position)))
      && h.distance == g.corridors[h.identity] - p.distance
    case LethalEntity =>
      exists x ::
        x in Join(o.snapshot.lethals, o.snapshot.bodies) && x.0 == h.identity && a == Anchor(x.2.position, h.distance)
    case HillExit =>
      exists e ::
        e in o.snapshot.hills && e.entity == h.identity && a == Anchor(e.value.center, h.distance - e.value.radius)
  }

  ghost predicate LiesAlong(position: Vector2, h: Hazard, a: Anchor) {
    IsUnit(h.away) && Offset(a.point, position) == Vector2(h.away.x * a.coordinate, h.away.y * a.coordinate)
  }

  ghost predicate Anchored(o: Observation, position: Vector2, h: Hazard) {
    exists a :: IsAnchor(o, position, h, a) && LiesAlong(position, h, a)
  }

  ghost predicate AllAnchored(o: Observation, position: Vector2, s: seq<Hazard>) {
    forall h :: h in s ==> Anchored(o, position, h)
  }

  lemma AwayFromOutside(g: Geometry, at: Vector2, position: Vector2, source: HazardSource, identity: nat)
    requires IsSquareRoot(g.root)
    ensures forall h :: h in OutwardHazard(g, at, position, source, identity) ==>
      h.source == source && h.identity == identity && LiesAlong(position, h, Anchor(at, h.distance))
  {
    hide Square, SquaredMagnitude;
    var delta := Offset(at, position);
    MagnitudeIsPositive(g, delta);
    if Magnitude(g, delta) > 0.0 { UnitOfOffset(delta, Magnitude(g, delta)); }
  }

  lemma AwayFromInside(g: Geometry, middle: Vector2, position: Vector2, left: real, source: HazardSource, identity: nat)
    requires IsSquareRoot(g.root)
    ensures forall h :: h in InwardHazard(g, middle, position, left, source, identity) ==>
      && h.source == source && h.identity == identity && h.distance == left
      && LiesAlong(position, h, Anchor(middle, -Magnitude(g, Offset(middle, position))))
  {
    hide Square, SquaredMagnitude, Magnitude;
    var outward := Offset(middle, position);
    var distance := Magnitude(g, outward);
    MagnitudeIsPositive(g, outward);
    if distance > 0.0 {
      UnitOfOffset(outward, distance);
      assert -outward.x / distance * -distance == outward.x && -outward.y / distance * -distance == outward.y;
    }
  }

  /** Every badness on offer for an opponent lies along its own unit direction from what it is measured from. */
  lemma OfferedHazardsAreAnchored(o: Observation, position: Vector2)
    requires IsSquareRoot(o.geometry.root)
    ensures AllAnchored(o, position, OfferedHazards(o, position))
  {
    hide Anchored;
    var g := o.geometry;
    HoleHazardsAreAnchored(o, position, |g.holes|);
    var lethals := Join(o.snapshot.lethals, o.snapshot.bodies);
    assert lethals[..|lethals|] == lethals && o.snapshot.hills[..|o.snapshot.hills|] == o.snapshot.hills;
    LethalHazardsAreAnchored(o, position, |lethals|);
    HillHazardsAreAnchored(o, position, |o.snapshot.hills|);
    RoadHazardsAreAnchored(o, position);
  }

  lemma RoadHazardsAreAnchored(o: Observation, position: Vector2)
    requires IsSquareRoot(o.geometry.root)
    ensures AllAnchored(o, position, RoadHazards(o.geometry, position))
  {
    hide InwardHazard, LiesAlong, Magnitude;
    var g := o.geometry;
    match NearestCorridor(g, position, |g.corridors|) {
      case None =>
      case Some(road) =>
        var p := g.centrelineProjection(road, position);
        AwayFromInside(g, p.point, position, g.corridors[road] - p.distance, CorridorEdge, road);
        forall h | h in EdgeHazard(g, road, position) ensures Anchored(o, position, h) {
          assert IsAnchor(o, position, h, Anchor(p.point, -Magnitude(g, Offset(p.point, position))));
        }
    }
  }

  lemma {:induction false} HoleHazardsAreAnchored(o: Observation, position: Vector2, count: nat)
    requires count <= |o.geometry.holes| && IsSquareRoot(o.geometry.root)
    ensures AllAnchored(o, position, HoleHazards(o.geometry, position, count))
  {
    hide OutwardHazard, LiesAlong;
    var g := o.geometry;
    if count > 0 {
      HoleHazardsAreAnchored(o, position, count - 1);
      AwayFromOutside(g, g.holes[count - 1], position, Hole, count - 1);
      forall h | h in OutwardHazard(g, g.holes[count - 1], position, Hole, count - 1) ensures Anchored(o, position, h) {
        assert IsAnchor(o, position, h, Anchor(g.holes[count - 1], h.distance));
      }
    }
  }

  lemma {:induction false} LethalHazardsAreAnchored(o: Observation, position: Vector2, count: nat)
    requires count <= |Join(o.snapshot.lethals, o.snapshot.bodies)| && IsSquareRoot(o.geometry.root)
    ensures AllAnchored(o, position,
                        LethalHazards(o.geometry, Join(o.snapshot.lethals, o.snapshot.bodies)[..count], position))
  {
    hide OutwardHazard, LiesAlong;
    var g, lethals := o.geometry, Join(o.snapshot.lethals, o.snapshot.bodies);
    if count > 0 {
      LethalHazardsAreAnchored(o, position, count - 1);
      var x := lethals[count - 1];
      assert lethals[..count][..count - 1] == lethals[..count - 1] && x in lethals;
      AwayFromOutside(g, x.2.position, position, LethalEntity, x.0);
      forall h | h in OutwardHazard(g, x.2.position, position, LethalEntity, x.0) ensures Anchored(o, position, h) {
        assert IsAnchor(o, position, h, Anchor(x.2.position, h.distance));
      }
    }
  }

  lemma {:induction false} HillHazardsAreAnchored(o: Observation, position: Vector2, count: nat)
    requires count <= |o.snapshot.hills| && IsSquareRoot(o.geometry.root)
    ensures AllAnchored(o, position, HillHazards(o.geometry, o.snapshot.hills[..count], position))
  {
    hide InwardHazard, LiesAlong, Magnitude;
    var g, hills := o.geometry, o.snapshot.hills;
    if count > 0 {
      HillHazardsAreAnchored(o, position, count - 1);
      var e := hills[count - 1];
      assert hills[..count][..count - 1] == hills[..count - 1] && e in hills;
      var distance := Magnitude(g, Offset(e.value.center, position));
      AwayFromInside(g, e.value.center, position, e.value.radius - distance, HillExit, e.entity);
      forall h | h in ExitHazard(g, e, position) ensures Anchored(o, position, h) {
        assert IsAnchor(o, position, h, Anchor(e.value.center, h.distance - e.value.radius));
      }
    }
  }

  /** Standing one standoff behind the opponent along the safe direction: exactly one standoff from
      the opponent, and farther from the badness by exactly that. */
  lemma StandingPointIsBehind(opponent: ShoveOpponent, bad: Vector2, d: real, away: Vector2, standoff: real)
    requires IsUnit(away) && Offset(bad, Vector2(opponent.x, opponent.y)) == Vector2(away.x * d, away.y * d)
    ensures var s := StandingPoint(opponent, away, standoff);
      && SquaredMagnitude(Offset(Vector2(opponent.x, opponent.y), s)) == Square(standoff)
      && SquaredMagnitude(Offset(bad, s)) == Square(d + standoff)
  {
    hide SquaredMagnitude, Square;
    StandingIsOneStandoffAway(opponent, away, standoff);
    var s, k := StandingPoint(opponent, away, standoff), d + standoff;
    ScaledUnit(away, k);
    assert Offset(bad, Vector2(opponent.x, opponent.y)).x == away.x * d;
    assert Offset(bad, Vector2(opponent.x, opponent.y)).y == away.y * d;
    Distribute(away.x, d, standoff);
    Distribute(away.y, d, standoff);
    assert Offset(bad, s) == Vector2(away.x * k, away.y * k);
  }

  lemma StandingIsOneStandoffAway(opponent: ShoveOpponent, away: Vector2, standoff: real)
    requires IsUnit(away)
    ensures SquaredMagnitude(Offset(Vector2(opponent.x, opponent.y), StandingPoint(opponent, away, standoff))) ==
      Square(standoff)
  {
    hide SquaredMagnitude, Square;
    ScaledUnit(away, standoff);
    assert Offset(Vector2(opponent.x, opponent.y), StandingPoint(opponent, away, standoff)) ==
      Vector2(away.x * standoff, away.y * standoff);
  }

  /** Arriving at a standing point never overlaps the opponent: anywhere within the margin of the point
      is at least a standoff less that margin away, which is the sum of the two radii. */
  lemma ArrivalStopsAtContact(g: Geometry, opponent: Vector2, standing: Vector2, at: Vector2, contact: real,
                              margin: real)
    requires IsSquareRoot(g.root) && contact >= 0.0 && margin >= 0.0
    requires SquaredMagnitude(Offset(opponent, standing)) == Square(contact + margin)
    requires SquaredMagnitude(Offset(standing, at)) <= Square(margin)
    ensures SquaredMagnitude(Offset(opponent, at)) >= Square(contact)
  {
    hide Square, SquaredMagnitude, Magnitude, IsSquareRoot;
    var u, v := Offset(opponent, standing), Offset(standing, at);
    var n := Magnitude(g, v);
    MagnitudeIsPositive(g, v);
    assert 0.0 <= n <= margin by {
      InComponents(v);
      SquareIsProduct(n);
      SquareIsProduct(margin);
      RootIsMonotone(n, margin);
    }
    NearButOutside(u, v, n, margin, contact);
    assert Offset(opponent, at) == Vector2(u.x + v.x, u.y + v.y);
  }

  lemma NearButOutside(u: Vector2, v: Vector2, n: real, margin: real, contact: real)
    requires 0.0 <= n <= margin && contact >= 0.0
    requires SquaredMagnitude(u) == Square(contact + margin) && SquaredMagnitude(v) == Square(n)
    ensures SquaredMagnitude(Vector2(u.x + v.x, u.y + v.y)) >= Square(contact)
  {
    hide Square, SquaredMagnitude;
    InComponents(u);
    InComponents(v);
    InComponents(Vector2(u.x + v.x, u.y + v.y));
    SquareIsProduct(n);
    SquareIsProduct(contact);
    SquareIsProduct(contact + margin);
    NearButNotInside(u.x, u.y, v.x, v.y, n, margin, contact);
  }

  // ---------------------------------------------------------------- the opponents kept

  function OpponentOf(self: PhysicsBody, e: EntityId, b: PhysicsBody): ShoveOpponent {
    ShoveOpponent(e, b.position.x, b.position.y, b.radius, SquaredMagnitude(Offset(self.position, b.position)))
  }

  lemma OpponentKeepsEntity(self: PhysicsBody, e: EntityId, b: PhysicsBody)
    ensures OpponentOf(self, e, b).entity == e
  {
  }

  predicate IsOpponent(o: Observation, b: PhysicsBody, c: Controllable) {
    c.controllerId != o.controller && !b.isStatic
  }

  function OpponentsIn(o: Observation, self: PhysicsBody,
                       joined: seq<(EntityId, PhysicsBody, Controllable)>): seq<ShoveOpponent>
  {
    if joined == [] then []
    else
      var x := joined[|joined| - 1];
      OpponentsIn(o, self, joined[..|joined| - 1]) +
        if IsOpponent(o, x.1, x.2) then [OpponentOf(self, x.0, x.1)] else []
  }

  function Opponents(o: Observation, self: PhysicsBody): seq<ShoveOpponent> {
    OpponentsIn(o, self, Join(o.snapshot.bodies, o.snapshot.controllables))
  }

  lemma {:induction false} OpponentsAreDistinct(o: Observation, self: PhysicsBody,
                                                joined: seq<(EntityId, PhysicsBody, Controllable)>)
    requires AscendingByEntity(joined)
    ensures DistinctEntities(OpponentsIn(o, self, joined))
    ensures forall p :: p in OpponentsIn(o, self, joined) ==>
      exists x :: x in joined && p == OpponentOf(self, x.0, x.1) && IsOpponent(o, x.1, x.2)
  {
    hide SquaredMagnitude;
    if joined != [] {
      var front, x := joined[..|joined| - 1], joined[|joined| - 1];
      OpponentsAreDistinct(o, self, front);
      var before := OpponentsIn(o, self, front);
      assert joined == front + [x];
      forall i | 0 <= i < |before| ensures before[i].entity != x.0 {
        assert before[i] in before;
        var y :| y in front && before[i] == OpponentOf(self, y.0, y.1);
      }
    }
  }

  // ---------------------------------------------------------------- the provider

  function ShoveMargin(g: Geometry): real {
    ArenaDiagonal(g) * SHOVE_STANDOFF_DIAGONAL_FRACTION
  }

  function OpeningOf(o: Observation, policy: Policy, opponent: EntityId): real {
    Opening(Exposure(o.snapshot, opponent, o.snapshot.tick), policy.exposurePreference)
  }

  function ShoveAt(o: Observation, body: PhysicsBody, policy: Policy, opponent: ShoveOpponent,
                   hazard: Hazard): seq<Candidate>
  {
    var margin := ShoveMargin(o.geometry);
    var s := StandingPoint(opponent, hazard.away, body.radius + opponent.radius + margin);
    if Representable(s)
    then [Built(ObjectiveKey(ShoveSetup, opponent.entity), s, margin,
                body).(opening := OpeningOf(o, policy, opponent.entity))]
    else []
  }

  /** One kept opponent's candidate, or none: too closed a fight, nothing to be shoved into, or a
      standing point that cannot be represented. */
  function ShoveFrom(o: Observation, body: PhysicsBody, policy: Policy, opponent: ShoveOpponent): (r: seq<Candidate>)
    ensures |r| <= 1
  {
    if OpeningOf(o, policy, opponent.entity) < policy.minimumOpening then []
    else
      match NearestOf(OfferedHazards(o, Vector2(opponent.x, opponent.y)))
      case None => []
      case Some(hazard) => ShoveAt(o, body, policy, opponent, hazard)
  }

  function ShovesFrom(o: Observation, body: PhysicsBody, policy: Policy, kept: seq<ShoveOpponent>): (r: seq<Candidate>)
    ensures |r| <= |kept|
  {
    if kept == [] then []
    else ShovesFrom(o, body, policy, kept[..|kept| - 1]) + ShoveFrom(o, body, policy, kept[|kept| - 1])
  }

  function ShoveCandidates(o: Observation, body: PhysicsBody, policy: Policy): (r: seq<Candidate>)
    requires |policy.weights| == OBJECTIVE_KIND_COUNT
    ensures |r| <= MAXIMUM_SHOVE_CANDIDATE_COUNT
  {
    if policy.weights[Ordinal(ShoveSetup)] == 0.0 then [] else ShovesFrom(o, body, policy, OfferAll(Opponents(o, body)))
  }

  /** The standing point is on the opponent's far side of the badness the walks chose: one standoff farther
      along the away direction from what that badness is measured from. */
  ghost predicate StandsBehind(o: Observation, opponent: ShoveOpponent, target: Vector2, standoff: real) {
    var position := Vector2(opponent.x, opponent.y);
    var chosen := NearestOf(OfferedHazards(o, position));
    chosen.Some? &&
    exists a :: IsAnchor(o, position, chosen.value, a) && LiesAlong(position, chosen.value, a) &&
      SquaredMagnitude(Offset(a.point, target)) == Square(a.coordinate + standoff)
  }

  /** What a shove candidate promises: it is about that opponent, stands exactly one standoff from it and
      behind it, arrives without overlapping it, and is as open as the profile asks. */
  lemma ShoveCandidateIsSound(o: Observation, body: PhysicsBody, policy: Policy, opponent: ShoveOpponent, c: Candidate,
                              at: Vector2)
    requires IsSquareRoot(o.geometry.root) && o.geometry.width > 0.0 && UnitInterval(policy.exposurePreference)
    requires body.radius >= 0.0 && opponent.radius >= 0.0 && c in ShoveFrom(o, body, policy, opponent)
    ensures c.key == ObjectiveKey(ShoveSetup, opponent.entity) && policy.minimumOpening <= c.opening
    ensures UnitInterval(c.opening)
    ensures SquaredMagnitude(Offset(Vector2(opponent.x, opponent.y), c.target)) ==
      Square(body.radius + opponent.radius + c.arrivalRadius)
    ensures StandsBehind(o, opponent, c.target, body.radius + opponent.radius + c.arrivalRadius)
    ensures SquaredMagnitude(Offset(c.target, at)) <= Square(c.arrivalRadius) ==>
      SquaredMagnitude(Offset(Vector2(opponent.x, opponent.y), at)) >= Square(body.radius + opponent.radius)
  {
    hide SquaredMagnitude, Square, OfferedHazards, NearestOf, Exposure, Opening, ArenaDiagonal, IsAnchor, StandingPoint,
      StandsBehind;
    var position := Vector2(opponent.x, opponent.y);
    var hazard := NearestOf(OfferedHazards(o, position)).value;
    OfferedHazardsAreAnchored(o, position);
    NearestHazardIsLeast(OfferedHazards(o, position));
    OpeningStaysInUnitInterval(o.snapshot, opponent.entity, o.snapshot.tick, policy.exposurePreference);
    ArenaDiagonalIsPositive(o.geometry);
    var contact, margin := body.radius + opponent.radius, ShoveMargin(o.geometry);
    ChosenStandsBehind(o, opponent, hazard, contact + margin);
    StandingIsOneStandoffAway(opponent, hazard.away, contact + margin);
    if SquaredMagnitude(Offset(c.target, at)) <= Square(margin) {
      ArrivalStopsAtContact(o.geometry, position, c.target, at, contact, margin);
    }
  }

  lemma ChosenStandsBehind(o: Observation, opponent: ShoveOpponent, hazard: Hazard, standoff: real)
    requires var position := Vector2(opponent.x, opponent.y);
      Anchored(o, position, hazard) && NearestOf(OfferedHazards(o, position)) == Some(hazard)
    ensures IsUnit(hazard.away) && StandsBehind(o, opponent, StandingPoint(opponent, hazard.away, standoff), standoff)
  {
    hide SquaredMagnitude, Square, OfferedHazards, NearestOf, IsAnchor, StandingPoint;
    var position := Vector2(opponent.x, opponent.y);
    var a :| IsAnchor(o, position, hazard, a) && LiesAlong(position, hazard, a);
    StandingPointIsBehind(opponent, a.point, a.coordinate, hazard.away, standoff);
  }
}
