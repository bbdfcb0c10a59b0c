/** What a collected candidate set promises its reader. */
module TacticalScreening {
  import opened Wrappers
  import opened Commands
  import opened PlaneArithmetic
  import opened Observations
  import opened NearestOpponents
  import opened TacticalCandidates
  import opened ShoveSetups
  import opened TacticalObjectives

  /** As a provider leaves it: measured from this body, not yet marked, open within the unit interval. */
  ghost predicate SoundRaw(origin: Vector2, c: Candidate) {
    c.squaredDistance == SquaredMagnitude(Offset(origin, c.target)) && !c.escapeBlocked && UnitInterval(c.opening)
  }

  ghost predicate AllSoundRaw(origin: Vector2, s: seq<Candidate>) {
    forall c :: c in s ==> SoundRaw(origin, c)
  }

  /** As the screen leaves it: on the ground, in a straight line over ground, at a unit distance, and
      marked exactly when the bot can move toward it and the escape ray leaves the ground. */
  ghost predicate SoundScreened(s: Screen, c: Candidate)
    requires s.diagonal > 0.0
  {
    var delta := Offset(s.origin, c.target);
    var distance := Magnitude(s.geometry, delta);
    && s.geometry.supportsPoint(c.target) && s.geometry.firstSupportExit(s.origin, delta).None?
    && c.squaredDistance == SquaredMagnitude(delta) && UnitInterval(c.opening)
    && c.normalizedDistance == Capped(distance / s.diagonal) && UnitInterval(c.normalizedDistance)
    && (c.normalizedDistance == 0.0 <==> c.target == s.origin)
    && (c.escapeBlocked <==>
          s.reach > 0.0 && distance > 0.0 && s.geometry.firstSupportExit(s.origin, EscapeRay(s, delta, distance)).Some?)
  }

  ghost predicate AllSoundScreened(s: Screen, cs: seq<Candidate>)
    requires s.diagonal > 0.0
  {
    forall c :: c in cs ==> SoundScreened(s, c)
  }

  // ---------------------------------------------------------------- what the providers promise

  lemma {:induction false} CirclesAreSound(kind: ObjectiveKind, circles: Store<Circle>, motions: Store<Vector2>,
                                           body: PhysicsBody, policy: Policy)
    requires ValidStore(circles) && CircleCandidates(kind, circles, motions, body, policy).Success?
    ensures var raw := CircleCandidates(kind, circles, motions, body, policy).value;
      && raw.disposition == Ready && |raw.candidates| == |circles| && raw.predictions <= |circles|
      && (forall i :: 0 <= i < |circles| ==>
            raw.candidates[i] == CircleCandidate(kind, circles[i], motions, body, policy))
      && (policy.predictionHorizonTicks == 0 ==> raw.predictions == 0)
  {
    hide CircleCandidate;
    if circles != [] { CirclesAreSound(kind, circles[..|circles| - 1], motions, body, policy); }
  }

  lemma ModeIsSound(o: Observation, body: PhysicsBody, policy: Policy)
    requires ValidObservation(o) && ModeCandidates(o, body, policy).Success?
    ensures var raw := ModeCandidates(o, body, policy).value;
      && AllSoundRaw(body.position, raw.candidates) && DistinctKeys(raw.candidates)
      && |raw.candidates| <= MAXIMUM_CANDIDATE_COUNT && raw.predictions <= MAXIMUM_CANDIDATE_COUNT
      && (raw.disposition != Ready ==> raw.candidates == [])
      && (forall c :: c in raw.candidates ==> c.key.kind != ShoveSetup)
  {
    hide SquaredMagnitude;
    match o.snapshot.mode
    case KingOfTheHill => CirclesAreSound(Hill, o.snapshot.hills, o.snapshot.hillMotions, body, policy);
    case RoyalePlacements => CirclesAreSound(Zone, o.snapshot.zones, [], body, policy);
    case Race(course) =>
    case NoModeState => assert false;
  }

  lemma OneShoveIsSound(o: Observation, body: PhysicsBody, policy: Policy, opponent: ShoveOpponent)
    requires UnitInterval(policy.exposurePreference)
    ensures AllSoundRaw(body.position, ShoveFrom(o, body, policy, opponent))
    ensures forall c :: c in ShoveFrom(o, body, policy, opponent) ==> c.key == ObjectiveKey(ShoveSetup, opponent.entity)
  {
    hide OfferedHazards, NearestOf, Exposure, Opening, ArenaDiagonal, SquaredMagnitude;
    OpeningStaysInUnitInterval(o.snapshot, opponent.entity, o.snapshot.tick, policy.exposurePreference);
  }

  lemma {:induction false} ShovesAreSound(o: Observation, body: PhysicsBody, policy: Policy, kept: seq<ShoveOpponent>)
    requires UnitInterval(policy.exposurePreference) && DistinctEntities(kept)
    ensures var shoves := ShovesFrom(o, body, policy, kept);
      && AllSoundRaw(body.position, shoves) && DistinctKeys(shoves)
      && (forall c :: c in shoves ==> c.key.kind == ShoveSetup && exists k :: k in kept && c.key.subject == k.entity)
  {
    hide ShoveFrom, SoundRaw;
    if kept != [] {
      var front, last := kept[..|kept| - 1], kept[|kept| - 1];
      ShovesAreSound(o, body, policy, front);
      OneShoveIsSound(o, body, policy, last);
      var before := ShovesFrom(o, body, policy, front);
      assert kept == front + [last];
      forall i | 0 <= i < |before| ensures before[i].key != ObjectiveKey(ShoveSetup, last.entity) {
        assert before[i] in before;
        var k :| k in front && before[i].key.subject == k.entity;
      }
    }
  }

  /** The raw set is measured from this body, names each objective once, and stays within one budget a
      provider. */
  lemma RawIsSound(o: Observation, body: PhysicsBody, policy: Policy)
    requires ValidObservation(o) && ValidPolicy(policy) && RawCandidates(o, body, policy).Success?
    ensures var raw := RawCandidates(o, body, policy).value;
      && AllSoundRaw(body.position, raw.candidates) && DistinctKeys(raw.candidates)
      && |raw.candidates| <= PROVIDER_COUNT * MAXIMUM_CANDIDATE_COUNT && raw.predictions <= MAXIMUM_CANDIDATE_COUNT
      && (raw.disposition != Ready ==> raw.candidates == [])
  {
    hide SoundRaw, ShovesFrom, ModeCandidates;
    ModeIsSound(o, body, policy);
    var joined := Join(o.snapshot.bodies, o.snapshot.controllables);
    JoinIsExact(o.snapshot.bodies, o.snapshot.controllables);
    OpponentsAreDistinct(o, body, joined);
    var kept := OfferAll(Opponents(o, body));
    FilterRefinesSorting(Opponents(o, body));
    NearestAreDistinct(kept, Opponents(o, body));
    ShovesAreSound(o, body, policy, kept);
  }

  lemma NearestAreDistinct(kept: seq<ShoveOpponent>, seen: seq<ShoveOpponent>)
    requires IsNearest(kept, seen) && DistinctEntities(seen)
    ensures DistinctEntities(kept)
  {
    forall i, j | 0 <= i < j < |kept| ensures kept[i].entity != kept[j].entity {
      assert kept[i] in seen && kept[j] in seen && Precedes(kept[i], kept[j]);
      var k :| 0 <= k < |seen| && seen[k] == kept[i];
      var l :| 0 <= l < |seen| && seen[l] == kept[j];
      assert k != l;
    }
  }

  /** The provider's own count check can never fail: the filter keeps no more than the budget. */
  lemma ShoveBudgetIsNeverExceeded(o: Observation, body: PhysicsBody, policy: Policy)
    requires ValidObservation(o) && ValidPolicy(policy)
    ensures RawCandidates(o, body, policy).Failure? <==> ModeCandidates(o, body, policy).Failure?
  {
    if ModeCandidates(o, body, policy).Success? { ModeIsSound(o, body, policy); }
  }

  // ---------------------------------------------------------------- what the screen promises

  lemma ScreenedOneIsSound(s: Screen, c: Candidate)
    requires s.diagonal > 0.0 && IsSquareRoot(s.geometry.root) && SoundRaw(s.origin, c)
    ensures var r := ScreenOne(s, c);
      r.Success? ==>
        && |r.value.candidates| <= 1 && r.value.predictions <= |r.value.candidates|
        && (forall x :: x in r.value.candidates ==> SoundScreened(s, x) && x.key == c.key && x.target == c.target)
  {
    hide Square, SquaredMagnitude, EscapeRay;
    var delta := Offset(s.origin, c.target);
    MagnitudeIsPositive(s.geometry, delta);
    var distance := Magnitude(s.geometry, delta);
    Quotient(distance, s.diagonal);
    assert delta == ZERO_VECTOR <==>
      c.target ==
        s.origin by { assert s.origin == Vector2(s.origin.x, s.origin.y)
                     && c.target == Vector2(c.target.x, c.target.y); }
  }

  lemma Quotient(a: real, b: real)
    requires a >= 0.0 && b > 0.0
    ensures a / b >= 0.0 && (a / b == 0.0 <==> a == 0.0)
  {
  }

  /** Every survivor is sound, keys stay distinct, and nothing is invented. */
  lemma {:induction false} ScreenedIsSound(s: Screen, raws: seq<Candidate>)
    requires s.diagonal > 0.0 && IsSquareRoot(s.geometry.root) && AllSoundRaw(s.origin, raws) && DistinctKeys(raws)
    ensures var r := ScreenAll(s, raws);
      r.Success? ==>
        && AllSoundScreened(s, r.value.candidates) && DistinctKeys(r.value.candidates)
        && r.value.predictions <= |r.value.candidates| <= |raws|
        && (forall x :: x in r.value.candidates ==> exists c :: c in raws && c.key == x.key && c.target == x.target)
  {
    hide ScreenOne, SoundRaw, SoundScreened;
    if raws != [] {
      var front, last := raws[..|raws| - 1], raws[|raws| - 1];
      assert raws == front + [last];
      ScreenedIsSound(s, front);
      ScreenedOneIsSound(s, last);
      if ScreenAll(s, raws).Success? {
        var before, one := ScreenAll(s, front).value.candidates, ScreenOne(s, last).value.candidates;
        forall i | 0 <= i < |before| ensures before[i].key != last.key {
          assert before[i] in before;
          var c :| c in front && c.key == before[i].key && c.target == before[i].target;
        }
        forall x | x in before + one ensures SoundScreened(s, x) {}
        forall x | x in one ensures x.key == last.key {}
      }
    }
  }

  /** Nothing reachable is lost: a raw candidate on the ground, in a straight line over ground, is kept. */
  lemma {:induction false} ScreenKeepsReachable(s: Screen, raws: seq<Candidate>, c: Candidate)
    requires s.diagonal > 0.0 && c in raws && ScreenAll(s, raws).Success?
    requires s.geometry.supportsPoint(c.target)
    requires s.geometry.firstSupportExit(s.origin, Offset(s.origin, c.target)).None?
    ensures exists x :: x in ScreenAll(s, raws).value.candidates && x.key == c.key && x.target == c.target
  {
    hide Square, SquaredMagnitude, EscapeRay;
    var front, last := raws[..|raws| - 1], raws[|raws| - 1];
    assert raws == front + [last];
    var before := ScreenAll(s, front).value.candidates;
    if c in front {
      ScreenKeepsReachable(s, front, c);
      var x :| x in before && x.key == c.key && x.target == c.target;
      assert x in ScreenAll(s, raws).value.candidates;
    } else {
      var one := ScreenOne(s, last).value.candidates;
      assert one[0].key == c.key && one[0].target == c.target;
      assert one[0] in ScreenAll(s, raws).value.candidates;
    }
  }

  /** A pass's candidates: sound, each objective named once, and the work counted and bounded. */
  lemma CollectedIsSound(o: Observation, body: PhysicsBody, policy: Policy)
    requires ValidObservation(o) && ValidPolicy(policy) && Collected(o, body, policy).Success?
    ensures ArenaDiagonal(o.geometry) > 0.0
    ensures var r := Collected(o, body, policy).value;
      && AllSoundScreened(ScreenOf(o, body, policy), r.candidates) && DistinctKeys(r.candidates)
      && r.work.screened == |r.candidates| <= r.work.raw <= 64
      && r.work.predictions <= 96
      && (r.disposition != Ready ==> r.candidates == [])
  {
    hide SoundScreened, SoundRaw, ScreenOf, ArenaDiagonal, ScreenAll, RawCandidates;
    ArenaDiagonalIsPositive(o.geometry);
    ScreenMeasuresTheArena(o, body, policy);
    ScreenStartsAtTheBody(o, body, policy);
    RawIsSound(o, body, policy);
    ScreenedIsSound(ScreenOf(o, body, policy), RawCandidates(o, body, policy).value.candidates);
  }

  lemma ScreenStartsAtTheBody(o: Observation, body: PhysicsBody, policy: Policy)
    ensures ScreenOf(o, body, policy).origin == body.position && ScreenOf(o, body, policy).geometry == o.geometry
  {
  }
}
