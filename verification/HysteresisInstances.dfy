/** Two rooms a bot can be shown, each with two hills, in which the bonus of the held target decides, and a
    choice the opening of a shove decides. */
module HysteresisInstances {
  import opened Wrappers
  import opened Commands
  import opened PlaneArithmetic
  import opened Observations
  import opened TacticalCandidates
  import opened ShoveSetups
  import opened TacticalObjectives
  import opened TacticalSelection

  const SELF := PhysicsBody(ZERO_VECTOR, ZERO_VECTOR, 0.25, false)

  /** A king of the hill match on ground 9.6 by 12.8, so sixteen across, with a hole at (5, 0) and the bot at
      the origin. */
  function Room(root: real -> real, supports: Vector2 -> bool, exits: (Vector2, Vector2) -> Option<real>,
                first: Vector2, second: Vector2): Observation
  {
    var hills := [Entry(1, Circle(first, 0.5)), Entry(2, Circle(second, 0.5))];
    Observation(
      Snapshot(100, Running, 0, 400.0, 400.0, KingOfTheHill, hills, [], [], [], [Entry(7, SELF)],
               [Entry(7, Controllable(9, None))], [], [], [], [], [], []),
      Geometry(9.6, 12.8, [Vector2(5.0, 0.0)], [], root, supports, exits, (i: nat, p: Vector2) => 0.0,
               (i: nat, p: Vector2) => Projection(p, 0.0)),
      9)
  }

  /** A profile that tolerates no risk, weighs every objective fully, and leaves shoving alone. */
  function Cautious(horizon: nat): Policy {
    Policy([1.0, 1.0, 1.0, 1.0, 0.0], 0.0, horizon, 0.0, 0, 0.0, 0.0, 0.0)
  }

  function HillAt(subject: nat, target: Vector2, squared: real, normalized: real, blocked: bool): Candidate {
    Candidate(ObjectiveKey(Hill, subject), target, 0.5, squared, normalized, blocked, 1.0, ZERO_VECTOR)
  }

  lemma RootIs(root: real -> real, s: real, d: real)
    requires IsSquareRoot(root) && d >= 0.0 && d * d == s
    ensures root(s) == d
  {
    SquareIsAtLeastZero(d);
    SquareIsProduct(root(s));
    RootIsMonotone(root(s), d);
    RootIsMonotone(d, root(s));
  }

  lemma RoomIsValid(root: real -> real, supports: Vector2 -> bool, exits: (Vector2, Vector2) -> Option<real>,
                    first: Vector2, second: Vector2, horizon: nat)
    requires IsSquareRoot(root)
    ensures ValidObservation(Room(root, supports, exits, first, second)) && ValidPolicy(Cautious(horizon))
    ensures ArenaDiagonal(Room(root, supports, exits, first, second).geometry) == 16.0
  {
    hide IsSquareRoot;
    RootIs(root, 256.0, 16.0);
    InComponents(Vector2(9.6, 12.8));
  }

  lemma RoomOffersItsHills(root: real -> real, supports: Vector2 -> bool, exits: (Vector2, Vector2) -> Option<real>,
                           first: Vector2, second: Vector2, horizon: nat)
    requires IsSquareRoot(root)
    ensures var o, p := Room(root, supports, exits, first, second), Cautious(horizon);
      && ValidObservation(o) && ValidPolicy(p)
      && RawCandidates(o, SELF, p) == Success(Raw(Ready, [
           HillAt(1, first, SquaredMagnitude(first), 0.0, false),
           HillAt(2, second, SquaredMagnitude(second), 0.0, false)], 0))
  {
    hide SquaredMagnitude, IsSquareRoot, ValidObservation, HillAt, ModeCandidates, ArenaDiagonal;
    RoomIsValid(root, supports, exits, first, second, horizon);
    var o, p := Room(root, supports, exits, first, second), Cautious(horizon);
    TwoHillsAreCircles(o, first, second, p);
    var both :=
      [HillAt(1, first, SquaredMagnitude(first), 0.0, false), HillAt(2, second, SquaredMagnitude(second), 0.0, false)];
    NobodyToShove(o, p);
    assert both + [] == both;
  }

  lemma NobodyToShove(o: Observation, p: Policy)
    requires |p.weights| == OBJECTIVE_KIND_COUNT && p.weights[4] == 0.0
    ensures ShoveCandidates(o, SELF, p) == []
  {
    hide OpponentsIn, ShovesFrom, SquaredMagnitude;
  }

  lemma TwoHillsAreCircles(o: Observation, first: Vector2, second: Vector2, p: Policy)
    requires o.snapshot.mode == KingOfTheHill && o.snapshot.hillMotions == []
    requires o.snapshot.hills == [Entry(1, Circle(first, 0.5)), Entry(2, Circle(second, 0.5))]
    ensures ModeCandidates(o, SELF, p) == Success(Raw(Ready, [
      HillAt(1, first, SquaredMagnitude(first), 0.0, false), HillAt(2, second, SquaredMagnitude(second), 0.0, false)],
      0))
  {
    hide SquaredMagnitude, HillAt, CircleCandidate;
    var hills := o.snapshot.hills;
    HillCandidate(1, first, p);
    HillCandidate(2, second, p);
    OneMoreHill([], hills[0], p);
    OneMoreHill([hills[0]], hills[1], p);
    assert [] + [hills[0]] == [hills[0]] && [hills[0]] + [hills[1]] == hills;
    var one, two :=
      HillAt(1, first, SquaredMagnitude(first), 0.0, false), HillAt(2, second, SquaredMagnitude(second), 0.0, false);
    assert [] + [one] == [one] && [one] + [two] == [one, two];
  }

  lemma HillCandidate(subject: nat, at: Vector2, p: Policy)
    ensures CircleCandidate(Hill, Entry(subject, Circle(at, 0.5)), [], SELF, p) ==
            HillAt(subject, at, SquaredMagnitude(at), 0.0, false)
  {
    assert Offset(SELF.position, at) == at;
  }

  lemma OneMoreHill(before: Store<Circle>, hill: Entry<Circle>, p: Policy)
    requires hill.value.radius == 0.5
    requires CircleCandidates(Hill, before, [], SELF, p).Success?
    requires CircleCandidates(Hill, before, [], SELF, p).value.predictions == 0
    ensures CircleCandidates(Hill, before + [hill], [], SELF, p) ==
            Success(Raw(Ready,
                        CircleCandidates(Hill, before, [], SELF, p).value.candidates +
                          [CircleCandidate(Hill, hill, [], SELF, p)], 0))
  {
    hide CircleCandidate;
    assert (before + [hill])[..|before|] == before;
  }

  // ---------------------------------------------------------------- what the screen makes of a hill

  lemma HillIsScreened(s: Screen, subject: nat, at: Vector2, d: real)
    requires s.origin == ZERO_VECTOR && s.diagonal == 16.0 && IsSquareRoot(s.geometry.root) && 0.0 < d <= 16.0
    requires SquaredMagnitude(at) == d * d && Representable(at)
    requires s.reach > 0.0 ==> Representable(EscapeRay(s, at, d))
    requires s.geometry.supportsPoint(at) && s.geometry.firstSupportExit(ZERO_VECTOR, at).None?
    ensures var blocked := s.reach > 0.0 && s.geometry.firstSupportExit(ZERO_VECTOR, EscapeRay(s, at, d)).Some?;
      ScreenOne(s, HillAt(subject, at, d * d, 0.0, false)) ==
      Success(Screened([HillAt(subject, at, d * d, d / 16.0, blocked)], if s.reach > 0.0 then 1 else 0))
  {
    hide SquaredMagnitude, EscapeRay;
    assert Offset(s.origin, at) == at;
    RootIs(s.geometry.root, SquaredMagnitude(at), d);
    assert d / 16.0 <= 1.0;
  }

  /** Both hills of a room that stay on the ground are collected, marked by where their escape rays end. */
  lemma RoomIsCollected(root: real -> real, supports: Vector2 -> bool, exits: (Vector2, Vector2) -> Option<real>,
                        first: Vector2, second: Vector2, near: real, far: real, horizon: nat)
    requires IsSquareRoot(root) && 0.0 < near <= 16.0 && 0.0 < far <= 16.0
    requires SquaredMagnitude(first) == near * near && SquaredMagnitude(second) == far * far
    requires Representable(first) && Representable(second) && supports(first) && supports(second)
    requires exits(ZERO_VECTOR, first).None? && exits(ZERO_VECTOR, second).None?
    requires var s := ScreenOf(Room(root, supports, exits, first, second), SELF, Cautious(horizon));
      s.reach > 0.0 ==> Representable(EscapeRay(s, first, near)) && Representable(EscapeRay(s, second, far))
    ensures var o, p := Room(root, supports, exits, first, second), Cautious(horizon);
      var s := ScreenOf(o, SELF, p);
      && ValidObservation(o) && ValidPolicy(p) && Collected(o, SELF, p).Success?
      && Collected(o, SELF, p).value.candidates == [
           HillAt(1, first, near * near, near / 16.0,
                  s.reach > 0.0 && exits(ZERO_VECTOR, EscapeRay(s, first, near)).Some?),
           HillAt(2, second, far * far, far / 16.0,
                  s.reach > 0.0 && exits(ZERO_VECTOR, EscapeRay(s, second, far)).Some?)]
  {
    hide SquaredMagnitude, EscapeRay, ScreenOne, RawCandidates, IsSquareRoot, ArenaDiagonal, ValidObservation;
    var o, p := Room(root, supports, exits, first, second), Cautious(horizon);
    var s := ScreenOf(o, SELF, p);
    RoomIsValid(root, supports, exits, first, second, horizon);
    RoomOffersItsHills(root, supports, exits, first, second, horizon);
    HillIsScreened(s, 1, first, near);
    HillIsScreened(s, 2, second, far);
    var one, two := HillAt(1, first, near * near, 0.0, false), HillAt(2, second, far * far, 0.0, false);
    OneMoreScreened(s, [], one);
    OneMoreScreened(s, [one], two);
    assert [] + [one] == [one] && [one] + [two] == [one, two];
    var collected := ScreenAll(s, [one, two]).value.candidates;
    assert |collected| == 2 && collected[0] == ScreenOne(s, one).value.candidates[0];
    assert collected[1] == ScreenOne(s, two).value.candidates[0];
  }

  lemma OneMoreScreened(s: Screen, before: seq<Candidate>, c: Candidate)
    requires s.diagonal > 0.0 && ScreenAll(s, before).Success? && ScreenOne(s, c).Success?
    ensures ScreenAll(s, before + [c]).Success?
    ensures ScreenAll(s, before + [c]).value.candidates ==
      ScreenAll(s, before).value.candidates + ScreenOne(s, c).value.candidates
  {
    hide ScreenOne;
    assert (before + [c])[..|before|] == before;
  }

  // ---------------------------------------------------------------- a blocked target kept

  /** Ground with a hole of radius one at (5, 0). */
  predicate OnGround(p: Vector2) {
    (p.x - 5.0) * (p.x - 5.0) + p.y * p.y >= 1.0
  }

  function PointOn(ray: Vector2, t: real): Vector2 {
    Vector2(ray.x * t, ray.y * t)
  }

  /** From the bot, a ray has no exit exactly when all of it is over that ground. */
  ghost predicate FindsTheHole(exits: (Vector2, Vector2) -> Option<real>) {
    forall ray ::
      exits(ZERO_VECTOR, ray).None? <==> forall t: real :: 0.0 <= t <= 1.0 ==> OnGround(PointOn(ray, t))
  }

  lemma RaysAndTheHole(exits: (Vector2, Vector2) -> Option<real>)
    requires FindsTheHole(exits)
    ensures exits(ZERO_VECTOR, Vector2(1.0, 0.0)).None? && exits(ZERO_VECTOR, Vector2(3.0, 0.0)).None?
    ensures exits(ZERO_VECTOR, Vector2(9.6, 12.8)).None? && exits(ZERO_VECTOR, Vector2(4.8, 6.4)).None?
    ensures exits(ZERO_VECTOR, Vector2(8.0, 0.0)).Some?
  {
    forall t: real | 0.0 <= t <= 1.0 ensures OnGround(PointOn(Vector2(1.0, 0.0), t)) { ShortOfTheHole(t); }
    forall t: real | 0.0 <= t <= 1.0 ensures OnGround(PointOn(Vector2(3.0, 0.0), t)) { ShortOfTheHole(3.0 * t); }
    forall t: real | 0.0 <= t <= 1.0 ensures OnGround(PointOn(Vector2(9.6, 12.8), t)) { PastTheHole(16.0 * t); }
    forall t: real | 0.0 <= t <= 1.0 ensures OnGround(PointOn(Vector2(4.8, 6.4), t)) { PastTheHole(8.0 * t); }
    assert !OnGround(PointOn(Vector2(8.0, 0.0), 0.625));
  }

  /** There are such answers. */
  lemma TheHoleCanBeFound() returns (exits: (Vector2, Vector2) -> Option<real>)
    ensures FindsTheHole(exits)
  {
    exits := (from: Vector2, ray: Vector2) =>
      if forall t: real :: 0.0 <= t <= 1.0 ==> OnGround(PointOn(ray, t)) then None else Some(0.0);
  }

  lemma ShortOfTheHole(x: real)
    requires x <= 3.0
    ensures (x - 5.0) * (x - 5.0) + 0.0 >= 1.0
  {
    ProductIsMonotone(1.0, 1.0, 5.0 - x, 5.0 - x);
    assert (5.0 - x) * (5.0 - x) == (x - 5.0) * (x - 5.0);
  }

  lemma PastTheHole(d: real)
    ensures (0.6 * d - 5.0) * (0.6 * d - 5.0) + (0.8 * d) * (0.8 * d) >= 1.0
  {
    SquareIsAtLeastZero(d - 3.0);
    assert (0.6 * d - 5.0) * (0.6 * d - 5.0) + (0.8 * d) * (0.8 * d) == (d - 3.0) * (d - 3.0) + 16.0;
  }

  lemma SelectionOfTwo(a: Candidate, b: Candidate, p: Policy, held: Option<ObjectiveKey>)
    requires ValidWeights(p)
    ensures SelectFrom([a, b], p, held) == Some(if Outranks(b, a, p, held) then 1 else 0)
  {
    hide Outranks;
    assert [a, b][..1] == [a] && [a][..0] == [];
  }

  /** The bonus really can keep a target a profile that tolerates no risk could overshoot off the ground:
      short of a hole and held, against another safe on the far corner. Not held, it is not
      the one selected. */
  lemma HeldBlockedTargetCanBeKept(root: real -> real, exits: (Vector2, Vector2) -> Option<real>)
    requires IsSquareRoot(root) && FindsTheHole(exits)
    ensures var o, p := Room(root, OnGround, exits, Vector2(1.0, 0.0), Vector2(9.6, 12.8)), Cautious(8);
      var near := HillAt(1, Vector2(1.0, 0.0), 1.0, 0.0625, true);
      var far := HillAt(2, Vector2(9.6, 12.8), 256.0, 1.0, false);
      && ValidObservation(o) && ValidPolicy(p) && p.riskTolerance == 0.0
      && Collected(o, SELF, p).Success? && Collected(o, SELF, p).value.candidates == [near, far]
      && SelectFrom([near, far], p, Some(near.key)) == Some(0)
      && SelectFrom([near, far], p, None) == Some(1)
  {
    hide SquaredMagnitude, IsSquareRoot, ArenaDiagonal, Collected, ValidObservation, SelectFrom, FindsTheHole;
    RaysAndTheHole(exits);
    var first, second, p := Vector2(1.0, 0.0), Vector2(9.6, 12.8), Cautious(8);
    var o := Room(root, OnGround, exits, first, second);
    RoomIsValid(root, OnGround, exits, first, second, 8);
    InComponents(first);
    InComponents(second);
    var s := ScreenOf(o, SELF, p);
    assert s.reach == 8.0;
    assert EscapeRay(s, first, 1.0) == Vector2(8.0, 0.0) && EscapeRay(s, second, 16.0) == Vector2(4.8, 6.4);
    RoomIsCollected(root, OnGround, exits, first, second, 1.0, 16.0, 8);
    var near, far := HillAt(1, first, 1.0, 0.0625, true), HillAt(2, second, 256.0, 1.0, false);
    assert Preference(near, p) == 0.9375 && Preference(far, p) == 0.0;
    SelectionOfTwo(near, far, p, Some(near.key));
    SelectionOfTwo(near, far, p, None);
  }

  // ---------------------------------------------------------------- a challenger exactly an eighth better

  /** Being better by the bonus and no more is enough when the challenger is nearer: two steps closer, of
      sixteen across, is exactly an eighth. */
  lemma ChallengerExactlyAnEighthBetterReplacesTheHeld(root: real -> real, exits: (Vector2, Vector2) -> Option<real>)
    requires IsSquareRoot(root) && FindsTheHole(exits)
    ensures var o, p := Room(root, OnGround, exits, Vector2(1.0, 0.0), Vector2(3.0, 0.0)), Cautious(0);
      var challenger := HillAt(1, Vector2(1.0, 0.0), 1.0, 0.0625, false);
      var held := HillAt(2, Vector2(3.0, 0.0), 9.0, 0.1875, false);
      && ValidObservation(o) && ValidPolicy(p)
      && Collected(o, SELF, p).Success? && Collected(o, SELF, p).value.candidates == [challenger, held]
      && Score(challenger, p, false) == Score(held, p, false) + HELD_TARGET_BONUS
      && SelectFrom([challenger, held], p, Some(held.key)) == Some(0)
  {
    hide SquaredMagnitude, IsSquareRoot, ArenaDiagonal, Collected, ValidObservation, SelectFrom, FindsTheHole;
    RaysAndTheHole(exits);
    var first, second, p := Vector2(1.0, 0.0), Vector2(3.0, 0.0), Cautious(0);
    var o := Room(root, OnGround, exits, first, second);
    RoomIsValid(root, OnGround, exits, first, second, 0);
    InComponents(first);
    InComponents(second);
    RoomIsCollected(root, OnGround, exits, first, second, 1.0, 3.0, 0);
    var challenger, held := HillAt(1, first, 1.0, 0.0625, false), HillAt(2, second, 9.0, 0.1875, false);
    assert Preference(challenger, p) == 0.9375 && Preference(held, p) == 0.8125;
    SelectionOfTwo(challenger, held, p, Some(held.key));
  }

  // ---------------------------------------------------------------- a shove too closed to be worth it

  function ShoveOf(subject: nat, normalized: real, opening: real): Candidate {
    Candidate(ObjectiveKey(ShoveSetup, subject), Vector2(4.0, 0.0), 0.16, 16.0, normalized, false, opening,
              ZERO_VECTOR)
  }

  /** How open an opponent is decides against a hill twice as far: it is shoved exactly when it is at least two
      thirds open. */
  lemma OpeningDecidesTheShove(opening: real)
    ensures var p := Cautious(0).(weights := [1.0, 1.0, 1.0, 1.0, 1.0]);
      var hill := HillAt(1, Vector2(8.0, 0.0), 64.0, 0.5, false);
      SelectFrom([hill, ShoveOf(2, 0.25, opening)], p, None) == Some(if 3.0 * opening >= 2.0 then 1 else 0)
  {
    hide SelectFrom;
    var p, hill := Cautious(0).(weights := [1.0, 1.0, 1.0, 1.0, 1.0]), HillAt(1, Vector2(8.0, 0.0), 64.0, 0.5, false);
    SelectionOfTwo(hill, ShoveOf(2, 0.25, opening), p, None);
  }
}
