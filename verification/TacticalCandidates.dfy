/** What a tactical pass chooses between, and the profile numbers it reads. */
module TacticalCandidates {
  import opened Wrappers
  import opened Commands
  import opened PlaneArithmetic
  import opened Observations

  const MAXIMUM_CANDIDATE_COUNT: nat := 32
  const PROVIDER_COUNT: nat := 2
  const OBJECTIVE_KIND_COUNT: nat := 5

  datatype ObjectiveKind = Hill | Zone | RaceGate | RaceRecovery | ShoveSetup

  function Ordinal(k: ObjectiveKind): (n: nat)
    ensures n < OBJECTIVE_KIND_COUNT
  {
    match k
    case Hill => 0
    case Zone => 1
    case RaceGate => 2
    case RaceRecovery => 3
    case ShoveSetup => 4
  }

  datatype ObjectiveKey = ObjectiveKey(kind: ObjectiveKind, subject: nat)

  datatype Candidate = Candidate(
    key: ObjectiveKey,
    target: Vector2,
    arrivalRadius: real,
    squaredDistance: real,
    normalizedDistance: real,
    escapeBlocked: bool,
    opening: real,
    objectiveVelocity: Vector2)

  datatype Policy = Policy(
    weights: seq<real>,
    riskTolerance: real,
    predictionHorizonTicks: nat,
    chargeScreenDiagonalFraction: real,
    shieldAnticipationTicks: nat,
    roadCautionFraction: real,
    exposurePreference: real,
    minimumOpening: real)

  ghost predicate UnitInterval(x: real) {
    0.0 <= x <= 1.0
  }

  ghost predicate ValidPolicy(p: Policy) {
    && |p.weights| == OBJECTIVE_KIND_COUNT && (forall i :: 0 <= i < OBJECTIVE_KIND_COUNT ==> UnitInterval(p.weights[i]))
    && UnitInterval(p.riskTolerance) && UnitInterval(p.exposurePreference) && UnitInterval(p.minimumOpening)
    && UnitInterval(p.chargeScreenDiagonalFraction) && UnitInterval(p.roadCautionFraction)
  }

  /** A candidate as its provider builds it: unscreened, with a full opening and no motion. */
  function Built(key: ObjectiveKey, target: Vector2, radius: real, body: PhysicsBody): Candidate {
    Candidate(key, target, radius, SquaredMagnitude(Offset(body.position, target)), 0.0, false, 1.0, ZERO_VECTOR)
  }

  function ArenaDiagonal(g: Geometry): real {
    Magnitude(g, Vector2(g.width, g.height))
  }

  lemma ArenaDiagonalIsPositive(g: Geometry)
    requires IsSquareRoot(g.root) && g.width > 0.0
    ensures ArenaDiagonal(g) > 0.0
  {
    MagnitudeIsPositive(g, Vector2(g.width, g.height));
  }

  ghost predicate DistinctKeys(s: seq<Candidate>) {
    forall i, j :: 0 <= i < j < |s| ==> s[i].key != s[j].key
  }

  lemma UnitProduct(a: real, b: real)
    requires UnitInterval(a) && UnitInterval(b)
    ensures UnitInterval(Times(a, b)) && Times(a, b) <= a && Times(a, b) <= b
    ensures a < 1.0 && b > 0.0 ==> Times(a, b) < b
  {
    assert a * b >= 0.0;
    assert (1.0 - a) * b >= 0.0;
    assert (1.0 - b) * a >= 0.0;
    if a < 1.0 && b > 0.0 { assert (1.0 - a) * b > 0.0; }
  }
}
