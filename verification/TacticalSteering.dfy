/** Where a pursuing bot points, and the two pulses' own screens. */
module TacticalSteering {
  import opened Wrappers
  import opened SeatRosters
  import opened Commands
  import opened PlaneArithmetic
  import opened Observations
  import opened TacticalCandidates
  import opened ShoveSetups

  const ALIGNMENT_PERPENDICULAR_FRACTION: real := 0.5

  // ---------------------------------------------------------------- the seek direction

  function Rotated(u: Vector2, error: real): Vector2 {
    Vector2(u.x - error * u.y, u.y + error * u.x)
  }

  function Clamped(v: Vector2): Vector2 {
    Vector2(ClampComponent(v.x), ClampComponent(v.y))
  }

  function Scaled(v: Vector2, d: real): Vector2
    requires d != 0.0
  {
    Vector2(v.x / d, v.y / d)
  }

  /** Toward the offset, turned by the aim error and taken back to unit length. */
  function Steer(g: Geometry, delta: Vector2, error: real): Vector2
    requires IsSquareRoot(g.root) && delta != ZERO_VECTOR
  {
    MagnitudeIsPositive(g, delta);
    var u := Scaled(delta, Magnitude(g, delta));
    RotationOfUnit(g, delta, error);
    var r := Rotated(u, error);
    Clamped(Scaled(r, Magnitude(g, r)))
  }

  function Along(v: Vector2, u: Vector2): real {
    v.x * u.x + v.y * u.y
  }

  lemma RotationOfUnit(g: Geometry, delta: Vector2, error: real)
    requires IsSquareRoot(g.root) && delta != ZERO_VECTOR
    ensures Magnitude(g, delta) > 0.0
    ensures var u := Scaled(delta, Magnitude(g, delta));
      IsUnit(u) && SquaredMagnitude(Rotated(u, error)) == 1.0 + Square(error) && Magnitude(g, Rotated(u, error)) > 0.0
  {
    hide Square;
    MagnitudeIsPositive(g, delta);
    var d := Magnitude(g, delta);
    UnitOfOffset(delta, d);
    var u := Scaled(delta, d);
    var r := Rotated(u, error);
    RotatedSquares(u.x, u.y, error);
    InComponents(u);
    InComponents(r);
    assert Square(error) == error * error by { SquareIsProduct(error); }
    SquareIsPositive(error);
    MagnitudeIsPositive(g, r);
    SquaredMagnitudeIsZeroOnlyAtZero(r);
  }

  lemma UnitComponentsAreBounded(v: Vector2)
    requires IsUnit(v)
    ensures Clamped(v) == v
  {
    InComponents(v);
    RootIsMonotone(v.x, 1.0);
    RootIsMonotone(v.y, 1.0);
  }

  /** A pursuing thrust is a full thrust whatever the aim error, the clamp never bites, and it always
      makes ground toward the target. */
  lemma SteeringIsUnitAndMakesProgress(g: Geometry, delta: Vector2, error: real)
    requires IsSquareRoot(g.root) && delta != ZERO_VECTOR
    ensures IsUnit(Steer(g, delta, error)) && Along(delta, Steer(g, delta, error)) > 0.0
  {
    hide Square, SquaredMagnitude, Along, Magnitude;
    RotationOfUnit(g, delta, error);
    var m := Magnitude(g, delta);
    var u := Scaled(delta, m);
    var r := Rotated(u, error);
    MagnitudeIsPositive(g, r);
    UnitOfOffset(r, Magnitude(g, r));
    UnitComponentsAreBounded(Scaled(r, Magnitude(g, r)));
    HeadingMakesProgress(delta, m, error, Magnitude(g, r));
  }

  lemma HeadingMakesProgress(delta: Vector2, m: real, error: real, n: real)
    requires m > 0.0 && n > 0.0 && IsUnit(Scaled(delta, m))
    ensures Along(delta, Scaled(Rotated(Scaled(delta, m), error), n)) > 0.0
  {
    hide SquaredMagnitude;
    var u := Scaled(delta, m);
    InComponents(u);
    Progress(u.x, u.y, error, m, n);
    assert delta.x == u.x * m && delta.y == u.y * m;
  }

  lemma Progress(x: real, y: real, e: real, m: real, n: real)
    requires x * x + y * y == 1.0 && m > 0.0 && n > 0.0
    ensures (x * m) * ((x - e * y) / n) + (y * m) * ((y + e * x) / n) > 0.0
  {
    var p, q := (x - e * y) / n, (y + e * x) / n;
    assert p * n == x - e * y && q * n == y + e * x;
    assert ((x * m) * p + (y * m) * q) * n == m * (x * (p * n) + y * (q * n));
    assert x * (x - e * y) + y * (y + e * x) == x * x + y * y;
    Positive((x * m) * p + (y * m) * q, n, m);
  }

  // ---------------------------------------------------------------- the two pulses' screens

  /** The published body a shove candidate is about. */
  function ShoveOpponentBody(s: Snapshot, c: Candidate): Option<PhysicsBody> {
    if c.key.kind != ShoveSetup then None else Find(s.bodies, c.key.subject)
  }

  function ShieldRefused(s: Snapshot, self: EntityId, now: Tick): bool {
    var shield := Find(s.shields, self);
    shield.Some? && (shield.value.protection.Contains(now) || !shield.value.cooldown.Expired(now))
  }

  function ChargeRefused(s: Snapshot, self: EntityId, now: Tick): bool {
    var shield, charge := Find(s.shields, self), Find(s.chargeCooldowns, self);
    (shield.Some? && shield.value.protection.Contains(now)) || (charge.Some? && !charge.value.Expired(now))
  }

  function Carried(b: PhysicsBody, seconds: real): Vector2 {
    Vector2(b.position.x + b.velocity.x * seconds, b.position.y + b.velocity.y * seconds)
  }

  /** At the end of the window, carried along straight lines, the two bodies touch. */
  predicate Closes(self: PhysicsBody, other: PhysicsBody, ticks: nat) {
    var seconds := ticks as real * FIXED_DELTA;
    SquaredMagnitude(Offset(Carried(self, seconds), Carried(other, seconds))) <= Square(self.radius + other.radius)
  }

  /** Some published opponent closes to contact inside the profile's window. */
  predicate OpponentCloses(o: Observation, self: PhysicsBody, policy: Policy) {
    policy.shieldAnticipationTicks > 0 &&
    exists x ::
      && x in Join(o.snapshot.bodies, o.snapshot.controllables) && IsOpponent(o, x.1, x.2)
      && Closes(self, x.1, policy.shieldAnticipationTicks)
  }

  method FindClosingOpponent(o: Observation, self: PhysicsBody, policy: Policy) returns (closing: bool)
    ensures closing == OpponentCloses(o, self, policy)
  {
    hide Closes;
    closing := false;
    if policy.shieldAnticipationTicks == 0 { return; }
    var joined := Join(o.snapshot.bodies, o.snapshot.controllables);
    for i := 0 to |joined|
      invariant closing <==>
        exists x :: x in joined[..i] && IsOpponent(o, x.1, x.2) && Closes(self, x.1, policy.shieldAnticipationTicks)
    {
      assert joined[..i + 1] == joined[..i] + [joined[i]];
      if !closing && IsOpponent(o, joined[i].1, joined[i].2) {
        closing := Closes(self, joined[i].1, policy.shieldAnticipationTicks);
      }
    }
    assert joined[..|joined|] == joined;
  }

  function Across(v: Vector2, u: Vector2): real {
    v.x * -u.y + v.y * u.x
  }

  /** Motion across the commanded ray is at most half the published top speed. */
  function ChargeAligned(o: Observation, self: PhysicsBody, opponent: PhysicsBody): bool {
    var delta := Offset(self.position, opponent.position);
    var distance := Magnitude(o.geometry, delta);
    distance > 0.0 &&
    Absolute(Across(self.velocity,
                    Scaled(delta, distance))) <= o.snapshot.normalTopSpeed * ALIGNMENT_PERPENDICULAR_FRACTION
  }

  function Lengthened(u: Vector2, length: real): Vector2 {
    Vector2(u.x * length, u.y * length)
  }

  function ScreenLength(g: Geometry, fraction: real): real {
    ArenaDiagonal(g) * fraction
  }

  /** The ground along the ray ends no sooner than the opponent's near surface. */
  function ChargeScreened(o: Observation, self: PhysicsBody, opponent: PhysicsBody,
                          policy: Policy): Result<bool, TacticalError>
  {
    var delta := Offset(self.position, opponent.position);
    var distance := Magnitude(o.geometry, delta);
    var length := ScreenLength(o.geometry, policy.chargeScreenDiagonalFraction);
    if distance <= 0.0 then Success(false)
    else if length <= 0.0 then Success(true)
    else
      var u := Scaled(delta, distance);
      var ray := Lengthened(u, length);
      if !Representable(ray) then Failure(VectorOutOfRange)
      else
        match o.geometry.firstSupportExit(self.position, ray)
        case None => Success(true)
        case Some(exit) => Success(exit > (distance - self.radius - opponent.radius) / length)
  }

  /** The part of the velocity an aligned charge throws away is at most half the top speed: the rest of
      it lies along the ray. */
  lemma AlignedVelocityLiesAlongTheRay(o: Observation, self: PhysicsBody, opponent: PhysicsBody)
    requires IsSquareRoot(o.geometry.root) && ChargeAligned(o, self, opponent) && o.snapshot.normalTopSpeed >= 0.0
    ensures var delta := Offset(self.position, opponent.position);
      SquaredMagnitude(self.velocity) - Square(Along(self.velocity, Scaled(delta, Magnitude(o.geometry, delta)))) <=
      Square(o.snapshot.normalTopSpeed * ALIGNMENT_PERPENDICULAR_FRACTION)
  {
    hide Magnitude, SquaredMagnitude, Square, Along, Across;
    var delta := Offset(self.position, opponent.position);
    MagnitudeIsPositive(o.geometry, delta);
    UnitOfOffset(delta, Magnitude(o.geometry, delta));
    AcrossIsWhatIsLeft(self.velocity, Scaled(delta, Magnitude(o.geometry, delta)),
                       o.snapshot.normalTopSpeed * ALIGNMENT_PERPENDICULAR_FRACTION);
  }

  lemma AcrossIsWhatIsLeft(v: Vector2, u: Vector2, most: real)
    requires IsUnit(u) && Absolute(Across(v, u)) <= most
    ensures SquaredMagnitude(v) - Square(Along(v, u)) <= Square(most)
  {
    hide SquaredMagnitude, Square, Times;
    InComponents(u);
    InComponents(v);
    Decomposition(v.x, v.y, u.x, u.y);
    var across := Across(v, u);
    ProductIsMonotone(Absolute(across), Absolute(across), most, most);
    SquareIsProduct(most);
    SquareIsProduct(Along(v, u));
    assert Absolute(across) * Absolute(across) == across * across;
  }

}
