/** The arrival brake, and what holding it does to a body over the ticks until the next decision. */
module ArrivalBrakes {
  import opened Wrappers
  import opened Commands
  import opened PlaneArithmetic
  import opened Observations
  import opened TacticalCandidates
  import opened TacticalSteering

  /** The brake's estimate of how long its command will be held. Nothing observed yet counts as one tick. */
  function CommandHoldTicks(reactionDelay: nat, now: Tick, previous: Option<Tick>): (h: nat)
    requires previous.Some? ==> previous.value < now
    ensures h >= 1
  {
    var spacing := if previous.Some? then now - previous.value else 1;
    if reactionDelay > spacing then reactionDelay else spacing
  }

  /** The velocity a full thrust changes over the estimated hold. */
  function Divisor(acceleration: real, holdTicks: nat): real {
    acceleration * (holdTicks as real * FIXED_DELTA)
  }

  function Demand(closing: real, divisor: real, fraction: real): real
    requires divisor != 0.0
  {
    (closing / divisor) * fraction
  }

  /** One component: negate, divide, scale, clamp; a room or a profile with no brake in it coasts. */
  function BrakeComponent(acceleration: real, holdTicks: nat, fraction: real, closing: real): real {
    var divisor := Divisor(acceleration, holdTicks);
    if fraction <= 0.0 || divisor <= 0.0 then 0.0 else ClampComponent(Demand(closing, divisor, fraction))
  }

  function ArrivalBrake(o: Observation, body: PhysicsBody, selected: Candidate, fraction: real, holdTicks: nat): Vector2
  {
    if selected.key.kind != Hill then ZERO_VECTOR
    else
      var a := o.snapshot.acceleration;
      Vector2(BrakeComponent(a, holdTicks, fraction, selected.objectiveVelocity.x - body.velocity.x),
              BrakeComponent(a, holdTicks, fraction, selected.objectiveVelocity.y - body.velocity.y))
  }

  // ---------------------------------------------------------------- how long a command is really held

  /** How many observations pass before the reaction delay has. */
  function ObservationsAwaited(reactionDelay: nat, spacing: nat): (k: nat)
    requires spacing >= 1
    ensures k >= 1
  {
    if reactionDelay <= spacing then 1 else 1 + ObservationsAwaited(reactionDelay - spacing, spacing)
  }

  /** With an observation every spacing ticks, the ticks until the first one that can decide again. */
  function ActualHold(reactionDelay: nat, spacing: nat): nat
    requires spacing >= 1
  {
    ObservationsAwaited(reactionDelay, spacing) * spacing
  }

  lemma {:induction false} AwaitedIsLeast(reactionDelay: nat, spacing: nat)
    requires spacing >= 1
    ensures var k := ObservationsAwaited(reactionDelay, spacing);
      k * spacing >= reactionDelay && (k > 1 ==> (k - 1) * spacing < reactionDelay)
  {
    if reactionDelay > spacing {
      AwaitedIsLeast(reactionDelay - spacing, spacing);
      var k := ObservationsAwaited(reactionDelay - spacing, spacing);
      assert (k + 1) * spacing == k * spacing + spacing;
      assert k * spacing == (k - 1) * spacing + spacing;
    }
  }

  lemma AwaitedIsUnique(reactionDelay: nat, spacing: nat, n: nat)
    requires spacing >= 1 && n >= 1 && n * spacing >= reactionDelay && (n > 1 ==> (n - 1) * spacing < reactionDelay)
    ensures n == ObservationsAwaited(reactionDelay, spacing)
  {
    AwaitedIsLeast(reactionDelay, spacing);
    var k := ObservationsAwaited(reactionDelay, spacing);
    if n < k {
      MultipleIsMonotone(n, k - 1, spacing);
    } else if k < n {
      MultipleIsMonotone(k, n - 1, spacing);
    }
  }

  /** The real hold is the least positive multiple of the spacing that waits out the delay, and it is
      under twice the estimate the brake divides by. */
  lemma ActualHoldIsUnderTwiceTheEstimate(reactionDelay: nat, now: Tick, previous: Tick, n: nat)
    requires previous < now
    ensures var hold := ActualHold(reactionDelay, now - previous);
      && reactionDelay <= hold && now - previous <= hold < 2 * CommandHoldTicks(reactionDelay, now, Some(previous))
      && (1 <= n && n * (now - previous) >= reactionDelay ==> hold <= n * (now - previous))
  {
    var spacing := now - previous;
    AwaitedIsLeast(reactionDelay, spacing);
    var k := ObservationsAwaited(reactionDelay, spacing);
    assert k * spacing == (k - 1) * spacing + spacing;
    MultipleIsMonotone(1, k, spacing);
    MultipleIsMonotone(k, n, spacing);
    MultipleIsMonotone(n, k - 1, spacing);
  }

  lemma MultipleIsMonotone(a: nat, b: nat, s: nat)
    ensures a <= b ==> a * s <= b * s
  {
    if a <= b { assert b * s == a * s + (b - a) * s; }
  }

  // ---------------------------------------------------------------- one hold

  /** One component after n ticks of a held command: each tick adds the kick, then drag scales. */
  function Held(v: real, kick: real, q: real, n: nat): real {
    if n == 0 then v else (Held(v, kick, q, n - 1) + kick) * q
  }

  /** What is left of a unit of velocity when each tick takes away the share b of it first. */
  function Weight(b: real, q: real, n: nat): real {
    if n == 0 then 1.0 else Times(Weight(b, q, n - 1) - b, q)
  }

  function Power(q: real, n: nat): real {
    if n == 0 then 1.0 else Times(q, Power(q, n - 1))
  }

  lemma {:induction false} HeldIsWeighted(v: real, b: real, q: real, n: nat)
    ensures Held(v, -Times(b, v), q, n) == v * Weight(b, q, n)
  {
    hide Times;
    if n > 0 {
      HeldIsWeighted(v, b, q, n - 1);
      WeightedStep(v, b, q, Weight(b, q, n - 1));
    }
  }

  lemma WeightedStep(v: real, b: real, q: real, w: real)
    ensures (v * w + -Times(b, v)) * q == v * Times(w - b, q)
  {
  }

  lemma {:induction false} PowerIsUnit(q: real, n: nat)
    requires UnitInterval(q)
    ensures UnitInterval(Power(q, n))
  {
    if n > 0 {
      hide Times;
      PowerIsUnit(q, n - 1);
      UnitProduct(q, Power(q, n - 1));
    }
  }

  lemma Shrink(x: real, q: real)
    requires UnitInterval(q)
    ensures x >= 0.0 ==> 0.0 <= x * q <= x
    ensures x <= 0.0 ==> x <= x * q <= 0.0
  {
    ProductSign(x, q);
    ProductSign(x, 1.0 - q);
    assert x * (1.0 - q) == x - x * q;
  }

  function Tangent(q: real, m: nat): real {
    (m as real + 1.0) * q - m as real
  }

  /** The convexity the envelope rests on. */
  lemma {:induction false} PowerIsAboveItsTangent(q: real, m: nat)
    requires UnitInterval(q) && m >= 1
    ensures Power(q, m) >= Tangent(q, m)
  {
    if m == 1 {
      assert Power(q, 1) == q * Power(q, 0) == q;
    } else {
      PowerIsAboveItsTangent(q, m - 1);
      TangentStep(q, Power(q, m - 1), m - 1);
    }
  }

  lemma TangentStep(q: real, p: real, m: nat)
    requires UnitInterval(q) && p >= Tangent(q, m)
    ensures Times(q, p) >= Tangent(q, m + 1)
  {
    hide Tangent;
    var r := 1.0 - q;
    ProductSign(p - Tangent(q, m), q);
    ProductSign(r, r);
    ProductSign(m as real + 1.0, r * r);
    TangentIdentity(q, p, m);
  }

  lemma TangentIdentity(q: real, p: real, m: nat)
    ensures q * p - Tangent(q, m + 1) == (p - Tangent(q, m)) * q + (m as real + 1.0) * ((1.0 - q) * (1.0 - q))
  {
  }

  function Chord(b: real, m: nat, p: real): real {
    (1.0 - b * m as real / 2.0) * p - b * m as real / 2.0
  }

  lemma WeightUnfolds(b: real, q: real, n: nat)
    requires n > 0
    ensures Weight(b, q, n) == Times(Weight(b, q, n - 1) - b, q) && Power(q, n) == Times(q, Power(q, n - 1))
  {
  }

  lemma {:induction false} WeightIsAtMostOne(b: real, q: real, n: nat)
    requires b >= 0.0 && UnitInterval(q)
    ensures Weight(b, q, n) <= 1.0
  {
    if n > 0 {
      WeightIsAtMostOne(b, q, n - 1);
      var left := Weight(b, q, n - 1) - b;
      Shrink(left, q);
      assert Times(left, q) == left * q;
    }
  }

  /** However strong the drag, what is left never falls below the chord of the drag-free line. */
  lemma {:induction false} WeightIsAboveTheChord(b: real, q: real, n: nat)
    requires b >= 0.0 && UnitInterval(q)
    ensures Chord(b, n, Power(q, n)) <= Weight(b, q, n)
  {
    hide Chord;
    if n == 0 {
      ChordStart(b);
    } else {
      hide Weight, Power, Tangent, Times;
      WeightIsAboveTheChord(b, q, n - 1);
      PowerIsAboveItsTangent(q, n);
      WeightUnfolds(b, q, n);
      ChordStep(b, q, n - 1, Weight(b, q, n - 1), Power(q, n - 1));
    }
  }

  lemma ChordStart(b: real)
    ensures Chord(b, 0, 1.0) == 1.0
  {
  }

  lemma ChordStep(b: real, q: real, m: nat, w: real, p: real)
    requires b >= 0.0 && UnitInterval(q)
    requires w >= Chord(b, m, p) && Times(q, p) >= Tangent(q, m + 1)
    ensures Times(w - b, q) >= Chord(b, m + 1, Times(q, p))
  {
    hide Chord, Tangent;
    var chord := Chord(b, m, p);
    ProductSign(w - chord, q);
    ProductSign(b, q * p - Tangent(q, m + 1));
    ChordIdentity(b, q, m, p);
    assert (w - b) * q == (w - chord) * q + (chord - b) * q;
  }

  lemma ChordIdentity(b: real, q: real, m: nat, p: real)
    ensures (Chord(b, m, p) - b) * q - Chord(b, m + 1, q * p) == (b * (q * p - Tangent(q, m + 1))) / 2.0
  {
  }

  /** A hold too short to spend more than twice what the estimate allows never leaves a component faster
      than it found it. */
  lemma WeightStaysInTheUnitBall(b: real, q: real, n: nat)
    requires b >= 0.0 && UnitInterval(q) && b * n as real <= 2.0
    ensures -1.0 <= Weight(b, q, n) <= 1.0
  {
    hide Weight, Power;
    WeightIsAtMostOne(b, q, n);
    WeightIsAboveTheChord(b, q, n);
    PowerIsUnit(q, n);
    var c := b * n as real / 2.0;
    ProductSign(1.0 - c, Power(q, n));
  }

  // ---------------------------------------------------------------- the envelope

  /** The single magnitude clamp a retained thrust goes through. */
  function NormalizedIntent(g: Geometry, v: Vector2): Vector2
    requires IsSquareRoot(g.root)
  {
    var m := Magnitude(g, v);
    if m <= 1.0 then v else Vector2(v.x * (1.0 / m), v.y * (1.0 / m))
  }

  /** What that clamp multiplies a thrust by. */
  function IntentScale(g: Geometry, v: Vector2): real
    requires IsSquareRoot(g.root)
  {
    var m := Magnitude(g, v);
    if m <= 1.0 then 1.0 else 1.0 / m
  }

  /** What one tick of the retained thrust adds to a component. */
  function Kick(acceleration: real, intent: real): real {
    intent * acceleration * FIXED_DELTA
  }

  function VelocityAfter(g: Geometry, acceleration: real, v: Vector2, thrust: Vector2, drag: real, n: nat): Vector2
    requires IsSquareRoot(g.root)
  {
    var intent := NormalizedIntent(g, thrust);
    Vector2(Held(v.x, Kick(acceleration, intent.x), drag, n), Held(v.y, Kick(acceleration, intent.y), drag, n))
  }

  ghost predicate NoFaster(after: real, before: real) {
    Absolute(after) <= Absolute(before)
  }

  lemma ClampShrinks(c: real) returns (l: real)
    ensures UnitInterval(l) && ClampComponent(c) == c * l
  {
    if -1.0 <= c <= 1.0 {
      l := 1.0;
    } else if c > 1.0 {
      l := 1.0 / c;
      ReciprocalIsUnit(c);
    } else {
      l := 1.0 / -c;
      ReciprocalIsUnit(-c);
    }
  }

  lemma ReciprocalIsUnit(c: real)
    requires c >= 1.0
    ensures UnitInterval(1.0 / c) && c * (1.0 / c) == 1.0
  {
  }

  lemma CancelFactor(p: real, q: real, h: real)
    requires h > 0.0 && p * h == q * h
    ensures p == q
  {
    if p < q { TimesSign(q - p, h); } else if p > q { TimesSign(p - q, h); }
    assert (q - p) * h == 0.0;
  }

  /** The brake against a stationary target takes the share f/H of the velocity, or less once the clamp
      or the normalization bites. */
  lemma BrakeTakesAShare(acceleration: real, holdTicks: nat, fraction: real, v: real, scale: real) returns (b: real)
    requires acceleration >= 0.0 && holdTicks >= 1 && UnitInterval(fraction) && UnitInterval(scale)
    ensures b >= 0.0 && b * holdTicks as real <= fraction
    ensures Kick(acceleration, Times(BrakeComponent(acceleration, holdTicks, fraction, -v), scale)) == -Times(b, v)
  {
    hide Kick, Times, ClampComponent, Demand, Divisor;
    if fraction <= 0.0 || Divisor(acceleration, holdTicks) <= 0.0 {
      b := 0.0;
      TimesSign(0.0, scale);
      TimesSign(0.0, v);
      NoIntentNoKick(acceleration);
    } else {
      b := LiveBrakeTakesAShare(acceleration, holdTicks, fraction, v, scale);
    }
  }

  lemma NoIntentNoKick(acceleration: real)
    ensures Kick(acceleration, 0.0) == 0.0
  {
  }

  lemma LiveBrakeTakesAShare(acceleration: real, h: nat, fraction: real, v: real, scale: real) returns (b: real)
    requires h >= 1 && Divisor(acceleration, h) > 0.0 && UnitInterval(fraction) && UnitInterval(scale)
    ensures b >= 0.0 && b * h as real <= fraction
    ensures Kick(acceleration, Times(ClampComponent(Demand(-v, Divisor(acceleration, h), fraction)), scale)) ==
      -Times(b, v)
  {
    hide ClampComponent, Demand, Divisor;
    var l := ClampShrinks(Demand(-v, Divisor(acceleration, h), fraction));
    var k := Times(Times(fraction, l), scale);
    UnitProduct(fraction, l);
    UnitProduct(Times(fraction, l), scale);
    b := k / h as real;
    ShareOfDemand(acceleration, h, fraction, v, l, scale, b);
  }

  lemma ShareOfDemand(a: real, h: nat, f: real, v: real, l: real, scale: real, b: real)
    requires h >= 1 && Divisor(a, h) > 0.0 && b == Times(Times(f, l), scale) / h as real
    ensures Kick(a, Times(Demand(-v, Divisor(a, h), f) * l, scale)) == -Times(b, v)
    ensures b * h as real == Times(Times(f, l), scale)
  {
    var divisor := Divisor(a, h);
    var x := -v / divisor;
    assert x * divisor == -v;
    assert b * h as real == f * l * scale;
    ShareIdentity(x, v, f, l, scale, a, h as real, b, FIXED_DELTA);
  }

  lemma ShareIdentity(x: real, v: real, f: real, l: real, scale: real, a: real, h: real, b: real, dt: real)
    requires x * (a * (h * dt)) == -v && b * h == f * l * scale && h > 0.0
    ensures ((x * f) * l * scale) * a * dt == -(b * v)
  {
    var k := f * l * scale;
    assert ((x * f) * l * scale) * a * dt == x * k * a * dt;
    assert x * k * a * dt * h == x * (a * (h * dt)) * k;
    assert -(b * v) * h == -v * (b * h);
    CancelFactor(x * k * a * dt, -(b * v), h);
  }

  lemma NormalizationScales(g: Geometry, v: Vector2)
    requires IsSquareRoot(g.root)
    ensures UnitInterval(IntentScale(g, v))
    ensures NormalizedIntent(g, v) == Vector2(Times(v.x, IntentScale(g, v)), Times(v.y, IntentScale(g, v)))
  {
    if Magnitude(g, v) > 1.0 { ReciprocalIsUnit(Magnitude(g, v)); }
  }

  lemma ComponentNeverGains(v: real, b: real, q: real, n: nat)
    requires b >= 0.0 && UnitInterval(q) && b * n as real <= 2.0
    ensures NoFaster(Held(v, -Times(b, v), q, n), v)
  {
    hide Held, Weight;
    WeightStaysInTheUnitBall(b, q, n);
    HeldIsWeighted(v, b, q, n);
    var w := Weight(b, q, n);
    if v >= 0.0 {
      ProductSign(1.0 - w, v);
      ProductSign(1.0 + w, v);
    } else {
      ProductSign(1.0 - w, -v);
      ProductSign(1.0 + w, -v);
    }
    assert (1.0 - w) * v == v - v * w && (1.0 + w) * v == v + v * w;
    assert (1.0 - w) * -v == -v + v * w && (1.0 + w) * -v == -v - v * w;
  }

  lemma ShareOfHold(b: real, h: nat, f: real, n: nat)
    requires h >= 1 && b * h as real <= f && f * n as real <= 2.0 * h as real
    ensures b * n as real <= 2.0
  {
    var x, k := b * n as real, h as real;
    ProductSign(f - b * k, n as real);
    assert x * k == (b * k) * n as real;
    assert (f - b * k) * n as real == f * n as real - (b * k) * n as real;
    if x > 2.0 { TimesSign(x - 2.0, k); }
    assert (x - 2.0) * k == x * k - 2.0 * k;
  }

  /** Reversal is allowed, speeding up is not: a command computed for an estimate of h ticks and held for
      n, whatever earlier decision the estimate came from or none, leaves no component faster than it
      found it as long as the brake fraction of n is at most twice h, clamped or not and whatever the drag. */
  lemma ShortHoldNeverGainsSpeed(o: Observation, body: PhysicsBody, selected: Candidate, fraction: real, h: nat,
                                 drag: real, n: nat)
    requires ValidObservation(o) && UnitInterval(fraction) && UnitInterval(drag) && h >= 1
    requires selected.key.kind == Hill && selected.objectiveVelocity == ZERO_VECTOR
    requires fraction * n as real <= 2.0 * h as real
    ensures var thrust := ArrivalBrake(o, body, selected, fraction, h);
      var after := VelocityAfter(o.geometry, o.snapshot.acceleration, body.velocity, thrust, drag, n);
      NoFaster(after.x, body.velocity.x) && NoFaster(after.y, body.velocity.y)
  {
    hide BrakeComponent, Held, Kick, NormalizedIntent, IntentScale, NoFaster, Times, ValidStore, IsSquareRoot;
    var a, v := o.snapshot.acceleration, body.velocity;
    var thrust := ArrivalBrake(o, body, selected, fraction, h);
    var s := IntentScale(o.geometry, thrust);
    NormalizationScales(o.geometry, thrust);
    var shareX := BrakeTakesAShare(a, h, fraction, v.x, s);
    var shareY := BrakeTakesAShare(a, h, fraction, v.y, s);
    ShareOfHold(shareX, h, fraction, n);
    ShareOfHold(shareY, h, fraction, n);
    ComponentNeverGains(v.x, shareX, drag, n);
    ComponentNeverGains(v.y, shareY, drag, n);
    assert thrust == Vector2(BrakeComponent(a, h, fraction, -v.x), BrakeComponent(a, h, fraction, -v.y));
  }

  /** With an established spacing the envelope covers every tick of one whole hold. */
  lemma HoldNeverGainsSpeed(o: Observation, body: PhysicsBody, selected: Candidate, fraction: real, reactionDelay: nat,
                            previous: Tick, drag: real, n: nat)
    requires ValidObservation(o) && UnitInterval(fraction) && UnitInterval(drag) && previous < o.snapshot.tick
    requires selected.key.kind == Hill && selected.objectiveVelocity == ZERO_VECTOR
    requires n <= ActualHold(reactionDelay, o.snapshot.tick - previous)
    ensures var h := CommandHoldTicks(reactionDelay, o.snapshot.tick, Some(previous));
      var thrust := ArrivalBrake(o, body, selected, fraction, h);
      var after := VelocityAfter(o.geometry, o.snapshot.acceleration, body.velocity, thrust, drag, n);
      NoFaster(after.x, body.velocity.x) && NoFaster(after.y, body.velocity.y)
  {
    hide ArrivalBrake, VelocityAfter, ActualHold, NoFaster, CommandHoldTicks, ValidStore;
    var h := CommandHoldTicks(reactionDelay, o.snapshot.tick, Some(previous));
    ActualHoldIsUnderTwiceTheEstimate(reactionDelay, o.snapshot.tick, previous, 1);
    ProductSign(1.0 - fraction, n as real);
    assert (1.0 - fraction) * n as real == n as real - fraction * n as real;
    assert n < 2 * h && n as real < 2.0 * h as real;
    ShortHoldNeverGainsSpeed(o, body, selected, fraction, h, drag, n);
  }

  /** A first decision has no spacing to go by; its hold is covered all the same when observations come
      no further apart than the reaction delay it divides by. */
  lemma FirstHoldNeverGainsSpeed(o: Observation, body: PhysicsBody, selected: Candidate, fraction: real,
                                 reactionDelay: nat, spacing: nat, drag: real, n: nat)
    requires ValidObservation(o) && UnitInterval(fraction) && UnitInterval(drag) && 1 <= spacing <= reactionDelay
    requires selected.key.kind == Hill && selected.objectiveVelocity == ZERO_VECTOR
    requires n <= ActualHold(reactionDelay, spacing)
    ensures var thrust :=
      ArrivalBrake(o, body, selected, fraction, CommandHoldTicks(reactionDelay, o.snapshot.tick, None));
      var after := VelocityAfter(o.geometry, o.snapshot.acceleration, body.velocity, thrust, drag, n);
      NoFaster(after.x, body.velocity.x) && NoFaster(after.y, body.velocity.y)
  {
    hide ArrivalBrake, VelocityAfter, NoFaster, ValidStore;
    AwaitedIsLeast(reactionDelay, spacing);
    var k := ObservationsAwaited(reactionDelay, spacing);
    assert k * spacing == (k - 1) * spacing + spacing;
    ProductSign(1.0 - fraction, n as real);
    assert (1.0 - fraction) * n as real == n as real - fraction * n as real;
    ShortHoldNeverGainsSpeed(o, body, selected, fraction, reactionDelay, drag, n);
  }

  // ---------------------------------------------------------------- the speed limiter

  /** What the limiter makes of the velocity one tick asks for: all of it, within the ceiling or the speed
      the body already has, and otherwise whatever its projection cuts it to. */
  function Limited(v: Vector2, kick: Vector2, ceiling: real, cut: (Vector2, Vector2) -> Vector2): Vector2 {
    var asked := Vector2(v.x + kick.x, v.y + kick.y);
    if SquaredMagnitude(asked) <= Square(ceiling) || SquaredMagnitude(asked) <= SquaredMagnitude(v) then asked
    else cut(v, kick)
  }

  /** A velocity after n ticks of a held command through the limiter. */
  function LimitedHeld(v: Vector2, kick: Vector2, ceiling: real, cut: (Vector2, Vector2) -> Vector2, drag: real,
                       n: nat): Vector2
  {
    if n == 0 then v
    else
      var driven := Limited(LimitedHeld(v, kick, ceiling, cut, drag, n - 1), kick, ceiling, cut);
      Vector2(driven.x * drag, driven.y * drag)
  }

  function KickOf(g: Geometry, acceleration: real, thrust: Vector2): Vector2
    requires IsSquareRoot(g.root)
  {
    var intent := NormalizedIntent(g, thrust);
    Vector2(Kick(acceleration, intent.x), Kick(acceleration, intent.y))
  }

  function LimitedVelocityAfter(o: Observation, v: Vector2, thrust: Vector2, cut: (Vector2, Vector2) -> Vector2,
                                drag: real, n: nat): Vector2
    requires IsSquareRoot(o.geometry.root)
  {
    LimitedHeld(v, KickOf(o.geometry, o.snapshot.acceleration, thrust), o.snapshot.normalTopSpeed, cut, drag, n)
  }

  /** No tick of the brake adds more to a component than the body came with. */
  lemma KickIsNoFaster(o: Observation, body: PhysicsBody, selected: Candidate, fraction: real, h: nat)
    requires ValidObservation(o) && UnitInterval(fraction) && h >= 1
    requires selected.key.kind == Hill && selected.objectiveVelocity == ZERO_VECTOR
    ensures var kick := KickOf(o.geometry, o.snapshot.acceleration, ArrivalBrake(o, body, selected, fraction, h));
      NoFaster(kick.x, body.velocity.x) && NoFaster(kick.y, body.velocity.y)
  {
    hide BrakeComponent, Kick, NormalizedIntent, IntentScale, NoFaster, Times, ValidStore, IsSquareRoot;
    var a, v := o.snapshot.acceleration, body.velocity;
    var thrust := ArrivalBrake(o, body, selected, fraction, h);
    NormalizationScales(o.geometry, thrust);
    var shareX := BrakeTakesAShare(a, h, fraction, v.x, IntentScale(o.geometry, thrust));
    var shareY := BrakeTakesAShare(a, h, fraction, v.y, IntentScale(o.geometry, thrust));
    ShareIsNoFaster(shareX, h, v.x);
    ShareIsNoFaster(shareY, h, v.y);
    assert thrust == Vector2(BrakeComponent(a, h, fraction, -v.x), BrakeComponent(a, h, fraction, -v.y));
  }

  lemma ShareIsNoFaster(b: real, h: nat, v: real)
    requires b >= 0.0 && h >= 1 && b * h as real <= 1.0
    ensures NoFaster(-Times(b, v), v)
  {
    ProductSign(b, h as real - 1.0);
    assert b * (h as real - 1.0) == b * h as real - b;
    ProductSign(b, Absolute(v));
    ProductSign(1.0 - b, Absolute(v));
    assert (1.0 - b) * Absolute(v) == Absolute(v) - b * Absolute(v);
    if v >= 0.0 { assert Absolute(v) == v; } else { assert b * Absolute(v) == -(b * v); }
  }

  /** From at most half the ceiling a velocity no faster in either component, and a kick no faster either,
      ask for nothing the limiter would cut. */
  lemma SlowIsUncut(v: Vector2, now: Vector2, kick: Vector2, ceiling: real, cut: (Vector2, Vector2) -> Vector2)
    requires NoFaster(now.x, v.x) && NoFaster(now.y, v.y) && NoFaster(kick.x, v.x) && NoFaster(kick.y, v.y)
    requires 4.0 * SquaredMagnitude(v) <= Square(ceiling)
    ensures SquaredMagnitude(Vector2(now.x + kick.x, now.y + kick.y)) <= Square(ceiling)
    ensures Limited(now, kick, ceiling, cut) == Vector2(now.x + kick.x, now.y + kick.y)
  {
    hide SquaredMagnitude, Square;
    InComponents(v);
    InComponents(Vector2(now.x + kick.x, now.y + kick.y));
    DoubledSquare(now.x, kick.x, v.x);
    DoubledSquare(now.y, kick.y, v.y);
  }

  lemma {:induction false} ShortHoldIsUnlimited(o: Observation, body: PhysicsBody, selected: Candidate, fraction: real,
                                                h: nat, cut: (Vector2, Vector2) -> Vector2, drag: real, n: nat)
    requires ValidObservation(o) && UnitInterval(fraction) && UnitInterval(drag) && h >= 1
    requires selected.key.kind == Hill && selected.objectiveVelocity == ZERO_VECTOR
    requires fraction * n as real <= 2.0 * h as real
    requires 4.0 * SquaredMagnitude(body.velocity) <= Square(o.snapshot.normalTopSpeed)
    ensures var thrust := ArrivalBrake(o, body, selected, fraction, h);
      LimitedVelocityAfter(o, body.velocity, thrust, cut, drag, n) ==
      VelocityAfter(o.geometry, o.snapshot.acceleration, body.velocity, thrust, drag, n)
  {
    hide ArrivalBrake, NormalizedIntent, Kick, NoFaster, ValidStore, Square, SquaredMagnitude, IsSquareRoot, Limited;
    if n > 0 {
      assert fraction * (n - 1) as real == fraction * n as real - fraction;
      ShortHoldIsUnlimited(o, body, selected, fraction, h, cut, drag, n - 1);
      ShortHoldNeverGainsSpeed(o, body, selected, fraction, h, drag, n - 1);
      KickIsNoFaster(o, body, selected, fraction, h);
      var thrust := ArrivalBrake(o, body, selected, fraction, h);
      var now := VelocityAfter(o.geometry, o.snapshot.acceleration, body.velocity, thrust, drag, n - 1);
      SlowIsUncut(body.velocity, now, KickOf(o.geometry, o.snapshot.acceleration, thrust), o.snapshot.normalTopSpeed,
                  cut);
    }
  }

  /** The speed limiter stays out of it: from at most half the ceiling, a hold through the limiter is the
      hold without it, tick by tick, and no tick before its end asks for more than the ceiling. */
  lemma LimiterStaysInactive(o: Observation, body: PhysicsBody, selected: Candidate, fraction: real, reactionDelay: nat,
                             previous: Tick, cut: (Vector2, Vector2) -> Vector2, drag: real, n: nat)
    requires ValidObservation(o) && UnitInterval(fraction) && UnitInterval(drag) && previous < o.snapshot.tick
    requires selected.key.kind == Hill && selected.objectiveVelocity == ZERO_VECTOR
    requires n <= ActualHold(reactionDelay, o.snapshot.tick - previous)
    requires 4.0 * SquaredMagnitude(body.velocity) <= Square(o.snapshot.normalTopSpeed)
    ensures var h := CommandHoldTicks(reactionDelay, o.snapshot.tick, Some(previous));
      var thrust := ArrivalBrake(o, body, selected, fraction, h);
      var kick := KickOf(o.geometry, o.snapshot.acceleration, thrust);
      var now := VelocityAfter(o.geometry, o.snapshot.acceleration, body.velocity, thrust, drag, n);
      && LimitedVelocityAfter(o, body.velocity, thrust, cut, drag, n) == now
      && SquaredMagnitude(Vector2(now.x + kick.x, now.y + kick.y)) <= Square(o.snapshot.normalTopSpeed)
  {
    hide ArrivalBrake, VelocityAfter, LimitedVelocityAfter, KickOf, ActualHold, NoFaster, CommandHoldTicks, ValidStore,
      Square, SquaredMagnitude;
    var h := CommandHoldTicks(reactionDelay, o.snapshot.tick, Some(previous));
    ActualHoldIsUnderTwiceTheEstimate(reactionDelay, o.snapshot.tick, previous, 1);
    ProductSign(1.0 - fraction, n as real);
    assert (1.0 - fraction) * n as real == n as real - fraction * n as real;
    assert n < 2 * h && n as real < 2.0 * h as real;
    ShortHoldIsUnlimited(o, body, selected, fraction, h, cut, drag, n);
    ShortHoldNeverGainsSpeed(o, body, selected, fraction, h, drag, n);
    KickIsNoFaster(o, body, selected, fraction, h);
    var thrust := ArrivalBrake(o, body, selected, fraction, h);
    var now := VelocityAfter(o.geometry, o.snapshot.acceleration, body.velocity, thrust, drag, n);
    SlowIsUncut(body.velocity, now, KickOf(o.geometry, o.snapshot.acceleration, thrust), o.snapshot.normalTopSpeed,
                cut);
  }

  lemma DoubledSquare(x: real, k: real, v: real)
    requires NoFaster(x, v) && NoFaster(k, v)
    ensures (x + k) * (x + k) <= 4.0 * (v * v)
  {
    var a, m := Absolute(x + k), 2.0 * Absolute(v);
    ProductIsMonotone(a, a, m, m);
    assert a * a == (x + k) * (x + k) && m * m == 4.0 * (v * v);
  }

  // ---------------------------------------------------------------- any number of holds

  /** One qualifying hold as the schedule sees it: when it was decided, when the last was, how much drag. */
  datatype Hold = Hold(observation: Observation, body: PhysicsBody, selected: Candidate, fraction: real,
                       reactionDelay: nat,
    previous: Tick, drag: real)

  ghost predicate Qualifies(h: Hold, velocity: Vector2) {
    && ValidObservation(h.observation) && UnitInterval(h.fraction) && UnitInterval(h.drag)
    && h.previous < h.observation.snapshot.tick && h.body.velocity == velocity
    && h.selected.key.kind == Hill && h.selected.objectiveVelocity == ZERO_VECTOR
  }

  ghost function AfterHold(h: Hold): Vector2
    requires Qualifies(h, h.body.velocity)
  {
    var o := h.observation;
    var thrust := ArrivalBrake(o, h.body, h.selected, h.fraction,
                               CommandHoldTicks(h.reactionDelay, o.snapshot.tick, Some(h.previous)));
    VelocityAfter(o.geometry, o.snapshot.acceleration, h.body.velocity, thrust, h.drag,
                  ActualHold(h.reactionDelay, o.snapshot.tick - h.previous))
  }

  /** Each hold starts at the velocity the one before it ended with. */
  ghost predicate Chained(holds: seq<Hold>, velocities: seq<Vector2>) {
    && |velocities| == |holds| + 1
    && forall i :: 0 <= i < |holds| ==> Qualifies(holds[i], velocities[i]) && velocities[i + 1] == AfterHold(holds[i])
  }

  /** However many holds follow one another, the last leaves no component faster than the first found it. */
  lemma {:induction false} HoldsNeverGainSpeed(holds: seq<Hold>, velocities: seq<Vector2>, i: nat, j: nat)
    requires Chained(holds, velocities) && i <= j <= |holds|
    ensures NoFaster(velocities[j].x, velocities[i].x) && NoFaster(velocities[j].y, velocities[i].y)
    decreases j - i
  {
    hide AfterHold, Qualifies;
    if i < j {
      HoldsNeverGainSpeed(holds, velocities, i, j - 1);
      OneHold(holds[j - 1], velocities[j - 1]);
    }
  }

  lemma OneHold(h: Hold, v: Vector2)
    requires Qualifies(h, v)
    ensures Qualifies(h, h.body.velocity) && NoFaster(AfterHold(h).x, v.x) && NoFaster(AfterHold(h).y, v.y)
  {
    hide ArrivalBrake, VelocityAfter, ActualHold, ValidObservation, NoFaster;
    HoldNeverGainsSpeed(h.observation, h.body, h.selected, h.fraction, h.reactionDelay, h.previous, h.drag,
      ActualHold(h.reactionDelay, h.observation.snapshot.tick - h.previous));
  }

  // ---------------------------------------------------------------- where the envelope ends

  lemma {:induction false} DragFreeHold(v: real, kick: real, n: nat)
    ensures Held(v, kick, 1.0, n) == v + n as real * kick
  {
    if n > 0 {
      DragFreeHold(v, kick, n - 1);
      assert n as real * kick == (n - 1) as real * kick + kick;
    }
  }

  function Least(x: real, y: real): real {
    if x <= y then x else y
  }

  /** What one tick of the brake takes from a component before normalization: the share it was asked to
      spread over the hold, or all the acceleration there is. */
  function Taken(a: real, h: nat, f: real, speed: real): real
    requires h >= 1
  {
    Least(Times(f, speed) / h as real, a * FIXED_DELTA)
  }

  lemma BrakeStrength(a: real, h: nat, f: real, v: real)
    requires a >= 0.0 && h >= 1 && UnitInterval(f)
    ensures Kick(a, BrakeComponent(a, h, f, -v)) == if v >= 0.0 then -Taken(a, h, f, v) else Taken(a, h, f, -v)
    ensures Taken(a, h, f, Absolute(v)) >= 0.0
  {
    hide Demand, Times;
    var u, k := Absolute(v), h as real;
    var asked := Times(f, u) / k;
    assert asked >= 0.0 by {
      ProductSign(f, u);
      TimesIsProduct(f, u);
    }
    if f <= 0.0 {
      TimesSign(f, u);
    } else if Divisor(a, h) <= 0.0 {
      assert a == 0.0 by { if a > 0.0 { TimesSign(a, k * FIXED_DELTA); } }
    } else {
      DemandSpends(a, h, f, v);
    }
  }

  lemma DemandSpends(a: real, h: nat, f: real, v: real)
    requires h >= 1 && f > 0.0 && a >= 0.0 && Divisor(a, h) > 0.0
    ensures var d, p, r := Demand(-v, Divisor(a, h), f), Times(f, Absolute(v)) / h as real, a * FIXED_DELTA;
      && (v >= 0.0 ==> d * r == -p) && (v < 0.0 ==> d * r == p) && r > 0.0
      && (p <= r ==> -1.0 <= d <= 1.0) && (p > r ==> (v >= 0.0 ==> d < -1.0) && (v < 0.0 ==> d > 1.0))
  {
    hide Divisor;
    var k, r := h as real, a * FIXED_DELTA;
    var divisor := Divisor(a, h);
    assert divisor == r * k by { DivisorUnfolds(a, h); }
    assert r > 0.0 by { if r <= 0.0 { ProductSign(r, k); } }
    var x := -v / divisor;
    assert x * divisor == -v;
    var d := Demand(-v, divisor, f);
    assert d == x * f;
    var p := Times(f, Absolute(v)) / k;
    assert p * k == f * Absolute(v);
    var sign := if v >= 0.0 then -1.0 else 1.0;
    assert Absolute(v) == -v * sign;
    assert (d * r) * k == (p * sign) * k by {
      assert (d * r) * k == f * (x * (r * k));
      assert (p * sign) * k == (p * k) * sign;
      assert (f * (-v * sign)) * sign == f * -v * (sign * sign);
    }
    CancelFactor(d * r, p * sign, k);
    ClampDecides(d, p * sign, r);
  }

  lemma DivisorUnfolds(a: real, h: nat)
    ensures Divisor(a, h) == (a * FIXED_DELTA) * h as real
  {
  }

  lemma ClampDecides(d: real, p: real, r: real)
    requires r > 0.0 && d * r == p
    ensures (p <= r <==> d <= 1.0) && (p >= -r <==> d >= -1.0)
  {
    TimesSign(d - 1.0, r);
    TimesSign(1.0 - d, r);
    TimesSign(d + 1.0, r);
    TimesSign(-1.0 - d, r);
    assert (d - 1.0) * r == p - r && (1.0 - d) * r == r - p && (d + 1.0) * r == p + r && (-1.0 - d) * r == -p - r;
  }

  /** A drag-free hold that cannot reverse a component past its own speed: at rest, short enough for its
      estimate, or with too little acceleration to turn it that far. */
  ghost predicate WithinReach(speed: real, a: real, h: nat, f: real, scale: real, n: nat) {
    || speed == 0.0
    || Times(n as real, scale) * f <= 2.0 * h as real
    || Times(n as real, scale) * (a * FIXED_DELTA) <= 2.0 * speed
  }

  lemma ReachDecides(q: real, f: real, u: real, h: real, r: real)
    requires q >= 0.0 && u > 0.0 && h > 0.0
    ensures q * Least(Times(f, u) / h, r) <= 2.0 * u <==> q * f <= 2.0 * h || q * r <= 2.0 * u
  {
    LeastIsEither(q, Times(f, u) / h, r, 2.0 * u);
    ShareDecides(q, f, u, h, Times(f, u) / h);
  }

  lemma LeastIsEither(q: real, p: real, r: real, t: real)
    requires q >= 0.0
    ensures q * Least(p, r) <= t <==> q * p <= t || q * r <= t
  {
    ProductSign(q, p - r);
    ProductSign(q, r - p);
    assert q * (p - r) == q * p - q * r && q * (r - p) == q * r - q * p;
  }

  lemma ShareDecides(q: real, f: real, u: real, h: real, p: real)
    requires u > 0.0 && h > 0.0 && p == Times(f, u) / h
    ensures q * p <= 2.0 * u <==> q * f <= 2.0 * h
  {
    assert p * h == f * u;
    var x, y := 2.0 * u - q * p, 2.0 * h - q * f;
    assert x * h == 2.0 * u * h - q * (p * h);
    assert y * u == 2.0 * u * h - q * (f * u);
    TimesSign(x, h);
    TimesSign(-x, h);
    TimesSign(y, u);
    TimesSign(-y, u);
  }

  lemma DragFreeComponent(v: real, a: real, h: nat, f: real, scale: real, n: nat)
    requires a >= 0.0 && h >= 1 && UnitInterval(f) && UnitInterval(scale)
    ensures NoFaster(Held(v, Kick(a, Times(BrakeComponent(a, h, f, -v), scale)), 1.0, n), v) <==>
      WithinReach(Absolute(v), a, h, f, scale, n)
  {
    hide BrakeComponent, Held, Kick, Taken, Times;
    var kick, u := Kick(a, Times(BrakeComponent(a, h, f, -v), scale)), Absolute(v);
    var whole, taken, q := Kick(a, BrakeComponent(a, h, f, -v)), Taken(a, h, f, u), Times(n as real, scale);
    DragFreeHold(v, kick, n);
    BrakeStrength(a, h, f, v);
    ScaledKick(a, BrakeComponent(a, h, f, -v), scale, n);
    assert q >= 0.0 by { ProductSign(n as real, scale); TimesIsProduct(n as real, scale); }
    if v == 0.0 {
      TakenFromNothing(a, h, f);
      ProductSign(q, 0.0);
    } else {
      TakenDecides(q, a, h, f, u);
      ProductSign(q, taken);
      assert n as real * kick == q * whole;
      assert v > 0.0 ==> q * whole == -(q * taken);
    }
  }

  lemma TimesIsProduct(x: real, y: real)
    ensures Times(x, y) == x * y
  {
  }

  lemma TakenFromNothing(a: real, h: nat, f: real)
    requires a >= 0.0 && h >= 1
    ensures Taken(a, h, f, 0.0) == 0.0
  {
  }

  lemma TakenDecides(q: real, a: real, h: nat, f: real, u: real)
    requires q >= 0.0 && u > 0.0 && h >= 1
    ensures q * Taken(a, h, f, u) <= 2.0 * u <==> q * f <= 2.0 * h as real || q * (a * FIXED_DELTA) <= 2.0 * u
  {
    hide Least, Times;
    ReachDecides(q, f, u, h as real, a * FIXED_DELTA);
  }

  lemma ScaledKick(a: real, intent: real, scale: real, n: nat)
    ensures n as real * Kick(a, Times(intent, scale)) == Times(n as real, scale) * Kick(a, intent)
  {
  }

  // ---------------------------------------------------------------- a hill that moves

  /** What one component of the brake is: the fraction of the closing velocity the hold is asked to spend, as a
      share of all the hold could change, or full thrust when that is not enough. */
  ghost predicate SpendsClosing(thrust: real, closing: real, fraction: real, a: real, h: nat) {
    var wanted, most := fraction * closing, a * h as real / 400.0;
    if wanted > most then thrust == 1.0 else if wanted < -most then thrust == -1.0 else thrust * most == wanted
  }

  /** A hill is braked on relative to its own motion, by a profile with a brake in a room with acceleration;
      everything else is coasted to. */
  lemma BrakeSpendsTheClosingVelocity(o: Observation, body: PhysicsBody, selected: Candidate, fraction: real, h: nat)
    requires o.snapshot.acceleration >= 0.0 && fraction >= 0.0 && h >= 1
    ensures var thrust, w, v, a :=
      ArrivalBrake(o, body, selected, fraction, h), selected.objectiveVelocity, body.velocity, o.snapshot.acceleration;
      if selected.key.kind == Hill && fraction > 0.0 && a > 0.0 then
        SpendsClosing(thrust.x, w.x - v.x, fraction, a, h) && SpendsClosing(thrust.y, w.y - v.y, fraction, a, h)
      else thrust == ZERO_VECTOR
  {
    hide BrakeComponent, SpendsClosing;
    var w, v, a := selected.objectiveVelocity, body.velocity, o.snapshot.acceleration;
    ComponentSpends(w.x - v.x, fraction, a, h);
    ComponentSpends(w.y - v.y, fraction, a, h);
  }

  lemma ComponentSpends(closing: real, fraction: real, a: real, h: nat)
    requires a >= 0.0 && fraction >= 0.0 && h >= 1
    ensures var thrust := BrakeComponent(a, h, fraction, closing);
      if fraction > 0.0 && a > 0.0 then SpendsClosing(thrust, closing, fraction, a, h) else thrust == 0.0
  {
    var most := a * h as real / 400.0;
    assert Divisor(a, h) == most;
    if fraction > 0.0 && a > 0.0 {
      TimesSign(a, h as real);
      var share := closing / most;
      assert share * most == closing;
      var d := share * fraction;
      assert d * most == fraction * closing;
      ClampDecides(d, fraction * closing, most);
    }
  }

  /** The brake on a moving hill is the one on a stationary hill for the velocity left over, so a body that
      keeps up with its hill coasts. */
  lemma BrakeIsRelative(o: Observation, body: PhysicsBody, selected: Candidate, fraction: real, h: nat)
    ensures ArrivalBrake(o, body, selected, fraction, h) ==
      ArrivalBrake(o, body.(velocity := Offset(selected.objectiveVelocity, body.velocity)),
                   selected.(objectiveVelocity := ZERO_VECTOR), fraction, h)
    ensures body.velocity == selected.objectiveVelocity ==>
      ArrivalBrake(o, body, selected, fraction, h) == ZERO_VECTOR
  {
  }

  /** Without drag a held command changes a velocity the same whatever it is measured against. */
  lemma DragFreeHoldIsRelative(g: Geometry, a: real, v: Vector2, w: Vector2, thrust: Vector2, n: nat)
    requires IsSquareRoot(g.root)
    ensures Offset(w, VelocityAfter(g, a, v, thrust, 1.0, n)) == VelocityAfter(g, a, Offset(w, v), thrust, 1.0, n)
  {
    hide Kick, NormalizedIntent, Held, IsSquareRoot;
    var intent, u := NormalizedIntent(g, thrust), Offset(w, v);
    DragFreeHold(v.x, Kick(a, intent.x), n);
    DragFreeHold(v.y, Kick(a, intent.y), n);
    DragFreeHold(u.x, Kick(a, intent.x), n);
    DragFreeHold(u.y, Kick(a, intent.y), n);
  }

  /** Over a drag-free hold on a hill of any constant velocity, no component of the velocity relative to the
      hill grows while the brake fraction of the hold is at most twice the estimate. */
  lemma MovingHillHoldNeverGainsSpeed(o: Observation, body: PhysicsBody, selected: Candidate, fraction: real, h: nat,
                                      n: nat)
    requires ValidObservation(o) && UnitInterval(fraction) && h >= 1 && selected.key.kind == Hill
    requires fraction * n as real <= 2.0 * h as real
    ensures var thrust, w := ArrivalBrake(o, body, selected, fraction, h), selected.objectiveVelocity;
      var after :=
        Offset(w, VelocityAfter(o.geometry, o.snapshot.acceleration, body.velocity, thrust, 1.0, n));
      NoFaster(after.x, body.velocity.x - w.x) && NoFaster(after.y, body.velocity.y - w.y)
  {
    hide ArrivalBrake, VelocityAfter, NoFaster, ValidStore, IsSquareRoot;
    var w := selected.objectiveVelocity;
    var relative, still := body.(velocity := Offset(w, body.velocity)), selected.(objectiveVelocity := ZERO_VECTOR);
    BrakeIsRelative(o, body, selected, fraction, h);
    DragFreeHoldIsRelative(o.geometry, o.snapshot.acceleration, body.velocity, w,
                           ArrivalBrake(o, body, selected, fraction, h), n);
    ShortHoldNeverGainsSpeed(o, relative, still, fraction, h, 1.0, n);
  }

  /** So it is at every tick of the actual hold once the spacing of observations is known. */
  lemma MovingHillActualHoldNeverGainsSpeed(o: Observation, body: PhysicsBody, selected: Candidate, fraction: real,
                                            reactionDelay: nat, previous: Tick, n: nat)
    requires ValidObservation(o) && UnitInterval(fraction) && previous < o.snapshot.tick && selected.key.kind == Hill
    requires n <= ActualHold(reactionDelay, o.snapshot.tick - previous)
    ensures var h := CommandHoldTicks(reactionDelay, o.snapshot.tick, Some(previous));
      var thrust, w := ArrivalBrake(o, body, selected, fraction, h), selected.objectiveVelocity;
      var after :=
        Offset(w, VelocityAfter(o.geometry, o.snapshot.acceleration, body.velocity, thrust, 1.0, n));
      NoFaster(after.x, body.velocity.x - w.x) && NoFaster(after.y, body.velocity.y - w.y)
  {
    hide ArrivalBrake, VelocityAfter, ActualHold, NoFaster, CommandHoldTicks, ValidStore;
    var h := CommandHoldTicks(reactionDelay, o.snapshot.tick, Some(previous));
    ActualHoldIsUnderTwiceTheEstimate(reactionDelay, o.snapshot.tick, previous, 1);
    ProductSign(1.0 - fraction, n as real);
    assert (1.0 - fraction) * n as real == n as real - fraction * n as real;
    assert n < 2 * h && n as real < 2.0 * h as real;
    MovingHillHoldNeverGainsSpeed(o, body, selected, fraction, h, n);
  }

  /** Without drag, a command computed for an estimate of h ticks and held for n keeps a component of the
      velocity relative to the hill within its magnitude exactly while the brake fraction of n, scaled by what
      normalization left of the thrust, is at most twice h, or the scaled acceleration of n ticks is at most
      twice the speed. */
  lemma DragFreeHoldGainsExactlyBeyondTwice(o: Observation, body: PhysicsBody, selected: Candidate, fraction: real,
                                            h: nat, n: nat)
    requires ValidObservation(o) && UnitInterval(fraction) && h >= 1 && selected.key.kind == Hill
    ensures var thrust, a, w := ArrivalBrake(o, body, selected, fraction, h), o.snapshot.acceleration,
                                selected.objectiveVelocity;
      var after, u := Offset(w, VelocityAfter(o.geometry, a, body.velocity, thrust, 1.0, n)), Offset(w, body.velocity);
      var scale := IntentScale(o.geometry, thrust);
      && (NoFaster(after.x, u.x) <==> WithinReach(Absolute(u.x), a, h, fraction, scale, n))
      && (NoFaster(after.y, u.y) <==> WithinReach(Absolute(u.y), a, h, fraction, scale, n))
  {
    hide BrakeComponent, Held, Kick, NormalizedIntent, IntentScale, NoFaster, Times, WithinReach, ValidStore,
      IsSquareRoot;
    var a, u := o.snapshot.acceleration, Offset(selected.objectiveVelocity, body.velocity);
    var thrust := ArrivalBrake(o, body, selected, fraction, h);
    NormalizationScales(o.geometry, thrust);
    DragFreeHoldIsRelative(o.geometry, a, body.velocity, selected.objectiveVelocity, thrust, n);
    DragFreeComponent(u.x, a, h, fraction, IntentScale(o.geometry, thrust), n);
    DragFreeComponent(u.y, a, h, fraction, IntentScale(o.geometry, thrust), n);
    assert thrust == Vector2(BrakeComponent(a, h, fraction, -u.x), BrakeComponent(a, h, fraction, -u.y));
  }

  /** The first decision of a bot that reacts at once divides by one tick: held for the twenty until the
      next observation, it turns a quarter into minus four and three quarters. */
  lemma FirstHoldCanAmplify(o: Observation, body: PhysicsBody, selected: Candidate)
    requires ValidObservation(o) && o.snapshot.acceleration == 400.0 && body.velocity == Vector2(0.25, 0.0)
    requires selected.key.kind == Hill && selected.objectiveVelocity == ZERO_VECTOR
    ensures var thrust := ArrivalBrake(o, body, selected, 1.0, CommandHoldTicks(0, o.snapshot.tick, None));
      && thrust == Vector2(-0.25, 0.0)
      && VelocityAfter(o.geometry, 400.0, body.velocity, thrust, 1.0, ActualHold(0, 20)) == Vector2(-4.75, 0.0)
  {
    hide Held, IsSquareRoot, ValidStore, SquaredMagnitude;
    var thrust := ArrivalBrake(o, body, selected, 1.0, 1);
    assert Divisor(400.0, 1) == 1.0;
    assert thrust == Vector2(-0.25, 0.0);
    ShortThrustIsKept(o.geometry, thrust);
    DragFreeHold(0.25, Kick(400.0, -0.25), 20);
    DragFreeHold(0.0, Kick(400.0, 0.0), 20);
  }

  lemma ShortThrustIsKept(g: Geometry, v: Vector2)
    requires IsSquareRoot(g.root) && v == Vector2(-0.25, 0.0)
    ensures NormalizedIntent(g, v) == v
  {
    hide IsSquareRoot, Square;
    MagnitudeIsPositive(g, v);
    InComponents(v);
    SquareIsProduct(Magnitude(g, v));
    RootIsMonotone(Magnitude(g, v), 0.25);
  }

  /** A full brake whose estimate is exact brings a body that is slow enough relative to its hill to exactly
      the hill's own velocity: a dead stop when the hill stands still. */
  lemma ExactHoldStops(o: Observation, body: PhysicsBody, selected: Candidate, h: nat)
    requires ValidObservation(o) && h >= 1 && selected.key.kind == Hill
    requires 0.0 < Divisor(o.snapshot.acceleration, h)
    requires SquaredMagnitude(Offset(selected.objectiveVelocity, body.velocity)) <=
      Square(Divisor(o.snapshot.acceleration, h))
    ensures VelocityAfter(o.geometry, o.snapshot.acceleration, body.velocity, ArrivalBrake(o, body, selected, 1.0, h),
                          1.0, h) ==
            selected.objectiveVelocity
  {
    hide Held, Kick, SquaredMagnitude, Square, Divisor, IsSquareRoot, ValidStore;
    var a, w, d := o.snapshot.acceleration, selected.objectiveVelocity, Divisor(o.snapshot.acceleration, h);
    var u := Offset(w, body.velocity);
    SlowComponents(u, d);
    var thrust := ArrivalBrake(o, body, selected, 1.0, h);
    assert thrust == Vector2(-u.x / d, -u.y / d);
    SlowBrakeIsKept(o.geometry, u, d);
    DragFreeHold(body.velocity.x, Kick(a, thrust.x), h);
    DragFreeHold(body.velocity.y, Kick(a, thrust.y), h);
    HoldSpends(a, h, u.x);
    HoldSpends(a, h, u.y);
    assert w == Vector2(w.x, w.y);
  }

  lemma SlowComponents(v: Vector2, d: real)
    requires d > 0.0 && SquaredMagnitude(v) <= Square(d)
    ensures -1.0 <= -v.x / d <= 1.0 && -1.0 <= -v.y / d <= 1.0
  {
    InComponents(v);
    SquareIsProduct(d);
    SquareIsAtLeastZero(v.x);
    SquareIsAtLeastZero(v.y);
    RootIsMonotone(v.x, d);
    RootIsMonotone(v.y, d);
    ClampDecides(-v.x / d, -v.x, d);
    ClampDecides(-v.y / d, -v.y, d);
  }

  lemma SlowBrakeIsKept(g: Geometry, v: Vector2, d: real)
    requires IsSquareRoot(g.root) && d > 0.0 && SquaredMagnitude(v) <= Square(d)
    ensures NormalizedIntent(g, Vector2(-v.x / d, -v.y / d)) == Vector2(-v.x / d, -v.y / d)
  {
    hide IsSquareRoot, Square, SquaredMagnitude;
    var t := Vector2(-v.x / d, -v.y / d);
    MagnitudeIsPositive(g, t);
    InComponents(t);
    InComponents(v);
    SquareIsProduct(d);
    SquareIsProduct(Magnitude(g, t));
    ScaledSquares(t.x, t.y, d);
    NegatedQuotient(v.x, d);
    NegatedQuotient(v.y, d);
    var m := SquaredMagnitude(t);
    assert m * (d * d) == v.x * v.x + v.y * v.y;
    TimesSign(d, d);
    assert d * d > 0.0;
    if m > 1.0 { TimesSign(m - 1.0, d * d); }
    assert (m - 1.0) * (d * d) == m * (d * d) - d * d;
    RootIsMonotone(Magnitude(g, t), 1.0);
  }

  lemma NegatedQuotient(x: real, d: real)
    requires d > 0.0
    ensures (-x / d * d) * (-x / d * d) == x * x
  {
    assert -x / d * d == -x;
  }

  lemma HoldSpends(a: real, h: nat, v: real)
    requires h >= 1 && Divisor(a, h) > 0.0
    ensures v + h as real * Kick(a, -v / Divisor(a, h)) == 0.0
  {
    hide Divisor;
    var x := -v / Divisor(a, h);
    assert x * Divisor(a, h) == -v;
    DivisorUnfolds(a, h);
    assert h as real * (x * a * FIXED_DELTA) == x * ((a * FIXED_DELTA) * h as real);
  }
}
