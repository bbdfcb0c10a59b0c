/** Where a pass past the gate sends the bot, told from what the bot saw, what it drew, and what it remembered. */
module TacticalHeadings {
  import opened Wrappers
  import opened SeatRosters
  import opened Commands
  import opened PlaneArithmetic
  import opened Observations
  import opened TacticalCandidates
  import opened TacticalObjectives
  import opened TacticalSelection
  import opened TacticalSteering
  import opened ArrivalBrakes
  import opened TacticalDecisions
  import opened TacticalInvariants
  import opened TacticalRuns

  // ---------------------------------------------------------------- one direction

  /** A full thrust that makes ground toward a point this far off, and sideways to it by this share of the
      ground it makes: to the left of the way there when the share is positive. */
  predicate HeadsFor(thrust: Vector2, off: Vector2, aside: real) {
    var forward, left := off.x * thrust.x + off.y * thrust.y, off.x * thrust.y - off.y * thrust.x;
    thrust.x * thrust.x + thrust.y * thrust.y == 1.0 && forward > 0.0 && left == aside * forward
  }

  lemma SteerHeadsFor(g: Geometry, delta: Vector2, error: real)
    requires IsSquareRoot(g.root) && delta != ZERO_VECTOR
    ensures HeadsFor(Steer(g, delta, error), delta, error)
  {
    hide Square, SquaredMagnitude, Magnitude, Rotated, Scaled;
    SteeringIsUnitAndMakesProgress(g, delta, error);
    RotationOfUnit(g, delta, error);
    var m := Magnitude(g, delta);
    var u := Scaled(delta, m);
    var r := Rotated(u, error);
    MagnitudeIsPositive(g, r);
    UnitOfScaled(r, Magnitude(g, r));
    UnitComponentsAreBounded(Scaled(r, Magnitude(g, r)));
    InComponents(Steer(g, delta, error));
    LeansAside(delta, m, error, Magnitude(g, r));
  }

  lemma UnitOfScaled(v: Vector2, d: real)
    requires d > 0.0 && Square(d) == SquaredMagnitude(v)
    ensures IsUnit(Scaled(v, d))
  {
    UnitOfOffset(v, d);
  }

  lemma LeansAside(delta: Vector2, m: real, error: real, n: real)
    requires m > 0.0 && n > 0.0
    ensures var h := Scaled(Rotated(Scaled(delta, m), error), n);
      delta.x * h.y - delta.y * h.x == error * (delta.x * h.x + delta.y * h.y)
  {
    var x, y := delta.x / m, delta.y / m;
    var p, q := (x - error * y) / n, (y + error * x) / n;
    assert delta.x == x * m && delta.y == y * m;
    assert p * n == x - error * y && q * n == y + error * x;
    Leaning(x, y, m, p, q, n, error);
  }

  lemma Leaning(x: real, y: real, m: real, p: real, q: real, n: real, e: real)
    requires n > 0.0 && p * n == x - e * y && q * n == y + e * x
    ensures (x * m) * q - (y * m) * p == e * ((x * m) * p + (y * m) * q)
  {
    var left, right := (x * m) * q - (y * m) * p, e * ((x * m) * p + (y * m) * q);
    assert left * n == m * (x * (q * n) - y * (p * n));
    assert right * n == e * (m * (x * (p * n) + y * (q * n)));
    assert x * (y + e * x) - y * (x - e * y) == e * (x * x + y * y);
    assert x * (x - e * y) + y * (y + e * x) == x * x + y * y;
    CancelFactor(left, right, n);
  }

  // ---------------------------------------------------------------- through the pass

  /** The generator a pass draws from: the one remembered, or the seed of a match not met before. */
  function DrawsFrom(bot: Bot, s: State, started: Tick): Random
    requires SeedIsDrawn(s)
  {
    if s.seededRunningTick == Some(started) then s.random.value else Random(bot.seedFor(started), 0)
  }

  /** A draw from zero to one as an aim error, evenly to either side. */
  function DrawnAside(bot: Bot, aim: real): real {
    (2.0 * aim - 1.0) * bot.profile.aimError
  }

  /** The ticks a brake reckons its thrust will be held: the reaction delay or the time since the last completed
      pass, whichever is longer. */
  predicate IsEstimate(h: nat, reactionDelay: nat, now: Tick, previous: Option<Tick>) {
    var spacing := if previous.Some? then now - previous.value else 1;
    (h == reactionDelay || h == spacing) && reactionDelay <= h && spacing <= h
  }

  /** What one pass past the gate does with a target: short of it, one draw decides whether to seek and the next
      how far off to aim; at it, the brake. */
  ghost predicate MovesOn(bot: Bot, o: Observation, at: PhysicsBody, c: Candidate, r: Random, previous: Option<Tick>,
                          thrust: Vector2, after: Random)
  {
    var off := Vector2(c.target.x - at.position.x, c.target.y - at.position.y);
    var reached := off.x * off.x + off.y * off.y <= c.arrivalRadius * c.arrivalRadius;
    var choice, aim := bot.draw(r.seed, r.drawCount), bot.draw(r.seed, r.drawCount + 1);
    if reached then
      && after == r
      && exists h :: h >= 1 && IsEstimate(h, bot.profile.reactionDelayTicks, o.snapshot.tick, previous) &&
           thrust == ArrivalBrake(o, at, c, bot.profile.arrivalBrakeFraction, h)
    else if choice < bot.profile.seekProbability then
      && after == Random(r.seed, r.drawCount + 2)
      && HeadsFor(thrust, off, DrawnAside(bot, aim))
    else after == Random(r.seed, r.drawCount + 1) && thrust == ZERO_VECTOR
  }

  lemma ReachedMeans(body: PhysicsBody, c: Candidate)
    requires MeasuredFrom(body, c)
    ensures var off := Offset(body.position, c.target);
      HasArrived(c) <==> off.x * off.x + off.y * off.y <= c.arrivalRadius * c.arrivalRadius
  {
    hide SquaredMagnitude, Square;
    InComponents(Offset(body.position, c.target));
    SquareIsProduct(c.arrivalRadius);
  }

  lemma DrawnHeading(bot: Bot, g: Geometry, from: Vector2, target: Vector2, aim: real)
    requires IsSquareRoot(g.root) && Offset(from, target) != ZERO_VECTOR
    ensures HeadsFor(Steer(g, Offset(from, target), AimError(bot, aim)), Vector2(target.x - from.x, target.y - from.y),
                     DrawnAside(bot, aim))
  {
    hide Steer, IsSquareRoot;
    SteerHeadsFor(g, Offset(from, target), AimError(bot, aim));
    assert (aim * 2.0) - 1.0 == 2.0 * aim - 1.0;
  }

  lemma MovedMovesOn(bot: Bot, o: Observation, body: PhysicsBody, s: State, c: Candidate)
    requires IsSquareRoot(o.geometry.root) && s.random.Some? && MeasuredFrom(body, c) && IsFresh(s, o.snapshot.tick)
    ensures var m := Moved(bot, o, body, s, c);
      && m.state.random.Some? && m.state.lease == s.lease
      && MovesOn(bot, o, body, c, s.random.value, s.lastCompletedTick, m.direction, m.state.random.value)
  {
    hide HasArrived, Steer, ArrivalBrake, MeasuredFrom, HeadsFor, IsSquareRoot, AimError, DrawnAside;
    ReachedMeans(body, c);
    var r := s.random.value;
    if HasArrived(c) {
      var h := CommandHoldTicks(bot.profile.reactionDelayTicks, o.snapshot.tick, s.lastCompletedTick);
      assert IsEstimate(h, bot.profile.reactionDelayTicks, o.snapshot.tick, s.lastCompletedTick);
    } else if bot.draw(r.seed, r.drawCount) < bot.profile.seekProbability {
      NotArrivedIsElsewhere(body, c);
      DrawnHeading(bot, o.geometry, body.position, c.target, bot.draw(r.seed, r.drawCount + 1));
    }
  }

  /** What a pass past the gate holds afterwards and what it sends: the thrust it moves by, then the ability. */
  ghost predicate Moves(bot: Bot, o: Observation, body: PhysicsBody, r: Random, previous: Option<Tick>, pass: Pass)
    requires IsSquareRoot(o.geometry.root) && o.Entity().Some?
  {
    var n := pass.state;
    && n.lease.Some? && n.heldDirection.Some? && n.random.Some?
    && MovesOn(bot, o, body, n.lease.value.candidate, r, previous, n.heldDirection.value, n.random.value)
    && var ability := RequestAbility(bot, o, body, n.lease.value.candidate);
       && ability.Success?
       && pass.commands == RequestThrust(o, bot.controller, n.heldDirection.value) + ability.value.commands
  }

  lemma CarryMovesOn(bot: Bot, o: Observation, body: PhysicsBody, s: State)
    requires ValidObservation(o) && o.Entity().Some? && s.lease.Some? && s.random.Some?
    requires MeasuredFrom(body, s.lease.value.candidate) && IsFresh(s, o.snapshot.tick)
    requires Carry(bot, o, body, s).Success?
    ensures Carry(bot, o, body, s).value.state.lease == s.lease
    ensures Moves(bot, o, body, s.random.value, s.lastCompletedTick, Carry(bot, o, body, s).value)
  {
    hide RequestAbility, Moved, MovesOn, ValidStore, RequestThrust, MeasuredFrom, IsFresh;
    MovedMovesOn(bot, o, body, s, s.lease.value.candidate);
  }

  lemma ActMoves(bot: Bot, o: Observation, body: PhysicsBody, s: State, candidates: seq<Candidate>)
    requires ValidObservation(o) && ValidBot(bot) && o.Entity().Some? && candidates != []
    requires AllMeasured(body, candidates)
    requires s.random.Some? && IsFresh(s, o.snapshot.tick) && (s.lease.Some? ==> s.lease.value.candidate in candidates)
    requires Act(bot, o, body, s, candidates).Success?
    ensures Moves(bot, o, body, s.random.value, s.lastCompletedTick, Act(bot, o, body, s, candidates).value)
  {
    hide Carry, SelectFrom, MovesOn, ValidStore, AllMeasured;
    SelectionIsMaximal(candidates, bot.profile.policy, HeldKey(s));
    var chosen :=
      Chosen(bot, s.(reaction := Some(Rearm(bot, o.snapshot.tick).value)), candidates, o.snapshot.tick).value;
    assert chosen.lease.value.candidate in candidates;
    AMeasuredCandidate(body, candidates, chosen.lease.value.candidate);
    CarryMovesOn(bot, o, body, chosen);
  }

  lemma PursuitMoves(bot: Bot, o: Observation, body: PhysicsBody, s: State, objectives: Objectives, cancelled: bool)
    requires ValidObservation(o) && ValidBot(bot) && o.Entity().Some? && AllMeasured(body, objectives.candidates)
    requires s.random.Some? && s.reaction.Some? && IsFresh(s, o.snapshot.tick)
    requires Pursue(bot, o, body, s, objectives, cancelled).Success?
    requires Acted(Pursue(bot, o, body, s, objectives, cancelled).value.state.reason)
    ensures Moves(bot, o, body, s.random.value, s.lastCompletedTick,
                  Pursue(bot, o, body, s, objectives, cancelled).value)
  {
    hide Act, Refreshed, AllMeasured, ValidBot, Commandable, Moves, ValidStore;
    if objectives.disposition.Ready? {
      RefreshedIsKept(bot, s, objectives.candidates, o.snapshot.tick);
      var kept := Refreshed(bot, s, objectives.candidates, o.snapshot.tick).value;
      if objectives.candidates != [] && kept.reaction.value.Expired(o.snapshot.tick) {
        ActMoves(bot, o, body, kept, objectives.candidates);
      }
    }
  }

  lemma PrimedDraws(bot: Bot, o: Observation, s: State, identity: BodyIdentity)
    requires SeedIsDrawn(s) && Primed(bot, o, s, identity).Success?
    ensures var p := Primed(bot, o, s, identity).value;
      && p.random == Some(DrawsFrom(bot, s, o.snapshot.runningStarted)) && p.lastCompletedTick == s.lastCompletedTick
      && p.reaction.Some?
  {
  }

  lemma EligibleMoves(bot: Bot, o: Observation, s: State, body: PhysicsBody, identity: BodyIdentity)
    requires ValidObservation(o) && ValidBot(bot) && o.Entity().Some? && IsFresh(s, o.snapshot.tick) && SeedIsDrawn(s)
    requires DecideEligible(bot, o, s, body, identity).Success?
    requires Acted(DecideEligible(bot, o, s, body, identity).value.state.reason)
    ensures Moves(bot, o, body, DrawsFrom(bot, s, o.snapshot.runningStarted), s.lastCompletedTick,
                  DecideEligible(bot, o, s, body, identity).value)
  {
    hide Collected, Pursue, ValidStore, AllMeasured, ArenaDiagonal, ValidPolicy, Moves, IsSquareRoot;
    var objectives := Collected(o, body, bot.profile.policy).value;
    CollectedIsMeasured(o, body, bot.profile.policy);
    PrimedDraws(bot, o, s, identity);
    var primed := Primed(bot, o, s, identity).value;
    PursuitMoves(bot, o, body, primed.(work := objectives.work), objectives,
                 s.heldDirection.Some? && IsNew(s, identity, o.snapshot.runningStarted));
  }

  /** Where an acting pass goes. Short of its leased target, the first draw of the generator decides whether it
      seeks; if so the thrust it leaves in force is a full one toward the target, aside from it by the second
      draw's aim error, to the left of the way there for a draw above a half; if not it coasts. At its target
      it draws nothing and brakes. */
  lemma ActingPassHeadsForItsTarget(bot: Bot, b: Brain, o: Observation)
    requires ValidObservation(o) && ValidBot(bot) && Coherent(bot, b.tactical) && Acts(bot, b, o)
    ensures StandingOf(o).Eligible?
    ensures var n := Step(bot, b, o);
      Moves(bot, o, StandingOf(o).body, DrawsFrom(bot, b.tactical, o.snapshot.runningStarted),
            b.tactical.lastCompletedTick, Pass(n.brain.tactical, n.result.value))
  {
    hide DecideEligible, ValidObservation, ValidBot, MovesOn, Commandable, StandingOf, ClearFor, RequestThrust,
      RequestAbility;
    StepIsAtomic(bot, b, o);
    DecideIsContinued(bot, o, b.tactical);
    NoSpawnWithABody(bot, b, o);
    match StandingOf(o)
    case Eligible(body, identity) =>
      EligibleMoves(bot, o, b.tactical, body, identity);
      var pass := DecideEligible(bot, o, b.tactical, body, identity).value;
      assert [] + pass.commands == pass.commands;
    case _ =>
  }
}
