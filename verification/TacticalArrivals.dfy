/** A bot braking on a hill over a whole run: the holds its decisions make, chained through the body they
    act on. */
module TacticalArrivals {
  import opened Wrappers
  import opened SeatRosters
  import opened Commands
  import opened PlaneArithmetic
  import opened Observations
  import opened TacticalCandidates
  import opened TacticalObjectives
  import opened TacticalSelection
  import opened TacticalSteering
  import opened ArrivalBrakes
  import opened TacticalDecisions
  import opened TacticalInvariants
  import opened TacticalRuns

  // ---------------------------------------------------------------- the thrust of a pass that has arrived

  /** On its target, a pass past the gate thrusts by the brake, computed for the time since this tick was
      last completed. */
  ghost predicate BrakesOnArrival(bot: Bot, o: Observation, body: PhysicsBody, last: Option<Tick>, n: State)
    requires last.Some? ==> last.value < o.snapshot.tick
  {
    Acted(n.reason) && n.lease.Some? && HasArrived(n.lease.value.candidate) ==>
      var h := CommandHoldTicks(bot.profile.reactionDelayTicks, o.snapshot.tick, last);
      n.heldDirection == Some(ArrivalBrake(o, body, n.lease.value.candidate, bot.profile.arrivalBrakeFraction, h))
  }

  lemma CarryBrakes(bot: Bot, o: Observation, body: PhysicsBody, s: State)
    requires ValidObservation(o) && o.Entity().Some? && s.lease.Some? && s.random.Some?
    requires MeasuredFrom(body, s.lease.value.candidate) && IsFresh(s, o.snapshot.tick)
    requires Carry(bot, o, body, s).Success?
    ensures BrakesOnArrival(bot, o, body, s.lastCompletedTick, Carry(bot, o, body, s).value.state)
  {
    hide RequestAbility, Steer, ArrivalBrake, HasArrived, ValidStore, RequestThrust, MeasuredFrom, CommandHoldTicks;
  }

  lemma ActBrakes(bot: Bot, o: Observation, body: PhysicsBody, s: State, candidates: seq<Candidate>)
    requires ValidObservation(o) && ValidBot(bot) && o.Entity().Some? && candidates != []
    requires AllMeasured(body, candidates)
    requires s.random.Some? && IsFresh(s, o.snapshot.tick) && (s.lease.Some? ==> s.lease.value.candidate in candidates)
    requires Act(bot, o, body, s, candidates).Success?
    ensures BrakesOnArrival(bot, o, body, s.lastCompletedTick, Act(bot, o, body, s, candidates).value.state)
  {
    hide Carry, SelectFrom, ValidStore, AllMeasured, BrakesOnArrival;
    SelectionIsMaximal(candidates, bot.profile.policy, HeldKey(s));
    var chosen :=
      Chosen(bot, s.(reaction := Some(Rearm(bot, o.snapshot.tick).value)), candidates, o.snapshot.tick).value;
    assert chosen.lease.value.candidate in candidates;
    AMeasuredCandidate(body, candidates, chosen.lease.value.candidate);
    CarryBrakes(bot, o, body, chosen);
  }

  lemma PursuitBrakes(bot: Bot, o: Observation, body: PhysicsBody, s: State, objectives: Objectives, cancelled: bool)
    requires ValidObservation(o) && ValidBot(bot) && o.Entity().Some? && AllMeasured(body, objectives.candidates)
    requires s.random.Some? && s.reaction.Some? && IsFresh(s, o.snapshot.tick)
    requires Pursue(bot, o, body, s, objectives, cancelled).Success?
    ensures BrakesOnArrival(bot, o, body, s.lastCompletedTick,
                            Pursue(bot, o, body, s, objectives, cancelled).value.state)
  {
    hide Act, Refreshed, AllMeasured, ValidBot, RequestThrust, ValidStore, ArrivalBrake, HasArrived, CommandHoldTicks;
    if objectives.disposition.Ready? {
      RefreshedIsKept(bot, s, objectives.candidates, o.snapshot.tick);
      var kept := Refreshed(bot, s, objectives.candidates, o.snapshot.tick).value;
      if objectives.candidates != [] && kept.reaction.value.Expired(o.snapshot.tick) {
        ActBrakes(bot, o, body, kept, objectives.candidates);
      }
    }
  }

  lemma EligibleBrakes(bot: Bot, o: Observation, s: State, body: PhysicsBody, identity: BodyIdentity)
    requires ValidObservation(o) && ValidBot(bot) && o.Entity().Some? && IsFresh(s, o.snapshot.tick) && Coherent(bot, s)
    requires DecideEligible(bot, o, s, body, identity).Success?
    ensures BrakesOnArrival(bot, o, body, s.lastCompletedTick, DecideEligible(bot, o, s, body, identity).value.state)
  {
    hide Collected, Pursue, BrakesOnArrival, ValidStore, AllMeasured, ArenaDiagonal, ValidPolicy, IsSquareRoot;
    var objectives := Collected(o, body, bot.profile.policy).value;
    CollectedIsMeasured(o, body, bot.profile.policy);
    PrimedIsCoherent(bot, o, s, identity);
    var primed := Primed(bot, o, s, identity).value;
    PursuitBrakes(bot, o, body, primed.(work := objectives.work), objectives,
      s.heldDirection.Some? && IsNew(s, identity, o.snapshot.runningStarted));
  }

  /** An acting pass on its target leaves the brake in force. */
  lemma StepBrakes(bot: Bot, b: Brain, o: Observation)
    requires ValidObservation(o) && ValidBot(bot) && Coherent(bot, b.tactical) && Acts(bot, b, o)
    requires StandingOf(o).Eligible?
    ensures IsFresh(b.tactical, o.snapshot.tick)
    ensures BrakesOnArrival(bot, o, StandingOf(o).body, b.tactical.lastCompletedTick, Step(bot, b, o).brain.tactical)
  {
    hide DecideEligible, ValidStore, ValidPolicy, IsSquareRoot, StandingOf, ArrivalBrake, HasArrived, CommandHoldTicks,
      Coherent;
    NoSpawnWithABody(bot, b, o);
    EligibleBrakes(bot, o, b.tactical, StandingOf(o).body, StandingOf(o).identity);
  }

  // ---------------------------------------------------------------- a hold as the run makes it

  function VelocityAt(o: Observation): Vector2
    requires StandingOf(o).Eligible?
  {
    StandingOf(o).body.velocity
  }

  /** The target in hand is a hill that does not move, and the bot is on it. */
  ghost predicate HoldsStillHill(s: State) {
    s.lease.Some? &&
    var c := s.lease.value.candidate;
    c.key.kind == Hill && c.objectiveVelocity == ZERO_VECTOR && HasArrived(c)
  }

  /** Between these two observations the thrust in force and the drag alone moved the body. */
  ghost predicate OnlyThrustActed(o: Observation, later: Observation, thrust: Vector2, drag: real)
    requires IsSquareRoot(o.geometry.root)
  {
    && o.snapshot.tick <= later.snapshot.tick && StandingOf(o).Eligible? && StandingOf(later).Eligible?
    && VelocityAt(later) == VelocityAfter(o.geometry, o.snapshot.acceleration, VelocityAt(o), thrust, drag,
                                          later.snapshot.tick - o.snapshot.tick)
  }

  /** An acting pass one spacing after a completed one. */
  ghost predicate ActsInCadence(bot: Bot, brains: seq<Brain>, observations: seq<Observation>, i: nat, spacing: nat)
    requires IsRun(bot, brains, observations)
  {
    && 0 < i < |observations| && spacing >= 1
    && Completes(bot, brains[i - 1], observations[i - 1]) && Acts(bot, brains[i], observations[i])
    && observations[i].snapshot.tick == observations[i - 1].snapshot.tick + spacing
  }

  /** From one acting pass to the next the bot brakes on a stationary hill: an observation completed one
      spacing earlier, a spacing kept and nothing disturbing the target in between. */
  ghost predicate BrakesInCadence(bot: Bot, brains: seq<Brain>, observations: seq<Observation>, i: nat, k: nat,
                                  spacing: nat)
    requires IsRun(bot, brains, observations)
  {
    && i < k < |observations| && ActsInCadence(bot, brains, observations, i, spacing)
    && Acts(bot, brains[k], observations[k]) && Undisturbed(bot, brains, observations, i, k, spacing)
    && HoldsStillHill(brains[i + 1].tactical)
  }

  /** Such a stretch over which the thrust in force and the drag alone have moved the body. */
  ghost predicate BrakesThrough(bot: Bot, brains: seq<Brain>, observations: seq<Observation>, i: nat, k: nat,
                                spacing: nat, drag: real)
    requires IsRun(bot, brains, observations)
  {
    && BrakesInCadence(bot, brains, observations, i, k, spacing) && UnitInterval(drag)
    && OnlyThrustActed(observations[i], observations[k], InForce(brains[i + 1].tactical), drag)
  }

  /** One such hold of a run ends with no component faster than it began: the command it is measured by is
      the bot's own, and the ticks it lasts are the ones the bot's own gate makes it last. */
  lemma HoldOfARunNeverGainsSpeed(bot: Bot, brains: seq<Brain>, observations: seq<Observation>, i: nat, k: nat,
                                  spacing: nat, drag: real)
    requires IsRun(bot, brains, observations) && BrakesThrough(bot, brains, observations, i, k, spacing, drag)
    ensures NoFaster(VelocityAt(observations[k]).x, VelocityAt(observations[i]).x)
    ensures NoFaster(VelocityAt(observations[k]).y, VelocityAt(observations[i]).y)
  {
    hide ValidStore, ValidPolicy, IsSquareRoot, Step, Coherent, StandingOf, ArrivalBrake, VelocityAfter, HasArrived,
      Acts, Completes,
      CommandHoldTicks, ActualHold, NoFaster, Undisturbed;
    var o, b := observations[i], brains[i];
    CommandIsHeldForTheActualHold(bot, brains, observations, i, k, spacing);
    RunIsCoherent(bot, brains, observations, i - 1);
    RunIsCoherent(bot, brains, observations, i);
    StepIsAtomic(bot, brains[i - 1], observations[i - 1]);
    StepBrakes(bot, b, o);
    ActingRecords(bot, b, o);
    var p, c := bot.profile, brains[i + 1].tactical.lease.value.candidate;
    HoldNeverGainsSpeed(o, StandingOf(o).body, c, p.arrivalBrakeFraction, p.reactionDelayTicks,
                        observations[i - 1].snapshot.tick, drag, observations[k].snapshot.tick - o.snapshot.tick);
  }

  lemma ActingRecords(bot: Bot, b: Brain, o: Observation)
    requires ValidObservation(o) && ValidBot(bot) && SeedIsDrawn(b.tactical) && Acts(bot, b, o)
    ensures Acted(Step(bot, b, o).brain.tactical.reason)
  {
  }

  /** However many such holds a run strings together, the last ends with no component faster than the first
      began with. */
  lemma {:induction false} ArrivedRunNeverGainsSpeed(bot: Bot, brains: seq<Brain>, observations: seq<Observation>,
                                                     at: seq<nat>, spacings: seq<nat>, drags: seq<real>, m: nat, n: nat)
    requires IsRun(bot, brains, observations) && m < n < |at| && |spacings| == |drags| == |at| - 1
    requires forall j :: 0 <= j < |spacings| ==>
      BrakesThrough(bot, brains, observations, at[j], at[j + 1], spacings[j], drags[j])
    ensures at[m] < |observations| && StandingOf(observations[at[m]]).Eligible?
    ensures at[n] < |observations| && StandingOf(observations[at[n]]).Eligible?
    ensures NoFaster(VelocityAt(observations[at[n]]).x, VelocityAt(observations[at[m]]).x)
    ensures NoFaster(VelocityAt(observations[at[n]]).y, VelocityAt(observations[at[m]]).y)
    decreases n
  {
    hide IsRun, StandingOf, NoFaster, HoldsStillHill, Undisturbed, ActsInCadence, Acts, VelocityAfter, InForce;
    assert BrakesThrough(bot, brains, observations, at[n - 1], at[n], spacings[n - 1], drags[n - 1]);
    HoldOfARunNeverGainsSpeed(bot, brains, observations, at[n - 1], at[n], spacings[n - 1], drags[n - 1]);
    if m < n - 1 {
      ArrivedRunNeverGainsSpeed(bot, brains, observations, at, spacings, drags, m, n - 1);
      NoFasterChains(VelocityAt(observations[at[n]]), VelocityAt(observations[at[n - 1]]),
                     VelocityAt(observations[at[m]]));
    }
  }

  lemma NoFasterChains(a: Vector2, b: Vector2, c: Vector2)
    requires NoFaster(a.x, b.x) && NoFaster(b.x, c.x) && NoFaster(a.y, b.y) && NoFaster(b.y, c.y)
    ensures NoFaster(a.x, c.x) && NoFaster(a.y, c.y)
  {
  }

  // ---------------------------------------------------------------- with the speed limiter in place

  /** As above, the thrust going through the room's speed limiter. */
  ghost predicate OnlyLimitedThrustActed(o: Observation, later: Observation, thrust: Vector2,
                                         cut: (Vector2, Vector2) -> Vector2, drag: real)
    requires IsSquareRoot(o.geometry.root)
  {
    && o.snapshot.tick <= later.snapshot.tick && StandingOf(o).Eligible? && StandingOf(later).Eligible?
    && VelocityAt(later) == LimitedVelocityAfter(o, VelocityAt(o), thrust, cut, drag,
                                                 later.snapshot.tick - o.snapshot.tick)
  }

  ghost predicate DrivenThrough(bot: Bot, brains: seq<Brain>, observations: seq<Observation>, i: nat, k: nat,
                                spacing: nat, cut: (Vector2, Vector2) -> Vector2, drag: real)
    requires IsRun(bot, brains, observations)
  {
    && BrakesInCadence(bot, brains, observations, i, k, spacing) && UnitInterval(drag)
    && OnlyLimitedThrustActed(observations[i], observations[k], InForce(brains[i + 1].tactical), cut, drag)
  }

  /** At most half the room's ceiling. */
  ghost predicate IsSlow(v: Vector2, ceiling: real) {
    4.0 * SquaredMagnitude(v) <= Square(ceiling)
  }

  lemma SlowHoldIsUnlimited(bot: Bot, brains: seq<Brain>, observations: seq<Observation>, i: nat, k: nat,
                            spacing: nat, cut: (Vector2, Vector2) -> Vector2, drag: real)
    requires IsRun(bot, brains, observations)
    requires DrivenThrough(bot, brains, observations, i, k, spacing, cut, drag)
    requires IsSlow(VelocityAt(observations[i]), observations[i].snapshot.normalTopSpeed)
    ensures BrakesThrough(bot, brains, observations, i, k, spacing, drag)
  {
    hide ValidStore, ValidPolicy, IsSquareRoot, Step, Coherent, StandingOf, ArrivalBrake, VelocityAfter, HasArrived,
      Acts, Completes, CommandHoldTicks, ActualHold, Undisturbed, LimitedVelocityAfter, Square, SquaredMagnitude;
    var o, b := observations[i], brains[i];
    CommandIsHeldForTheActualHold(bot, brains, observations, i, k, spacing);
    RunIsCoherent(bot, brains, observations, i - 1);
    RunIsCoherent(bot, brains, observations, i);
    StepIsAtomic(bot, brains[i - 1], observations[i - 1]);
    StepBrakes(bot, b, o);
    ActingRecords(bot, b, o);
    var p, c := bot.profile, brains[i + 1].tactical.lease.value.candidate;
    LimiterStaysInactive(o, StandingOf(o).body, c, p.arrivalBrakeFraction, p.reactionDelayTicks,
                         observations[i - 1].snapshot.tick, cut, drag, observations[k].snapshot.tick - o.snapshot.tick);
  }

  lemma NoFasterIsSlow(after: Vector2, before: Vector2, ceiling: real)
    requires NoFaster(after.x, before.x) && NoFaster(after.y, before.y) && IsSlow(before, ceiling)
    ensures IsSlow(after, ceiling)
  {
    hide Square, SquaredMagnitude;
    InComponents(after);
    InComponents(before);
    SquareIsMonotone(after.x, before.x);
    SquareIsMonotone(after.y, before.y);
  }

  lemma SquareIsMonotone(a: real, b: real)
    requires NoFaster(a, b)
    ensures a * a <= b * b
  {
    ProductIsMonotone(Absolute(a), Absolute(a), Absolute(b), Absolute(b));
    assert Absolute(a) * Absolute(a) == a * a && Absolute(b) * Absolute(b) == b * b;
  }

  lemma SlowHoldNeverGainsSpeed(bot: Bot, brains: seq<Brain>, observations: seq<Observation>, i: nat, k: nat,
                                spacing: nat, cut: (Vector2, Vector2) -> Vector2, drag: real)
    requires IsRun(bot, brains, observations)
    requires DrivenThrough(bot, brains, observations, i, k, spacing, cut, drag)
    requires IsSlow(VelocityAt(observations[i]), observations[i].snapshot.normalTopSpeed)
    ensures NoFaster(VelocityAt(observations[k]).x, VelocityAt(observations[i]).x)
    ensures NoFaster(VelocityAt(observations[k]).y, VelocityAt(observations[i]).y)
    ensures IsSlow(VelocityAt(observations[k]), observations[i].snapshot.normalTopSpeed)
  {
    hide IsRun, StandingOf, NoFaster, IsSlow, OnlyThrustActed, LimitedVelocityAfter, Undisturbed, ActsInCadence, Acts;
    SlowHoldIsUnlimited(bot, brains, observations, i, k, spacing, cut, drag);
    HoldOfARunNeverGainsSpeed(bot, brains, observations, i, k, spacing, drag);
    NoFasterIsSlow(VelocityAt(observations[k]), VelocityAt(observations[i]), observations[i].snapshot.normalTopSpeed);
  }

  /** With the limiter in place and an unchanged ceiling, a bot that comes to its hill at no more than half
      of it never gains speed in either component over any number of such holds. */
  lemma {:induction false} SlowRunNeverGainsSpeed(bot: Bot, brains: seq<Brain>, observations: seq<Observation>,
                                                  at: seq<nat>, spacings: seq<nat>, cut: (Vector2, Vector2) -> Vector2,
                                                  drags: seq<real>, ceiling: real, m: nat, n: nat)
    requires IsRun(bot, brains, observations) && m < n < |at| && |spacings| == |drags| == |at| - 1
    requires forall j :: 0 <= j < |spacings| ==>
      DrivenThrough(bot, brains, observations, at[j], at[j + 1], spacings[j], cut, drags[j])
    requires forall j :: 0 <= j < |at| ==>
      && at[j] < |observations| && StandingOf(observations[at[j]]).Eligible?
      && observations[at[j]].snapshot.normalTopSpeed == ceiling
    requires IsSlow(VelocityAt(observations[at[m]]), ceiling)
    ensures NoFaster(VelocityAt(observations[at[n]]).x, VelocityAt(observations[at[m]]).x)
    ensures NoFaster(VelocityAt(observations[at[n]]).y, VelocityAt(observations[at[m]]).y)
    ensures IsSlow(VelocityAt(observations[at[n]]), ceiling)
    decreases n
  {
    hide IsRun, StandingOf, NoFaster, IsSlow, DrivenThrough, VelocityAt;
    if m < n - 1 { SlowRunNeverGainsSpeed(bot, brains, observations, at, spacings, cut, drags, ceiling, m, n - 1); }
    SlowHoldNeverGainsSpeed(bot, brains, observations, at[n - 1], at[n], spacings[n - 1], cut, drags[n - 1]);
    if m < n - 1 {
      NoFasterChains(VelocityAt(observations[at[n]]), VelocityAt(observations[at[n - 1]]),
                     VelocityAt(observations[at[m]]));
    }
  }
}
