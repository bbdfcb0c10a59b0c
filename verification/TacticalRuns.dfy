/** What holds over any run of observations put to one tactical bot. */
module TacticalRuns {
  import opened Wrappers
  import opened SeatRosters
  import opened Commands
  import opened PlaneArithmetic
  import opened Observations
  import opened TacticalCandidates
  import opened ShoveSetups
  import opened TacticalObjectives
  import opened TacticalSelection
  import opened TacticalSteering
  import opened ArrivalBrakes
  import opened TacticalDecisions
  import opened TacticalInvariants

  // ---------------------------------------------------------------- runs

  ghost predicate IsRun(bot: Bot, brains: seq<Brain>, observations: seq<Observation>) {
    && ValidBot(bot) && |brains| == |observations| + 1 && brains[0] == INITIAL_BRAIN
    && forall i :: 0 <= i < |observations| ==>
         && ValidObservation(observations[i]) && SeedIsDrawn(brains[i].tactical)
         && brains[i + 1] == Step(bot, brains[i], observations[i]).brain
  }

  /** This observation was accepted and its pass completed. */
  predicate Completes(bot: Bot, b: Brain, o: Observation)
    requires ValidObservation(o) && ValidBot(bot) && SeedIsDrawn(b.tactical)
  {
    o.controller == bot.controller && Accepts(b.tactical, o) && Step(bot, b, o).result.Success?
  }

  /** The pass got past the reaction gate. */
  predicate Acts(bot: Bot, b: Brain, o: Observation)
    requires ValidObservation(o) && ValidBot(bot) && SeedIsDrawn(b.tactical)
  {
    Completes(bot, b, o) && Acted(Step(bot, b, o).brain.tactical.reason)
  }

  /** The pass chose the target itself: acquired, kept by the bonus, or switched. */
  predicate Chooses(bot: Bot, b: Brain, o: Observation)
    requires ValidObservation(o) && ValidBot(bot) && SeedIsDrawn(b.tactical)
  {
    Completes(bot, b, o) && SetsLease(Step(bot, b, o).brain.tactical.hold)
  }

  predicate Switches(bot: Bot, b: Brain, o: Observation)
    requires ValidObservation(o) && ValidBot(bot) && SeedIsDrawn(b.tactical)
  {
    Completes(bot, b, o) && Step(bot, b, o).brain.tactical.hold == Switched
  }

  /** A pass that fails, is refused or is stale leaves the tactical state exactly as it was; one that
      completes advances it past everything completed before. */
  lemma StepIsAtomic(bot: Bot, b: Brain, o: Observation)
    requires ValidObservation(o) && ValidBot(bot) && Coherent(bot, b.tactical)
    ensures var n := Step(bot, b, o).brain.tactical;
      && Coherent(bot, n)
      && (!Completes(bot, b, o) ==> n == b.tactical)
      && (Completes(bot, b, o) ==> n.lastCompletedTick == Some(o.snapshot.tick) && IsFresh(b.tactical, o.snapshot.tick))
  {
    hide DecideNext, ValidObservation, ValidBot;
    if o.controller == bot.controller && Accepts(b.tactical, o) { DecideIsCoherent(bot, o, b.tactical); }
  }

  /** In every reachable state a lease, a reaction window, a generator and a body go together as the
      recorded hold says, so no absent part is ever read. */
  lemma {:induction false} RunIsCoherent(bot: Bot, brains: seq<Brain>, observations: seq<Observation>, k: nat)
    requires IsRun(bot, brains, observations) && k <= |observations|
    ensures Coherent(bot, brains[k].tactical)
  {
    hide ValidObservation, ValidBot, Step;
    if k > 0 {
      RunIsCoherent(bot, brains, observations, k - 1);
      StepIsAtomic(bot, brains[k - 1], observations[k - 1]);
    }
  }

  /** Whatever a bot is shown, there is a run of it: the machine never reaches a state it cannot step
      from, so asking a run for drawn seeds leaves no history out. */
  lemma {:induction false} EveryHistoryIsARun(bot: Bot, observations: seq<Observation>) returns (brains: seq<Brain>)
    requires ValidBot(bot) && forall o :: o in observations ==> ValidObservation(o)
    ensures IsRun(bot, brains, observations)
    decreases |observations|
  {
    hide ValidObservation, ValidBot, Step;
    brains := [INITIAL_BRAIN];
    if observations != [] {
      var n := |observations| - 1;
      var earlier := EveryHistoryIsARun(bot, observations[..n]);
      RunIsCoherent(bot, earlier, observations[..n], n);
      brains := earlier + [Step(bot, earlier[n], observations[n]).brain];
      forall i | 0 <= i < |observations|
        ensures ValidObservation(observations[i]) && SeedIsDrawn(brains[i].tactical)
        ensures brains[i + 1] == Step(bot, brains[i], observations[i]).brain
      {
        assert brains[i] == earlier[i];
        if i < n { assert observations[..n][i] == observations[i] && brains[i + 1] == earlier[i + 1]; }
      }
    }
  }

  /** A window ends where its duration takes it, unless that is past the last tick a number can name. */
  lemma WindowsEndWithinTheTicks(now: Tick, duration: nat)
    ensures CreateWindow(now, duration) ==
      if now + duration <= 9_007_199_254_740_991 then Success(TickWindow(now, now + duration))
      else Failure(WindowExpiryOverflow)
  {
  }

  /** An observation of somebody else's body, or of a match that starts in its future, is an error; an older one
      says nothing. */
  lemma StrangeObservationsAreRefused(bot: Bot, b: Brain, o: Observation)
    requires ValidObservation(o) && ValidBot(bot) && SeedIsDrawn(b.tactical)
    ensures var r := Step(bot, b, o).result;
      var newer := b.tactical.lastCompletedTick.Some? ==> b.tactical.lastCompletedTick.value < o.snapshot.tick;
      var early := o.snapshot.runningStarted > o.snapshot.tick;
      && (o.controller != bot.controller ==> r == Failure(ObservationControllerMismatch))
      && (o.controller == bot.controller && !newer ==> r == Success([]))
      && (o.controller == bot.controller && newer && StandingOf(o).Eligible? && early ==>
            r == Failure(RunningTickInvalid))
      && (r.Success? && newer && StandingOf(o).Eligible? ==> !early)
  {
    hide StandingOf, Collected, Pursue, Commandable;
  }

  // ---------------------------------------------------------------- the gate

  /** No reaction window in force ends before this tick. */
  predicate GateShutUntil(s: State, t: Tick) {
    s.reaction.Some? ==> s.reaction.value.expiry >= t
  }

  /** No lease in force ends before this tick. */
  predicate LeaseRunsUntil(s: State, t: Tick) {
    s.lease.Some? ==> s.lease.value.window.expiry >= t
  }

  /** One observation can only push the gate and the lease later, and a pass goes through either only
      once it is due. */
  lemma StepWaits(bot: Bot, b: Brain, o: Observation, gate: Tick, lease: Tick)
    requires ValidObservation(o) && ValidBot(bot) && Coherent(bot, b.tactical)
    requires GateShutUntil(b.tactical, gate) && LeaseRunsUntil(b.tactical, lease)
    requires Completes(bot, b, o) ==>
      && gate <= o.snapshot.tick + bot.profile.reactionDelayTicks
      && lease <= o.snapshot.tick + bot.profile.targetPersistenceTicks
    ensures var n := Step(bot, b, o).brain.tactical;
      && GateShutUntil(n, gate) && LeaseRunsUntil(n, lease)
      && (Acts(bot, b, o) ==>
            gate <= o.snapshot.tick
              && n.reaction == Some(TickWindow(o.snapshot.tick, o.snapshot.tick + bot.profile.reactionDelayTicks)))
      && (Chooses(bot, b, o) ==>
            n.lease.Some?
              && n.lease.value.window ==
                 TickWindow(o.snapshot.tick, o.snapshot.tick + bot.profile.targetPersistenceTicks))
      && (Switches(bot, b, o) ==> lease <= o.snapshot.tick)
  {
    hide DecideNext, ValidObservation, ValidBot, Primed;
    StepIsAtomic(bot, b, o);
    if Completes(bot, b, o) {
      DecideIsContinued(bot, o, b.tactical);
      match StandingOf(o)
      case Eligible(body, identity) => PrimedIsCoherent(bot, o, b.tactical, identity);
      case _ =>
    }
  }

  /** From an acting pass on, no gate opens within the reaction delay, and from a choosing pass on no
      lease ends within the persistence. */
  lemma {:induction false} RunWaits(bot: Bot, brains: seq<Brain>, observations: seq<Observation>, i: nat, k: nat)
    requires IsRun(bot, brains, observations) && i < k <= |observations| && Completes(bot, brains[i], observations[i])
    ensures brains[k].tactical.lastCompletedTick.Some?
    ensures brains[k].tactical.lastCompletedTick.value >= observations[i].snapshot.tick
    ensures Acts(bot, brains[i], observations[i]) ==>
      GateShutUntil(brains[k].tactical, observations[i].snapshot.tick + bot.profile.reactionDelayTicks)
    ensures Chooses(bot, brains[i], observations[i]) ==>
      LeaseRunsUntil(brains[k].tactical, observations[i].snapshot.tick + bot.profile.targetPersistenceTicks)
  {
    hide ValidObservation, ValidBot, Step, Coherent;
    var t := observations[i].snapshot.tick;
    var b, o := brains[k - 1], observations[k - 1];
    RunIsCoherent(bot, brains, observations, k - 1);
    StepIsAtomic(bot, b, o);
    if k - 1 == i {
      StepWaits(bot, b, o, 0, 0);
    } else {
      RunWaits(bot, brains, observations, i, k - 1);
      var gate := if Acts(bot, brains[i], observations[i]) then t + bot.profile.reactionDelayTicks else 0;
      var lease := if Chooses(bot, brains[i], observations[i]) then t + bot.profile.targetPersistenceTicks else 0;
      StepWaits(bot, b, o, gate, lease);
    }
  }

  /** Whatever happens in between, a new body, a stun, a new match, a lost target, two passes that clear
      the gate are a reaction delay apart. */
  lemma ActingPassesAreSpaced(bot: Bot, brains: seq<Brain>, observations: seq<Observation>, i: nat, j: nat)
    requires IsRun(bot, brains, observations) && i < j < |observations|
    requires Acts(bot, brains[i], observations[i]) && Acts(bot, brains[j], observations[j])
    ensures observations[j].snapshot.tick >= observations[i].snapshot.tick + bot.profile.reactionDelayTicks
    ensures observations[j].snapshot.tick > observations[i].snapshot.tick
  {
    hide ValidObservation, ValidBot, Step, Coherent;
    RunWaits(bot, brains, observations, i, j);
    RunIsCoherent(bot, brains, observations, j);
    StepIsAtomic(bot, brains[j], observations[j]);
    StepWaits(bot, brains[j], observations[j], observations[i].snapshot.tick + bot.profile.reactionDelayTicks, 0);
  }

  /** A switch of target comes at least a persistence after any earlier decision that set the lease. */
  lemma SwitchesAreSpaced(bot: Bot, brains: seq<Brain>, observations: seq<Observation>, i: nat, j: nat)
    requires IsRun(bot, brains, observations) && i < j < |observations|
    requires Chooses(bot, brains[i], observations[i]) && Switches(bot, brains[j], observations[j])
    ensures observations[j].snapshot.tick >= observations[i].snapshot.tick + bot.profile.targetPersistenceTicks
  {
    hide ValidObservation, ValidBot, Step, Coherent;
    RunWaits(bot, brains, observations, i, j);
    RunIsCoherent(bot, brains, observations, j);
    StepIsAtomic(bot, brains[j], observations[j]);
    StepWaits(bot, brains[j], observations[j], 0, observations[i].snapshot.tick + bot.profile.targetPersistenceTicks);
  }

  /** Until its lease is over a target is kept or lost, never exchanged. */
  lemma LeaseHoldsItsTarget(bot: Bot, b: Brain, o: Observation)
    requires ValidObservation(o) && ValidBot(bot) && Coherent(bot, b.tactical) && Completes(bot, b, o)
    requires b.tactical.lease.Some? && o.snapshot.tick < b.tactical.lease.value.window.expiry
    requires Step(bot, b, o).brain.tactical.lease.Some?
    ensures var before, after := b.tactical.lease.value, Step(bot, b, o).brain.tactical.lease.value;
      if Step(bot, b, o).brain.tactical.hold == RetainedInLease
      then after.window == before.window && after.candidate.key == before.candidate.key
      else Step(bot, b, o).brain.tactical.hold == Acquired
  {
    hide DecideNext, ValidObservation, ValidBot, Primed;
    DecideIsContinued(bot, o, b.tactical);
    match StandingOf(o)
    case Eligible(body, identity) => PrimedIsCoherent(bot, o, b.tactical, identity);
    case _ =>
  }

  /** The pass kept its target and waited at the gate. */
  predicate Awaits(bot: Bot, b: Brain, o: Observation)
    requires ValidObservation(o) && ValidBot(bot) && SeedIsDrawn(b.tactical)
  {
    && Completes(bot, b, o) && Step(bot, b, o).brain.tactical.reason == AwaitingReaction
    && Step(bot, b, o).brain.tactical.hold == RetainedInLease
  }

  lemma AwaitingKeepsTheGate(bot: Bot, b: Brain, o: Observation)
    requires ValidObservation(o) && ValidBot(bot) && Coherent(bot, b.tactical) && Awaits(bot, b, o)
    ensures var n := Step(bot, b, o).brain.tactical;
      n.reaction == b.tactical.reaction && n.reaction.Some? && o.snapshot.tick < n.reaction.value.expiry
  {
    hide DecideNext, ValidObservation, ValidBot, Primed;
    DecideIsContinued(bot, o, b.tactical);
    match StandingOf(o)
    case Eligible(body, identity) => PrimedIsCoherent(bot, o, b.tactical, identity);
    case _ =>
  }

  ghost predicate Undisturbed(bot: Bot, brains: seq<Brain>, observations: seq<Observation>, i: nat, k: nat,
                              spacing: nat)
    requires IsRun(bot, brains, observations) && i < k < |observations|
  {
    && (forall l :: i < l < k ==> Awaits(bot, brains[l], observations[l]))
    && (forall l :: i < l <= k ==> observations[l].snapshot.tick == observations[i].snapshot.tick + (l - i) * spacing)
  }

  /** The gate set by an acting pass is the one in force until the next. */
  lemma {:induction false} GateIsHeld(bot: Bot, brains: seq<Brain>, observations: seq<Observation>, i: nat, k: nat,
                                      l: nat, spacing: nat)
    requires IsRun(bot, brains, observations) && i < l <= k < |observations|
    requires Acts(bot, brains[i], observations[i]) && Undisturbed(bot, brains, observations, i, k, spacing)
    ensures var t := observations[i].snapshot.tick;
      brains[l].tactical.reaction == Some(TickWindow(t, t + bot.profile.reactionDelayTicks))
    decreases l
  {
    hide ValidObservation, ValidBot, Step, Coherent;
    RunIsCoherent(bot, brains, observations, l - 1);
    if l - 1 == i {
      StepWaits(bot, brains[i], observations[i], 0, 0);
    } else {
      GateIsHeld(bot, brains, observations, i, k, l - 1, spacing);
      AwaitingKeepsTheGate(bot, brains[l - 1], observations[l - 1]);
    }
  }

  /** With observations at a regular spacing and nothing disturbing the target, a command is replaced
      after exactly the hold the brake's envelope is proved for. */
  lemma CommandIsHeldForTheActualHold(bot: Bot, brains: seq<Brain>, observations: seq<Observation>, i: nat, k: nat,
                                      spacing: nat)
    requires IsRun(bot, brains, observations) && i < k < |observations| && spacing >= 1
    requires Acts(bot, brains[i], observations[i]) && Acts(bot, brains[k], observations[k])
    requires Undisturbed(bot, brains, observations, i, k, spacing)
    ensures observations[k].snapshot.tick - observations[i].snapshot.tick ==
      ActualHold(bot.profile.reactionDelayTicks, spacing)
  {
    hide ValidObservation, ValidBot, Step, Coherent, Acts, Completes;
    ActingPassesAreSpaced(bot, brains, observations, i, k);
    if k - i > 1 {
      RunIsCoherent(bot, brains, observations, k - 1);
      GateIsHeld(bot, brains, observations, i, k, k, spacing);
      AwaitingKeepsTheGate(bot, brains[k - 1], observations[k - 1]);
    }
    AwaitedIsUnique(bot.profile.reactionDelayTicks, spacing, k - i);
  }

  // ---------------------------------------------------------------- the commands of one pass

  lemma {:induction false} OwnGenerationIsPublished(s: Store<Controllable>, self: EntityId, controller: ControllerId)
    requires ValidStore(s) && exists x :: x in s && x.entity == self && x.value.controllerId == controller
    ensures Find(s, self).Some? && OwnGeneration(s, self, controller) == Some(Find(s, self).value.generation)
  {
    var x :| x in s && x.entity == self && x.value.controllerId == controller;
    if s[0].entity == self {
      FindIsUnique(s, x);
    } else {
      assert s == [s[0]] + s[1..];
      assert x in s[1..];
      OwnGenerationIsPublished(s[1..], self, controller);
    }
  }

  /** A running, unstunned, dynamic body of this controller's can always be commanded. */
  lemma EligibleIsCommandable(bot: Bot, o: Observation)
    requires ValidObservation(o) && o.controller == bot.controller && StandingOf(o).Eligible?
    ensures o.Entity() == Some(StandingOf(o).identity.entity)
    ensures Commandable(o, bot.controller) == Some(StandingOf(o).identity.generation)
  {
    var self := o.Entity().value;
    var x :| x in o.snapshot.controllables && x.entity == self && x.value.controllerId == o.controller;
    OwnGenerationIsPublished(o.snapshot.controllables, self, bot.controller);
    forall x | x in o.snapshot.stuns && x.entity == self ensures !x.value.Contains(o.snapshot.tick) {
      FindIsUnique(o.snapshot.stuns, x);
    }
  }

  predicate InUnitSquare(v: Vector2) {
    -1.0 <= v.x <= 1.0 && -1.0 <= v.y <= 1.0
  }

  lemma MoveStaysInUnitSquare(bot: Bot, o: Observation, body: PhysicsBody, s: State, c: Candidate)
    requires IsSquareRoot(o.geometry.root) && s.random.Some? && MeasuredFrom(body, c) && IsFresh(s, o.snapshot.tick)
    ensures InUnitSquare(Moved(bot, o, body, s, c).direction)
  {
    hide SquaredMagnitude, Square, Rotated, Demand, Divisor;
  }

  predicate IsAbility(c: Command, identity: BodyIdentity) {
    c == Command.Shield(identity.entity, identity.generation) ||
    (c.Charge? && c == Charge(identity.entity, c.direction, identity.generation) && InUnitSquare(c.direction))
  }

  /** One thrust, then at most one ability, all for the observed body under its published generation. */
  predicate ActingCommands(commands: seq<Command>, identity: BodyIdentity, direction: Vector2) {
    && 1 <= |commands| <= 2 && InUnitSquare(direction)
    && commands[0] == Thrust(identity.entity, direction, identity.generation)
    && (|commands| == 2 ==> IsAbility(commands[1], identity))
  }

  /** Nothing, or a zero thrust for the observed body. */
  predicate QuietCommands(commands: seq<Command>, identity: BodyIdentity) {
    commands == [] || commands == [Thrust(identity.entity, ZERO_VECTOR, identity.generation)]
  }

  /** The thrust the body has been told to keep, none meaning none. */
  function InForce(s: State): Vector2 {
    if s.heldDirection.Some? then s.heldDirection.value else ZERO_VECTOR
  }

  lemma AbilityIsOne(bot: Bot, o: Observation, body: PhysicsBody, c: Candidate, identity: BodyIdentity)
    requires IsSquareRoot(o.geometry.root) && o.Entity() == Some(identity.entity)
    requires Commandable(o, bot.controller) == Some(identity.generation)
    requires RequestAbility(bot, o, body, c).Success?
    ensures var commands := RequestAbility(bot, o, body, c).value.commands;
      |commands| <= 1 && forall x :: x in commands ==> IsAbility(x, identity)
  {
    hide OpponentCloses, ChargeAligned, ChargeScreened, Magnitude, Commandable, ShieldRefused, ChargeRefused;
  }

  /** What may be charged at: a shove target's published body somewhere else, with the bot's motion along
      the ray, ground up to the opponent, and its own cooldown and guard over. */
  ghost predicate MayCharge(bot: Bot, o: Observation, body: PhysicsBody, c: Candidate)
    requires IsSquareRoot(o.geometry.root) && o.Entity().Some?
  {
    ShoveOpponentBody(o.snapshot, c).Some? &&
    var opponent := ShoveOpponentBody(o.snapshot, c).value;
    && opponent.position != body.position && ChargeAligned(o, body, opponent)
    && ChargeScreened(o, body, opponent, bot.profile.policy) == Success(true)
    && !ChargeRefused(o.snapshot, o.Entity().value, o.snapshot.tick)
  }

  /** A shield answers an opponent closing to contact and nothing else; a charge is sent only when nobody
      closes and it may be, at full strength straight at the opponent and not at the standing point. */
  lemma AbilityIsJustified(bot: Bot, o: Observation, body: PhysicsBody, c: Candidate, identity: BodyIdentity)
    requires IsSquareRoot(o.geometry.root) && o.Entity() == Some(identity.entity)
    requires Commandable(o, bot.controller) == Some(identity.generation)
    requires RequestAbility(bot, o, body, c).Success?
    ensures var commands := RequestAbility(bot, o, body, c).value.commands;
      && (commands == [Command.Shield(identity.entity, identity.generation)] <==>
            OpponentCloses(o, body, bot.profile.policy) && !ShieldRefused(o.snapshot, identity.entity, o.snapshot.tick))
      && ((|commands| == 1 && commands[0].Charge?) <==>
            !OpponentCloses(o, body, bot.profile.policy) && MayCharge(bot, o, body, c))
      && (|commands| == 1 && commands[0].Charge? ==>
            && IsUnit(commands[0].direction)
            && var delta := Offset(body.position, ShoveOpponentBody(o.snapshot, c).value.position);
            Along(delta, commands[0].direction) == Magnitude(o.geometry, delta))
  {
    hide OpponentCloses, ChargeAligned, ChargeScreened, Magnitude, Commandable, ShieldRefused, ChargeRefused,
      SquaredMagnitude, Along;
    if !OpponentCloses(o, body, bot.profile.policy) && ShoveOpponentBody(o.snapshot, c).Some? {
      var opponent := ShoveOpponentBody(o.snapshot, c).value;
      var delta := Offset(body.position, opponent.position);
      MagnitudeIsPositive(o.geometry, delta);
      OffsetIsZeroOnlyThere(body.position, opponent.position);
      if delta != ZERO_VECTOR { HeadingIsExact(o.geometry, delta); }
    }
  }

  lemma HeadingIsExact(g: Geometry, delta: Vector2)
    requires IsSquareRoot(g.root) && delta != ZERO_VECTOR
    ensures var d := Magnitude(g, delta);
      d > 0.0 && IsUnit(Clamped(Scaled(delta, d))) && Along(delta, Clamped(Scaled(delta, d))) == d
  {
    hide Magnitude, SquaredMagnitude;
    MagnitudeIsPositive(g, delta);
    var d := Magnitude(g, delta);
    UnitOfOffset(delta, d);
    UnitComponentsAreBounded(Scaled(delta, d));
    InComponents(Scaled(delta, d));
    HeadingLength(delta.x, delta.y, delta.x / d, delta.y / d, d);
  }

  lemma HeadingLength(a: real, b: real, x: real, y: real, d: real)
    requires a == x * d && b == y * d && x * x + y * y == 1.0
    ensures a * x + b * y == d
  {
    assert a * x + b * y == (x * x + y * y) * d;
  }

  lemma ActCommands(bot: Bot, o: Observation, body: PhysicsBody, s: State, candidates: seq<Candidate>,
                    identity: BodyIdentity)
    requires ValidObservation(o) && ValidBot(bot) && candidates != [] && AllMeasured(body, candidates)
    requires s.random.Some? && IsFresh(s, o.snapshot.tick) && (s.lease.Some? ==> s.lease.value.candidate in candidates)
    requires o.Entity() == Some(identity.entity) && Commandable(o, bot.controller) == Some(identity.generation)
    requires Act(bot, o, body, s, candidates).Success?
    ensures var pass := Act(bot, o, body, s, candidates).value;
      ActingCommands(pass.commands, identity, InForce(pass.state))
  {
    hide RequestAbility, SquaredMagnitude, Square, SelectFrom, Moved, Commandable, IsAbility;
    SelectionIsMaximal(candidates, bot.profile.policy, HeldKey(s));
    var chosen :=
      Chosen(bot, s.(reaction := Some(Rearm(bot, o.snapshot.tick).value)), candidates, o.snapshot.tick).value;
    var c := chosen.lease.value.candidate;
    assert c in candidates;
    MoveStaysInUnitSquare(bot, o, body, chosen, c);
    AbilityIsOne(bot, o, body, c, identity);
  }

  /** The shape of a pursuing pass's commands, and that what is in force afterwards is what was sent. */
  ghost predicate WellCommanded(before: State, pass: Pass, identity: BodyIdentity) {
    && (Acted(pass.state.reason) ==> ActingCommands(pass.commands, identity, InForce(pass.state)))
    && (!Acted(pass.state.reason) ==> QuietCommands(pass.commands, identity))
    && (pass.commands != [] ==> pass.commands[0].direction == InForce(pass.state))
    && (pass.commands == [] ==> InForce(pass.state) == InForce(before))
  }

  lemma PursuitIsWellCommanded(bot: Bot, o: Observation, body: PhysicsBody, before: State, s: State,
                               objectives: Objectives, identity: BodyIdentity)
    requires ValidObservation(o) && ValidBot(bot) && AllMeasured(body, objectives.candidates)
    requires s.random.Some? && s.reaction.Some? && IsFresh(s, o.snapshot.tick)
    requires o.Entity() == Some(identity.entity) && Commandable(o, bot.controller) == Some(identity.generation)
    requires s.heldDirection == before.heldDirection || s.heldDirection.None?
    requires s.heldDirection.Some? && s.heldDirection.value != ZERO_VECTOR ==> s.lease.Some?
    ensures var cancelled := before.heldDirection.Some? && s.heldDirection.None?;
      var r := Pursue(bot, o, body, s, objectives, cancelled);
      r.Success? ==> WellCommanded(before, r.value, identity)
  {
    hide Act, Refreshed, AllMeasured, ValidObservation, ValidBot, Commandable, IsAbility, InUnitSquare;
    if objectives.disposition.Ready? && Refreshed(bot, s, objectives.candidates, o.snapshot.tick).Success? {
      RefreshedIsKept(bot, s, objectives.candidates, o.snapshot.tick);
      var kept := Refreshed(bot, s, objectives.candidates, o.snapshot.tick).value;
      if objectives.candidates != [] && kept.reaction.value.Expired(o.snapshot.tick)
         && Act(bot, o, body, kept, objectives.candidates).Success? {
        ActIsActedOn(bot, o, body, kept, objectives.candidates);
        ActCommands(bot, o, body, kept, objectives.candidates, identity);
      }
    }
  }

  lemma EligiblePassIsWellCommanded(bot: Bot, o: Observation, s: State, body: PhysicsBody, identity: BodyIdentity)
    requires ValidObservation(o) && ValidBot(bot) && IsFresh(s, o.snapshot.tick) && Coherent(bot, s)
    requires o.controller == bot.controller
    requires StandingOf(o) == Eligible(body, identity) && DecideEligible(bot, o, s, body, identity).Success?
    ensures WellCommanded(s, DecideEligible(bot, o, s, body, identity).value, identity)
  {
    hide Collected, Pursue, ValidObservation, WellCommanded, Commandable, AllMeasured, StandingOf, ArenaDiagonal;
    EligibleIsCommandable(bot, o);
    var primed := Primed(bot, o, s, identity).value;
    var objectives := Collected(o, body, bot.profile.policy).value;
    CollectedIsMeasured(o, body, bot.profile.policy);
    PursuitIsWellCommanded(bot, o, body, s, primed.(work := objectives.work), objectives, identity);
  }

  /** What one completed pass sends: past the gate exactly one thrust and at most one ability, each for the
      observed body under its published generation and within the unit square; before it at most a zero
      thrust; and off the field at most a zero thrust or one request for a body. */
  lemma PassCommands(bot: Bot, b: Brain, o: Observation)
    requires ValidObservation(o) && ValidBot(bot) && Coherent(bot, b.tactical) && Completes(bot, b, o)
    ensures var n := Step(bot, b, o);
      match StandingOf(o)
      case Eligible(body, identity) => WellCommanded(b.tactical, Pass(n.brain.tactical, n.result.value), identity)
      case Bodiless => n.result.value == SpawnRequests(bot, b.lastSpawnRequest, o)
      case NotRunning => n.result.value == RequestThrust(o, bot.controller, ZERO_VECTOR)
      case _ => n.result.value == []
  {
    hide DecideEligible, ValidObservation, ValidBot, Commandable, StandingOf, ActingCommands, QuietCommands;
    NoSpawnWithABody(bot, b, o);
    match StandingOf(o)
    case Eligible(body, identity) =>
      EligiblePassIsWellCommanded(bot, o, b.tactical, body, identity);
      var pass := DecideEligible(bot, o, b.tactical, body, identity).value;
      assert [] + pass.commands == pass.commands;
    case NotRunning =>
      assert [] + RequestThrust(o, bot.controller, ZERO_VECTOR) == RequestThrust(o, bot.controller, ZERO_VECTOR);
    case _ =>
  }

  lemma NoSpawnWithABody(bot: Bot, b: Brain, o: Observation)
    ensures StandingOf(o).Bodiless? <==> o.Entity().None?
    ensures !StandingOf(o).Bodiless? ==> SpawnRequests(bot, b.lastSpawnRequest, o) == []
  {
  }

  predicate SendsAbility(bot: Bot, b: Brain, o: Observation)
    requires ValidObservation(o) && ValidBot(bot) && SeedIsDrawn(b.tactical)
  {
    Completes(bot, b, o) && exists c :: c in Step(bot, b, o).result.value && (c.Shield? || c.Charge?)
  }

  /** Hence two ability commands are a reaction delay apart too, whatever resets come between them. */
  lemma AbilitiesAreSpaced(bot: Bot, brains: seq<Brain>, observations: seq<Observation>, i: nat, j: nat)
    requires IsRun(bot, brains, observations) && i < j < |observations|
    requires SendsAbility(bot, brains[i], observations[i]) && SendsAbility(bot, brains[j], observations[j])
    ensures observations[j].snapshot.tick >= observations[i].snapshot.tick + bot.profile.reactionDelayTicks
  {
    hide ValidObservation, ValidBot, Step, Coherent, SendsAbility, Acts, Completes;
    RunIsCoherent(bot, brains, observations, i);
    RunIsCoherent(bot, brains, observations, j);
    AbilityMeansActing(bot, brains[i], observations[i]);
    AbilityMeansActing(bot, brains[j], observations[j]);
    ActingPassesAreSpaced(bot, brains, observations, i, j);
  }

  lemma AbilityMeansActing(bot: Bot, b: Brain, o: Observation)
    requires ValidObservation(o) && ValidBot(bot) && Coherent(bot, b.tactical) && SendsAbility(bot, b, o)
    ensures Acts(bot, b, o)
  {
    hide ValidObservation, ValidBot, Step, StandingOf, Commandable;
    PassCommands(bot, b, o);
  }

  // ---------------------------------------------------------------- asking for a body

  predicate AsksForBody(bot: Bot, b: Brain, o: Observation)
    requires ValidObservation(o) && ValidBot(bot) && SeedIsDrawn(b.tactical)
  {
    Completes(bot, b, o) && Spawn(bot.controller) in Step(bot, b, o).result.value
  }

  lemma AskingRemembers(bot: Bot, b: Brain, o: Observation, t: Tick)
    requires ValidObservation(o) && ValidBot(bot) && Coherent(bot, b.tactical)
    ensures AsksForBody(bot, b, o) ==> Step(bot, b, o).brain.lastSpawnRequest == Some(o.snapshot.tick)
    ensures AsksForBody(bot, b, o) && b.lastSpawnRequest.Some? ==>
      o.snapshot.tick >= b.lastSpawnRequest.value + SPAWN_REQUEST_RETRY_TICKS
    ensures b.lastSpawnRequest.Some? && b.lastSpawnRequest.value >= t && (Heeds(bot, b, o) ==> o.Entity().None?) ==>
      Step(bot, b, o).brain.lastSpawnRequest.Some? && Step(bot, b, o).brain.lastSpawnRequest.value >= t
  {
    hide DecideNext, ValidObservation, ValidBot, StandingOf, Commandable;
    if AsksForBody(bot, b, o) { AskingMeansBodiless(bot, b, o); }
  }

  lemma AskingMeansBodiless(bot: Bot, b: Brain, o: Observation)
    requires ValidObservation(o) && ValidBot(bot) && Coherent(bot, b.tactical) && AsksForBody(bot, b, o)
    ensures o.Entity().None? && !SpawnIsInFlight(b.lastSpawnRequest, o.snapshot.tick)
  {
    hide ValidObservation, ValidBot, StandingOf, Commandable, Step;
    PassCommands(bot, b, o);
    NoSpawnWithABody(bot, b, o);
    match StandingOf(o)
    case Eligible(body, identity) =>
      var commands := Step(bot, b, o).result.value;
      forall c | c in commands ensures !c.Spawn? {
        var i :| 0 <= i < |commands| && commands[i] == c;
      }
    case _ =>
  }

  /** An observation this bot takes notice of: its own, and later than all it has completed. */
  predicate Heeds(bot: Bot, b: Brain, o: Observation) {
    o.controller == bot.controller && Accepts(b.tactical, o)
  }

  /** While no observation it heeds shows it a body, requests for one are a tenth of a second apart. */
  lemma {:induction false} SpawnRequestsAreSpaced(bot: Bot, brains: seq<Brain>, observations: seq<Observation>, i: nat,
                                                  j: nat)
    requires IsRun(bot, brains, observations) && i < j < |observations|
    requires AsksForBody(bot, brains[i], observations[i]) && AsksForBody(bot, brains[j], observations[j])
    requires forall k :: i < k < j && Heeds(bot, brains[k], observations[k]) ==> observations[k].Entity().None?
    ensures observations[j].snapshot.tick >= observations[i].snapshot.tick + 40
  {
    hide ValidObservation, ValidBot, Step, Coherent, AsksForBody, Heeds;
    RequestIsRemembered(bot, brains, observations, i, j);
    RunIsCoherent(bot, brains, observations, j);
    AskingRemembers(bot, brains[j], observations[j], 0);
  }

  /** A bot asks for a body on exactly the observations it heeds and finds itself bodiless in, unless it
      asked less than forty ticks before. */
  lemma AsksExactlyWhen(bot: Bot, b: Brain, o: Observation)
    requires ValidObservation(o) && ValidBot(bot) && Coherent(bot, b.tactical)
    ensures AsksForBody(bot, b, o) <==>
      Heeds(bot, b, o) && o.Entity().None? &&
      (b.lastSpawnRequest.Some? ==> o.snapshot.tick >= b.lastSpawnRequest.value + 40)
  {
    hide ValidObservation, ValidBot, Commandable;
    if AsksForBody(bot, b, o) { AskingMeansBodiless(bot, b, o); }
  }

  /** What the bot remembers of its body beside the decision: whatever the last observation it heeded showed, even
      one its pass then failed on, and its last request until it sees a body again. */
  lemma BodyIsRemembered(bot: Bot, b: Brain, o: Observation)
    requires ValidObservation(o) && ValidBot(bot) && Coherent(bot, b.tactical)
    ensures var n := Step(bot, b, o).brain;
      && n.entity == (if Heeds(bot, b, o) then o.Entity() else b.entity)
      && n.lastSpawnRequest == if Heeds(bot, b, o) && o.Entity().Some? then None
                               else if AsksForBody(bot, b, o) then Some(o.snapshot.tick) else b.lastSpawnRequest
  {
    hide ValidObservation, ValidBot, Commandable;
    AsksExactlyWhen(bot, b, o);
  }

  /** While a run shows the bot no body, the next request comes exactly when the last is forty ticks old. */
  lemma {:induction false} NextRequestIsMadeExactlyWhenDue(bot: Bot, brains: seq<Brain>, observations: seq<Observation>,
                                                           i: nat, j: nat)
    requires IsRun(bot, brains, observations) && i < j < |observations|
    requires AsksForBody(bot, brains[i], observations[i])
    requires forall k :: i < k < j ==> !AsksForBody(bot, brains[k], observations[k])
    requires forall k :: i < k <= j && Heeds(bot, brains[k], observations[k]) ==> observations[k].Entity().None?
    ensures AsksForBody(bot, brains[j], observations[j]) <==>
      Heeds(bot, brains[j], observations[j]) && observations[j].snapshot.tick >= observations[i].snapshot.tick + 40
  {
    hide ValidObservation, ValidBot, Step, Coherent, AsksForBody, Heeds;
    LastRequestIsRemembered(bot, brains, observations, i, j);
    RunIsCoherent(bot, brains, observations, j);
    AsksExactlyWhen(bot, brains[j], observations[j]);
  }

  lemma {:induction false} LastRequestIsRemembered(bot: Bot, brains: seq<Brain>, observations: seq<Observation>, i: nat,
                                                   k: nat)
    requires IsRun(bot, brains, observations) && i < k <= |observations|
    requires AsksForBody(bot, brains[i], observations[i])
    requires forall l :: i < l < k ==> !AsksForBody(bot, brains[l], observations[l])
    requires forall l :: i < l < k && Heeds(bot, brains[l], observations[l]) ==> observations[l].Entity().None?
    ensures brains[k].lastSpawnRequest == Some(observations[i].snapshot.tick)
  {
    hide ValidObservation, ValidBot, Step, Coherent, AsksForBody, Heeds;
    RunIsCoherent(bot, brains, observations, k - 1);
    if k - 1 > i {
      LastRequestIsRemembered(bot, brains, observations, i, k - 1);
    } else {
      AsksExactlyWhen(bot, brains[i], observations[i]);
    }
    BodyIsRemembered(bot, brains[k - 1], observations[k - 1]);
  }

  lemma {:induction false} RequestIsRemembered(bot: Bot, brains: seq<Brain>, observations: seq<Observation>, i: nat,
                                               k: nat)
    requires IsRun(bot, brains, observations) && i < k <= |observations|
    requires AsksForBody(bot, brains[i], observations[i])
    requires forall l :: i < l < k && Heeds(bot, brains[l], observations[l]) ==> observations[l].Entity().None?
    ensures brains[k].lastSpawnRequest.Some? && brains[k].lastSpawnRequest.value >= observations[i].snapshot.tick
  {
    hide ValidObservation, ValidBot, Step, Coherent, AsksForBody, Heeds;
    RunIsCoherent(bot, brains, observations, k - 1);
    if k - 1 > i { RequestIsRemembered(bot, brains, observations, i, k - 1); }
    AskingRemembers(bot, brains[k - 1], observations[k - 1], observations[i].snapshot.tick);
  }
}
