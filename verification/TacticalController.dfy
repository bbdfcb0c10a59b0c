/** The tactical controller: one object a host asks for commands, committing its state only when a pass
    completes. */
module TacticalControllers {
  import opened Wrappers
  import opened SeatRosters
  import opened Commands
  import opened PlaneArithmetic
  import opened Observations
  import opened TacticalCandidates
  import opened TacticalObjectives
  import opened TacticalSelection
  import opened TacticalSteering
  import opened ArrivalBrakes
  import opened TacticalDecisions
  import opened TacticalInvariants

  lemma NothingBefore(none: seq<Command>)
    requires none == []
    ensures forall c: seq<Command> :: none + c == c
  {
  }

  class TacticalController {
    const bot: Bot
    var entity: Option<EntityId>
    var lastSpawnRequest: Option<Tick>
    var state: State

    ghost predicate Valid()
      reads this
    {
      ValidBot(bot) && Coherent(bot, state)
    }

    function Now(): Brain
      reads this
    {
      Brain(entity, lastSpawnRequest, state)
    }

    constructor (bot: Bot)
      requires ValidBot(bot)
      ensures Valid() && this.bot == bot && Now() == INITIAL_BRAIN
    {
      this.bot := bot;
      entity := None;
      lastSpawnRequest := None;
      state := INITIAL_STATE;
    }

    /** One pass, committed only when it completes. */
    method Decide(o: Observation) returns (r: Result<seq<Command>, TacticalError>)
      requires Valid() && ValidObservation(o)
      modifies this
      ensures Valid()
      ensures Outcome(Now(), r) == Step(bot, old(Now()), o)
    {
      if o.controller != bot.controller { return Failure(ObservationControllerMismatch); }
      if state.lastCompletedTick.Some? && o.snapshot.tick <= state.lastCompletedTick.value { return Success([]); }
      entity := o.Entity();
      if entity.Some? { lastSpawnRequest := None; }
      r := DecideFromObservation(o);
    }

    method DecideFromObservation(o: Observation) returns (r: Result<seq<Command>, TacticalError>)
      requires Valid() && ValidObservation(o) && IsFresh(state, o.snapshot.tick)
      modifies `state, `lastSpawnRequest
      ensures Valid()
      ensures o.Entity().Some? ==> lastSpawnRequest == old(lastSpawnRequest)
      ensures o.Entity().None? ==> lastSpawnRequest == SpawnMemory(old(lastSpawnRequest), o)
      ensures match DecideNext(bot, o, old(state))
        case Failure(e) => r == Failure(e) && state == old(state)
        case Success(pass) =>
          && state == pass.state.(lastCompletedTick := Some(o.snapshot.tick))
          && r == Success(SpawnRequests(bot, old(lastSpawnRequest), o) + pass.commands)
    {
      var next, outcome := DecideInto(o, state);
      DecideIsCoherent(bot, o, state);
      match outcome {
        case Failure(e) => r := Failure(e);
        case Success(commands) =>
          state := next.(lastCompletedTick := Some(o.snapshot.tick));
          r := Success(commands);
      }
    }

    method RequestBody(o: Observation) returns (commands: seq<Command>)
      requires o.Entity().None?
      modifies `lastSpawnRequest
      ensures commands == SpawnRequests(bot, old(lastSpawnRequest), o)
      ensures lastSpawnRequest == SpawnMemory(old(lastSpawnRequest), o)
    {
      if lastSpawnRequest.Some? && o.snapshot.tick < lastSpawnRequest.value + SPAWN_REQUEST_RETRY_TICKS { return []; }
      lastSpawnRequest := Some(o.snapshot.tick);
      commands := [Spawn(bot.controller)];
    }

    /** The branches that end a pass before there is anything to pursue. */
    method DecideInto(o: Observation, from: State) returns (next: State, outcome: Result<seq<Command>, TacticalError>)
      requires ValidBot(bot) && ValidObservation(o) && IsFresh(from, o.snapshot.tick) && SeedIsDrawn(from)
      modifies `lastSpawnRequest
      ensures o.Entity().Some? ==> lastSpawnRequest == old(lastSpawnRequest)
      ensures o.Entity().None? ==> lastSpawnRequest == SpawnMemory(old(lastSpawnRequest), o)
      ensures match DecideNext(bot, o, from)
        case Failure(e) => outcome == Failure(e)
        case Success(pass) =>
          next == pass.state && outcome == Success(SpawnRequests(bot, old(lastSpawnRequest), o) + pass.commands)
    {
      hide DecideEligible;
      next := from;
      var s := o.snapshot;
      if o.Entity().None? {
        next := ClearFor(next, AwaitingBody);
        next := next.(body := None, observedStun := false);
        var commands := RequestBody(o);
        assert commands + [] == commands;
        return next, Success(commands);
      }
      NothingBefore(SpawnRequests(bot, lastSpawnRequest, o));
      var self := o.Entity().value;
      var body, controllable := Find(s.bodies, self), Find(s.controllables, self);
      if body.None? || body.value.isStatic || controllable.None? {
        next := ClearFor(next, NoControllableBody);
        next := next.(body := None, observedStun := false);
        return next, Success([]);
      }
      if s.phase != Running {
        next := ClearFor(next, MatchNotRunning);
        next := next.(body := None, observedStun := false);
        return next, Success(RequestThrust(o, bot.controller, ZERO_VECTOR));
      }
      var observed := BodyIdentity(self, controllable.value.generation);
      var stun := Find(s.stuns, self);
      if stun.Some? && stun.value.Contains(s.tick) {
        next := ClearFor(next, Stunned);
        next := next.(body := Some(observed), observedStun := true);
        return next, Success([]);
      }
      next, outcome := DecideRunning(o, from, body.value, observed);
    }

    /** From a recognised body to its objectives. */
    method DecideRunning(o: Observation, from: State, body: PhysicsBody, observed: BodyIdentity)
      returns (next: State, outcome: Result<seq<Command>, TacticalError>)
      requires ValidBot(bot) && ValidObservation(o) && IsFresh(from, o.snapshot.tick) && SeedIsDrawn(from)
      requires o.Entity().Some?
      ensures match DecideEligible(bot, o, from, body, observed)
        case Failure(e) => outcome == Failure(e)
        case Success(pass) => next == pass.state && outcome == Success(pass.commands)
    {
      hide Collected, Pursue;
      next := from;
      var now, started := o.snapshot.tick, o.snapshot.runningStarted;
      if started > now { return next, Failure(RunningTickInvalid); }
      var cancelled := next.heldDirection.Some?;
      var newIdentity := next.seededRunningTick != Some(started);
      if newIdentity {
        next := ClearWork(next);
        next :=
          next.(body := None, random := Some(Random(bot.seedFor(started), 0)), seededRunningTick := Some(started));
      }
      var changed := next.body != Some(observed) || next.observedStun;
      next := next.(body := Some(observed), observedStun := false);
      if changed {
        next := ClearWork(next);
      } else if !newIdentity {
        cancelled := false;
      }
      if next.reaction.None? {
        var w := CreateWindow(now, bot.profile.reactionDelayTicks);
        if w.Failure? { return next, Failure(w.error); }
        next := next.(reaction := Some(w.value));
      }
      var objectives := CollectObjectives(o, body, bot.profile.policy);
      if objectives.Failure? { return next, Failure(objectives.error); }
      CollectedIsMeasured(o, body, bot.profile.policy);
      next := next.(work := objectives.value.work);
      next, outcome := DecidePursuit(o, next, body, objectives.value, cancelled);
    }

    /** Waiting, finished, or candidates to go by. */
    method DecidePursuit(o: Observation, from: State, body: PhysicsBody, objectives: Objectives, wasCancelled: bool)
      returns (next: State, outcome: Result<seq<Command>, TacticalError>)
      requires ValidBot(bot) && ValidObservation(o) && o.Entity().Some? && AllMeasured(body, objectives.candidates)
      requires from.random.Some? && from.reaction.Some? && IsFresh(from, o.snapshot.tick)
      ensures match Pursue(bot, o, body, from, objectives, wasCancelled)
        case Failure(e) => outcome == Failure(e)
        case Success(pass) => next == pass.state && outcome == Success(pass.commands)
    {
      hide Act, AllMeasured;
      next := from;
      var now, cancelled := o.snapshot.tick, wasCancelled;
      if objectives.disposition == Waiting {
        if next.lease.Some? {
          var w := CreateWindow(now, bot.profile.reactionDelayTicks);
          if w.Failure? { return next, Failure(w.error); }
          next := next.(reaction := Some(w.value));
        }
        next := next.(hold := if next.lease.Some? then Released else NoTarget, reason := ObjectivesWaiting,
                      lease := None, heldDirection := None);
        return next, Success(RequestThrust(o, bot.controller, ZERO_VECTOR));
      }
      if objectives.disposition == Finished {
        next :=
          next.(hold := if next.lease.Some? then Released else NoTarget, reason := ObjectivesFinished, lease := None,
                      heldDirection := Some(ZERO_VECTOR));
        return next, Success(RequestThrust(o, bot.controller, ZERO_VECTOR));
      }
      next := next.(hold := if next.lease.Some? then RetainedInLease else NoTarget);
      if next.lease.Some? {
        var found := FindKey(objectives.candidates, next.lease.value.candidate.key);
        if found.None? {
          var w := CreateWindow(now, bot.profile.reactionDelayTicks);
          if w.Failure? { return next, Failure(w.error); }
          next := next.(lease := None, heldDirection := None, reaction := Some(w.value), hold := Lost);
          cancelled := true;
        } else {
          next := next.(lease := Some(next.lease.value.(candidate := found.value)));
        }
      }
      if objectives.candidates == [] {
        next := next.(reason := NoScreenedCandidate, heldDirection := None);
        return next, Success(ZeroIf(cancelled, bot, o));
      }
      if !next.reaction.value.Expired(now) {
        next := next.(reason := AwaitingReaction);
        return next, Success(ZeroIf(cancelled, bot, o));
      }
      next, outcome := DecideAct(o, next, body, objectives.candidates);
    }

    /** Past the gate: windows before draws, then a target to carry out. */
    method DecideAct(o: Observation, from: State, body: PhysicsBody, candidates: seq<Candidate>)
      returns (next: State, outcome: Result<seq<Command>, TacticalError>)
      requires ValidBot(bot) && ValidObservation(o) && o.Entity().Some? && candidates != []
      requires AllMeasured(body, candidates)
      requires from.random.Some? && IsFresh(from, o.snapshot.tick)
      requires from.lease.Some? ==> from.lease.value.candidate in candidates
      ensures match Act(bot, o, body, from, candidates)
        case Failure(e) => outcome == Failure(e)
        case Success(pass) => next == pass.state && outcome == Success(pass.commands)
    {
      hide Carry, SelectFrom, MeasuredFrom;
      next := from;
      var now := o.snapshot.tick;
      var w := CreateWindow(now, bot.profile.reactionDelayTicks);
      if w.Failure? { return next, Failure(w.error); }
      next := next.(reaction := Some(w.value));
      if next.lease.None? || next.lease.value.window.Expired(now) {
        var held := HeldKey(next);
        SelectionIsMaximal(candidates, bot.profile.policy, held);
        var chosen := SelectCandidate(candidates, bot.profile.policy, held);
        var winner := candidates[chosen.value];
        next := next.(hold := HoldFor(held, winner.key));
        var lease := CreateWindow(now, bot.profile.targetPersistenceTicks);
        if lease.Failure? { return next, Failure(lease.error); }
        next := next.(lease := Some(Lease(winner, lease.value)));
      }
      next, outcome := DecideMovement(o, next, body);
    }

    /** The movement branch, its draws in order, and the one ability beside the thrust. */
    method DecideMovement(o: Observation, from: State, body: PhysicsBody)
      returns (next: State, outcome: Result<seq<Command>, TacticalError>)
      requires ValidObservation(o) && o.Entity().Some? && from.lease.Some? && from.random.Some?
      requires MeasuredFrom(body, from.lease.value.candidate) && IsFresh(from, o.snapshot.tick)
      ensures match Carry(bot, o, body, from)
        case Failure(e) => outcome == Failure(e)
        case Success(pass) => next == pass.state && outcome == Success(pass.commands)
    {
      hide RequestAbility, Steer, ArrivalBrake, SquaredMagnitude, Square, Commandable;
      next := from;
      var now, selected := o.snapshot.tick, next.lease.value.candidate;
      var direction := ZERO_VECTOR;
      if selected.squaredDistance > Square(selected.arrivalRadius) {
        var random := next.random.value;
        var choice := bot.draw(random.seed, random.drawCount);
        random := random.(drawCount := random.drawCount + 1);
        if choice < bot.profile.seekProbability {
          NotArrivedIsElsewhere(body, selected);
          var aim := bot.draw(random.seed, random.drawCount);
          random := random.(drawCount := random.drawCount + 1);
          direction := Steer(o.geometry, Offset(body.position, selected.target), AimError(bot, aim));
          next := next.(reason := if selected.escapeBlocked then PursuingUnderRisk else Pursuing);
        } else {
          next := next.(reason := SeekDeclined);
        }
        next := next.(random := Some(random));
      } else {
        next := next.(reason := Arrived);
        var h := CommandHoldTicks(bot.profile.reactionDelayTicks, now, next.lastCompletedTick);
        direction := ArrivalBrake(o, body, selected, bot.profile.arrivalBrakeFraction, h);
      }
      next := next.(heldDirection := Some(direction));
      var commands := RequestThrust(o, bot.controller, direction);
      var ability := DecideAbility(o, body, selected);
      if ability.Failure? { return next, Failure(ability.error); }
      if ability.value.reason.Some? { next := next.(reason := ability.value.reason.value); }
      outcome := Success(commands + ability.value.commands);
    }

    /** Shield before charge; a charge only when aligned, screened and off cooldown. */
    method DecideAbility(o: Observation, body: PhysicsBody, selected: Candidate)
      returns (r: Result<Ability, TacticalError>)
      requires ValidObservation(o) && o.Entity().Some?
      ensures r == RequestAbility(bot, o, body, selected)
    {
      hide OpponentCloses;
      var closing := FindClosingOpponent(o, body, bot.profile.policy);
      if closing {
        if ShieldRefused(o.snapshot, o.Entity().value, o.snapshot.tick) {
          return Success(Ability(Some(ShieldUnavailable), []));
        }
        return Success(Ability(Some(ShieldAnticipated), RequestShield(o, bot.controller)));
      }
      match ShoveOpponentBody(o.snapshot, selected) {
        case None => r := Success(Ability(None, []));
        case Some(opponent) => r := RequestBurst(bot, o, body, opponent);
      }
    }
  }
}
