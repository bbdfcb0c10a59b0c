/** What every completed tactical pass keeps, phase by phase. */
module TacticalInvariants {
  import opened Wrappers
  import opened SeatRosters
  import opened Commands
  import opened PlaneArithmetic
  import opened Observations
  import opened TacticalCandidates
  import opened TacticalObjectives
  import opened TacticalSelection
  import opened TacticalSteering
  import opened ArrivalBrakes
  import opened TacticalDecisions

  predicate HoldsTarget(h: TargetHold) {
    h == Acquired || h == RetainedInLease || h == RetainedByBonus || h == Switched
  }

  /** The hold of a pass that set the lease itself. */
  predicate SetsLease(h: TargetHold) {
    h == Acquired || h == RetainedByBonus || h == Switched
  }

  /** The reasons only a pass that cleared the reaction gate records. */
  predicate Acted(r: Reason) {
    match r
    case Arrived | SeekDeclined | Pursuing | PursuingUnderRisk => true
    case ShieldAnticipated | ShieldUnavailable => true
    case ChargeMisaligned | ChargeGroundEndsFirst | ChargeUnavailable | ChargeCommitted => true
    case _ => false
  }

  /** A lease exists exactly when the recorded hold says so; with one come the reaction window, the
      generator and the body; and only a held target leaves a thrust standing. */
  ghost predicate Coherent(bot: Bot, s: State) {
    && SeedIsDrawn(s)
    && (s.lease.Some? <==> HoldsTarget(s.hold))
    && (s.lease.Some? ==> s.reaction.Some? && s.random.Some? && s.body.Some?)
    && (s.heldDirection.Some? && s.heldDirection.value != ZERO_VECTOR ==> s.lease.Some?)
    && (s.reaction.Some? ==> s.reaction.value.expiry == s.reaction.value.activation + bot.profile.reactionDelayTicks)
    && (s.lease.Some? ==>
          s.lease.value.window.expiry == s.lease.value.window.activation + bot.profile.targetPersistenceTicks)
  }

  // ---------------------------------------------------------------- one pass, phase by phase

  /** Between these two states only what a pass past the gate may change has changed. */
  ghost predicate ActedOn(bot: Bot, now: Tick, s: State, n: State) {
    var p := bot.profile;
    && n.lastCompletedTick == s.lastCompletedTick && n.seededRunningTick == s.seededRunningTick && n.body == s.body
    && n.observedStun == s.observedStun && n.work == s.work && s.random.Some? && n.random.Some?
    && n.random.value.seed == s.random.value.seed
    && s.random.value.drawCount <= n.random.value.drawCount <= s.random.value.drawCount + 2
    && n.reaction == Some(TickWindow(now, now + p.reactionDelayTicks)) && Acted(n.reason) && n.lease.Some?
    && n.heldDirection.Some?
    && if s.lease.Some? && !s.lease.value.window.Expired(now)
       then n.lease == s.lease && n.hold == s.hold
       else n.lease.value.window == TickWindow(now, now + p.targetPersistenceTicks)
            && n.hold == HoldFor(HeldKey(s), n.lease.value.candidate.key)
  }

  lemma ActIsActedOn(bot: Bot, o: Observation, body: PhysicsBody, s: State, candidates: seq<Candidate>)
    requires ValidObservation(o) && ValidBot(bot) && o.Entity().Some? && candidates != []
    requires AllMeasured(body, candidates)
    requires s.random.Some? && IsFresh(s, o.snapshot.tick) && (s.lease.Some? ==> s.lease.value.candidate in candidates)
    requires Act(bot, o, body, s, candidates).Success?
    ensures ActedOn(bot, o.snapshot.tick, s, Act(bot, o, body, s, candidates).value.state)
  {
    hide RequestAbility, SquaredMagnitude, Square, SelectFrom;
    SelectionIsMaximal(candidates, bot.profile.policy, HeldKey(s));
    var chosen :=
      Chosen(bot, s.(reaction := Some(Rearm(bot, o.snapshot.tick).value)), candidates, o.snapshot.tick).value;
    assert chosen.lease.value.candidate in candidates;
    AbilityActs(bot, o, body, chosen.lease.value.candidate);
    MoveOnlyMoves(bot, o, body, chosen, chosen.lease.value.candidate);
  }

  lemma AbilityActs(bot: Bot, o: Observation, body: PhysicsBody, c: Candidate)
    requires IsSquareRoot(o.geometry.root) && o.Entity().Some? && RequestAbility(bot, o, body, c).Success?
    ensures var a := RequestAbility(bot, o, body, c).value;
      && (a.reason.Some? ==> Acted(a.reason.value)) && |a.commands| <= 1
      && (a.commands != [] ==> a.commands[0].Shield? || a.commands[0].Charge?)
      && (forall x :: x in a.commands ==> Commandable(o, bot.controller).Some?)
  {
    hide OpponentCloses, ChargeAligned, ChargeScreened, Magnitude, Commandable;
  }

  lemma MoveOnlyMoves(bot: Bot, o: Observation, body: PhysicsBody, s: State, c: Candidate)
    requires IsSquareRoot(o.geometry.root) && s.random.Some? && MeasuredFrom(body, c) && IsFresh(s, o.snapshot.tick)
    ensures var m := Moved(bot, o, body, s, c).state;
      && m.random.Some? && m.random.value.seed == s.random.value.seed && Acted(m.reason)
      && s.random.value.drawCount <= m.random.value.drawCount <= s.random.value.drawCount + 2
      && m == s.(random := m.random, reason := m.reason)
  {
    hide SquaredMagnitude, Square, Steer, ArrivalBrake;
  }

  /** What a pass over a recognised body makes of its state. */
  ghost predicate Continued(bot: Bot, now: Tick, s: State, n: State) {
    var p := bot.profile;
    && n.lastCompletedTick == s.lastCompletedTick && n.seededRunningTick == s.seededRunningTick && n.body == s.body
    && s.random.Some? && n.random.Some? && s.reaction.Some? && n.reaction.Some?
    && (n.reaction == s.reaction || n.reaction == Some(TickWindow(now, now + p.reactionDelayTicks)))
    && (Acted(n.reason) ==> n.lease.Some? && n.reaction == Some(TickWindow(now, now + p.reactionDelayTicks)))
    && (Acted(n.reason) ==> s.reaction.value.Expired(now) || p.reactionDelayTicks == 0)
    && (n.reason == AwaitingReaction ==> !n.reaction.value.Expired(now))
    && (n.reason == AwaitingReaction && n.hold == RetainedInLease ==> n.reaction == s.reaction)
    && (n.lease.Some? <==> HoldsTarget(n.hold))
    && (n.lease.Some? ==>
          if n.hold == RetainedInLease
          then s.lease.Some? && n.lease.value.window == s.lease.value.window
            && n.lease.value.candidate.key == s.lease.value.candidate.key
          else n.lease.value.window == TickWindow(now, now + p.targetPersistenceTicks) && Acted(n.reason))
    && (n.hold == RetainedByBonus || n.hold == Switched ==>
          && s.lease.Some? && s.lease.value.window.Expired(now)
          && (n.hold == Switched <==> n.lease.value.candidate.key != s.lease.value.candidate.key))
    && (n.heldDirection.Some? && n.heldDirection.value != ZERO_VECTOR ==>
          n.lease.Some? && (Acted(n.reason) || n.heldDirection == s.heldDirection))
  }

  lemma RefreshedIsKept(bot: Bot, s: State, candidates: seq<Candidate>, now: Tick)
    requires s.reaction.Some? && Refreshed(bot, s, candidates, now).Success?
    ensures var n := Refreshed(bot, s, candidates, now).value;
      && n == s.(hold := n.hold, lease := n.lease, heldDirection := n.heldDirection, reaction := n.reaction)
      && (n.lease.Some? ==>
            && s.lease.Some? && n.hold == RetainedInLease && n.lease.value.candidate in candidates
            && n.lease.value.window == s.lease.value.window
            && n.lease.value.candidate.key == s.lease.value.candidate.key
            && n.heldDirection == s.heldDirection && n.reaction == s.reaction)
      && (n.lease.None? && s.lease.None? ==>
            n.hold == NoTarget && n.reaction == s.reaction && n.heldDirection == s.heldDirection)
      && (n.lease.None? && s.lease.Some? ==>
            n.hold == Lost && n.heldDirection.None?
              && n.reaction == Some(TickWindow(now, now + bot.profile.reactionDelayTicks)))
      && (candidates == [] ==> n.lease.None?)
  {
  }

  lemma ReadyIsContinued(bot: Bot, o: Observation, body: PhysicsBody, s: State, candidates: seq<Candidate>,
                         cancelled: bool)
    requires ValidObservation(o) && ValidBot(bot) && o.Entity().Some? && AllMeasured(body, candidates)
    requires s.random.Some? && s.reaction.Some? && IsFresh(s, o.snapshot.tick)
    requires s.heldDirection.Some? && s.heldDirection.value != ZERO_VECTOR ==> s.lease.Some?
    requires PursueReady(bot, o, body, s, candidates, cancelled).Success?
    ensures Continued(bot, o.snapshot.tick, s, PursueReady(bot, o, body, s, candidates, cancelled).value.state)
  {
    hide Act, Refreshed, AllMeasured, ValidObservation, ValidBot;
    var now := o.snapshot.tick;
    RefreshedIsKept(bot, s, candidates, now);
    var kept := Refreshed(bot, s, candidates, now).value;
    if candidates != [] && kept.reaction.value.Expired(now) {
      ActIsActedOn(bot, o, body, kept, candidates);
    }
  }

  lemma PursueIsContinued(bot: Bot, o: Observation, body: PhysicsBody, s: State, objectives: Objectives,
                          cancelled: bool)
    requires ValidObservation(o) && ValidBot(bot) && o.Entity().Some? && AllMeasured(body, objectives.candidates)
    requires s.random.Some? && s.reaction.Some? && IsFresh(s, o.snapshot.tick)
    requires s.heldDirection.Some? && s.heldDirection.value != ZERO_VECTOR ==> s.lease.Some?
    requires Pursue(bot, o, body, s, objectives, cancelled).Success?
    ensures Continued(bot, o.snapshot.tick, s, Pursue(bot, o, body, s, objectives, cancelled).value.state)
  {
    hide PursueReady, AllMeasured, ValidObservation, ValidBot, RequestThrust;
    if objectives.disposition.Ready? { ReadyIsContinued(bot, o, body, s, objectives.candidates, cancelled); }
  }

  // ---------------------------------------------------------------- one whole pass

  /** The state a pass over an eligible body starts pursuing from. */
  function Primed(bot: Bot, o: Observation, s: State, identity: BodyIdentity): Result<State, TacticalError> {
    Armed(bot, Recognised(bot, s, identity, o.snapshot.runningStarted), o.snapshot.tick)
  }

  ghost predicate EligiblePass(bot: Bot, o: Observation, s: State, identity: BodyIdentity, n: State) {
    && Primed(bot, o, s, identity).Success?
    && exists w :: Continued(bot, o.snapshot.tick, Primed(bot, o, s, identity).value.(work := w), n)
  }

  ghost predicate Idle(s: State, n: State) {
    && n.reaction.None? && n.lease.None? && n.heldDirection.None? && !HoldsTarget(n.hold) && !Acted(n.reason)
    && n.reason != AwaitingReaction && n.random == s.random && n.seededRunningTick == s.seededRunningTick
  }

  lemma EligibleIsContinued(bot: Bot, o: Observation, s: State, body: PhysicsBody, identity: BodyIdentity)
    requires ValidObservation(o) && ValidBot(bot) && o.Entity().Some? && IsFresh(s, o.snapshot.tick) && Coherent(bot, s)
    requires DecideEligible(bot, o, s, body, identity).Success?
    ensures EligiblePass(bot, o, s, identity, DecideEligible(bot, o, s, body, identity).value.state)
  {
    hide Collected, Pursue, Continued, ValidObservation, AllMeasured, ArenaDiagonal, ValidPolicy;
    var objectives := Collected(o, body, bot.profile.policy).value;
    CollectedIsMeasured(o, body, bot.profile.policy);
    var primed := Primed(bot, o, s, identity).value;
    PursueIsContinued(bot, o, body, primed.(work := objectives.work), objectives,
      s.heldDirection.Some? && IsNew(s, identity, o.snapshot.runningStarted));
  }

  lemma DecideIsContinued(bot: Bot, o: Observation, s: State)
    requires ValidObservation(o) && ValidBot(bot) && IsFresh(s, o.snapshot.tick) && Coherent(bot, s)
    requires DecideNext(bot, o, s).Success?
    ensures var n := DecideNext(bot, o, s).value.state;
      match StandingOf(o)
      case Eligible(body, identity) => EligiblePass(bot, o, s, identity, n)
      case _ => Idle(s, n)
  {
    hide DecideEligible, EligiblePass, Coherent, ValidObservation, ValidBot, Commandable;
    match StandingOf(o)
    case Eligible(body, identity) => EligibleIsContinued(bot, o, s, body, identity);
    case _ =>
  }

  lemma PrimedIsCoherent(bot: Bot, o: Observation, s: State, identity: BodyIdentity)
    requires Coherent(bot, s) && Primed(bot, o, s, identity).Success?
    ensures var p := Primed(bot, o, s, identity).value;
      && p.random.Some? && p.seededRunningTick.Some? && p.body.Some? && p.reaction.Some?
      && p.lastCompletedTick == s.lastCompletedTick
      && p.reaction.value.expiry == p.reaction.value.activation + bot.profile.reactionDelayTicks
      && (p.reaction == s.reaction || p.reaction.value.activation == o.snapshot.tick)
      && (p.lease.Some? ==> p.lease == s.lease && p.reaction == s.reaction)
      && (p.heldDirection.Some? ==> p.heldDirection == s.heldDirection && p.lease == s.lease)
  {
  }

  /** Every completed pass leaves a coherent state coherent. */
  lemma DecideIsCoherent(bot: Bot, o: Observation, s: State)
    requires ValidObservation(o) && ValidBot(bot) && IsFresh(s, o.snapshot.tick) && Coherent(bot, s)
    ensures DecideNext(bot, o, s).Success? ==> Coherent(bot, DecideNext(bot, o, s).value.state)
  {
    hide DecideNext, ValidObservation, ValidBot, Primed;
    if DecideNext(bot, o, s).Success? {
      DecideIsContinued(bot, o, s);
      match StandingOf(o)
      case Eligible(body, identity) => PrimedIsCoherent(bot, o, s, identity);
      case _ =>
    }
  }

  // ---------------------------------------------------------------- why a pass ended as it did

  ghost predicate IsOffered(candidates: seq<Candidate>, key: ObjectiveKey) {
    exists c :: c in candidates && c.key == key
  }

  /** The key a pass still holds: the leased one, while it is on offer. */
  ghost function StillHeld(p: State, candidates: seq<Candidate>): Option<ObjectiveKey> {
    if p.lease.Some? && IsOffered(candidates, p.lease.value.candidate.key) then HeldKey(p) else None
  }

  /** The reaction window is over; when the held target is gone a new one begins first. */
  ghost predicate GateIsOpen(bot: Bot, p: State, candidates: seq<Candidate>, now: Tick)
    requires p.reaction.Some?
  {
    if p.lease.Some? && StillHeld(p, candidates).None? then bot.profile.reactionDelayTicks == 0
    else p.reaction.value.expiry <= now
  }

  /** The candidate a pass acts on: the one held while its lease runs, or else the one selected. */
  ghost predicate IsTarget(bot: Bot, p: State, candidates: seq<Candidate>, now: Tick, c: Candidate)
    requires ValidBot(bot)
  {
    var held := StillHeld(p, candidates);
    && c in candidates
    && if held.Some? && now < p.lease.value.window.expiry then c.key == held.value
       else
         var best := SelectFrom(candidates, bot.profile.policy, held);
         best.Some? && c == candidates[best.value]
  }

  /** Somebody to charge: nobody closes, and the shove target's body is published somewhere else. */
  ghost predicate HasQuarry(bot: Bot, o: Observation, body: PhysicsBody, c: Candidate) {
    && !OpponentCloses(o, body, bot.profile.policy)
    && ShoveOpponentBody(o.snapshot, c).Some? && ShoveOpponentBody(o.snapshot, c).value.position != body.position
  }

  /** Every reason a pass past the gate can record, each exactly when it does: the shield's two when an
      opponent closes, the charge's four when there is a quarry, and otherwise how the bot moved. */
  ghost predicate ReasonOfAct(bot: Bot, o: Observation, body: PhysicsBody, r: Random, c: Candidate, reason: Reason)
    requires IsSquareRoot(o.geometry.root) && o.Entity().Some?
  {
    var self, now := o.Entity().value, o.snapshot.tick;
    var closes := OpponentCloses(o, body, bot.profile.policy);
    var quarry := HasQuarry(bot, o, body, c);
    var opponent := if quarry then ShoveOpponentBody(o.snapshot, c).value else body;
    var aligned := quarry && ChargeAligned(o, body, opponent);
    var grounded := aligned && ChargeScreened(o, body, opponent, bot.profile.policy) == Success(true);
    var moves := !closes && !quarry;
    var seeks := moves && !HasArrived(c) && bot.draw(r.seed, r.drawCount) < bot.profile.seekProbability;
    && (reason == ShieldUnavailable <==> closes && ShieldRefused(o.snapshot, self, now))
    && (reason == ShieldAnticipated <==> closes && !ShieldRefused(o.snapshot, self, now))
    && (reason == ChargeMisaligned <==> quarry && !aligned)
    && (reason == ChargeGroundEndsFirst <==> aligned && !grounded)
    && (reason == ChargeUnavailable <==> grounded && ChargeRefused(o.snapshot, self, now))
    && (reason == ChargeCommitted <==> grounded && !ChargeRefused(o.snapshot, self, now))
    && (reason == Arrived <==> moves && HasArrived(c))
    && (reason == SeekDeclined <==> moves && !HasArrived(c) && !seeks)
    && (reason == PursuingUnderRisk <==> seeks && c.escapeBlocked)
    && (reason == Pursuing <==> seeks && !c.escapeBlocked)
  }

  /** Every reason a pass over an eligible body can record, each exactly when it does. */
  ghost predicate ReasonFits(bot: Bot, o: Observation, body: PhysicsBody, p: State, objectives: Objectives, n: State)
    requires IsSquareRoot(o.geometry.root) && o.Entity().Some? && ValidBot(bot) && p.reaction.Some? && p.random.Some?
  {
    var now, candidates := o.snapshot.tick, objectives.candidates;
    var offered := objectives.disposition.Ready? && candidates != [];
    && n.work == objectives.work
    && n.reason !in {NotDecided, AwaitingBody, NoControllableBody, MatchNotRunning, Reason.Stunned}
    && (n.reason == ObjectivesWaiting <==> objectives.disposition.Waiting?)
    && (n.reason == ObjectivesFinished <==> objectives.disposition.Finished?)
    && (n.reason == NoScreenedCandidate <==> objectives.disposition.Ready? && candidates == [])
    && (n.reason == AwaitingReaction <==> offered && !GateIsOpen(bot, p, candidates, now))
    && (Acted(n.reason) <==> offered && GateIsOpen(bot, p, candidates, now))
    && (Acted(n.reason) ==>
          && n.lease.Some? && IsTarget(bot, p, candidates, now, n.lease.value.candidate)
          && ReasonOfAct(bot, o, body, p.random.value, n.lease.value.candidate, n.reason))
  }

  /** The reason a pass records names the branch it came out of, and no other branch records it: the four
      without an eligible body here, all the others in `ReasonFits`, from the state the pass starts
      pursuing from and the set it collected. */
  lemma ReasonNamesTheBranch(bot: Bot, o: Observation, s: State)
    requires ValidObservation(o) && ValidBot(bot) && IsFresh(s, o.snapshot.tick) && Coherent(bot, s)
    requires DecideNext(bot, o, s).Success?
    ensures var n := DecideNext(bot, o, s).value.state;
      && (n.reason == AwaitingBody <==> StandingOf(o).Bodiless?)
      && (n.reason == NoControllableBody <==> StandingOf(o).Uncontrollable?)
      && (n.reason == MatchNotRunning <==> StandingOf(o).NotRunning?)
      && (n.reason == Reason.Stunned <==> StandingOf(o).StunnedBody?)
      && (StandingOf(o).Eligible? ==>
            var body, primed := StandingOf(o).body, Primed(bot, o, s, StandingOf(o).identity);
            var collected := Collected(o, body, bot.profile.policy);
            && collected.Success? && primed.Success? && primed.value.reaction.Some? && primed.value.random.Some?
            && ReasonFits(bot, o, body, primed.value, collected.value, n))
  {
    hide DecideEligible, Collected, Commandable, ValidObservation, ValidBot, Coherent, Primed, ReasonOfAct, IsTarget,
      GateIsOpen;
    match StandingOf(o)
    case Eligible(body, identity) => EligibleReason(bot, o, s, body, identity);
    case _ =>
  }

  lemma EligibleReason(bot: Bot, o: Observation, s: State, body: PhysicsBody, identity: BodyIdentity)
    requires ValidObservation(o) && ValidBot(bot) && o.Entity().Some? && IsFresh(s, o.snapshot.tick) && Coherent(bot, s)
    requires DecideEligible(bot, o, s, body, identity).Success?
    ensures Collected(o, body, bot.profile.policy).Success?
    ensures var primed := Primed(bot, o, s, identity);
      && primed.Success? && primed.value.reaction.Some? && primed.value.random.Some?
      && ReasonFits(bot, o, body, primed.value, Collected(o, body, bot.profile.policy).value,
                    DecideEligible(bot, o, s, body, identity).value.state)
  {
    hide Collected, Pursue, ValidStore, AllMeasured, ArenaDiagonal, ValidPolicy, ReasonFits, IsSquareRoot;
    var objectives := Collected(o, body, bot.profile.policy).value;
    CollectedIsMeasured(o, body, bot.profile.policy);
    PrimedIsCoherent(bot, o, s, identity);
    var primed := Primed(bot, o, s, identity).value;
    var cancelled := s.heldDirection.Some? && IsNew(s, identity, o.snapshot.runningStarted);
    var working := primed.(work := objectives.work);
    PursuitReason(bot, o, body, working, objectives, cancelled);
    WorkIsNoReason(bot, o, body, primed, objectives, Pursue(bot, o, body, working, objectives, cancelled).value.state);
  }

  lemma WorkIsNoReason(bot: Bot, o: Observation, body: PhysicsBody, p: State, objectives: Objectives, n: State)
    requires IsSquareRoot(o.geometry.root) && o.Entity().Some? && ValidBot(bot) && p.reaction.Some? && p.random.Some?
    requires ReasonFits(bot, o, body, p.(work := objectives.work), objectives, n)
    ensures ReasonFits(bot, o, body, p, objectives, n)
  {
    hide ReasonOfAct, ValidPolicy, SelectFrom;
    assert StillHeld(p.(work := objectives.work), objectives.candidates) == StillHeld(p, objectives.candidates);
  }

  lemma PursuitReason(bot: Bot, o: Observation, body: PhysicsBody, s: State, objectives: Objectives, cancelled: bool)
    requires ValidObservation(o) && ValidBot(bot) && o.Entity().Some? && AllMeasured(body, objectives.candidates)
    requires s.random.Some? && s.reaction.Some? && IsFresh(s, o.snapshot.tick) && s.work == objectives.work
    requires Pursue(bot, o, body, s, objectives, cancelled).Success?
    ensures ReasonFits(bot, o, body, s, objectives, Pursue(bot, o, body, s, objectives, cancelled).value.state)
  {
    hide Act, Refreshed, AllMeasured, ValidBot, Commandable, StillHeld, IsTarget, ReasonOfAct, ValidStore;
    if objectives.disposition.Ready? {
      RefreshedIsKept(bot, s, objectives.candidates, o.snapshot.tick);
      RefreshedHolds(bot, s, objectives.candidates, o.snapshot.tick);
      var kept := Refreshed(bot, s, objectives.candidates, o.snapshot.tick).value;
      if objectives.candidates != [] && kept.reaction.value.Expired(o.snapshot.tick) {
        ActIsActedOn(bot, o, body, kept, objectives.candidates);
        ActReason(bot, o, body, s, kept, objectives.candidates);
      }
    }
  }

  /** The refreshed state holds exactly what is still held, and its gate is the gate of the pass. */
  lemma RefreshedHolds(bot: Bot, s: State, candidates: seq<Candidate>, now: Tick)
    requires s.reaction.Some? && Refreshed(bot, s, candidates, now).Success?
    ensures var n := Refreshed(bot, s, candidates, now).value;
      && HeldKey(n) == StillHeld(s, candidates)
      && n.reaction.Some? && (n.reaction.value.Expired(now) <==> GateIsOpen(bot, s, candidates, now))
      && (n.lease.Some? ==> n.lease.value.candidate in candidates && n.lease.value.window == s.lease.value.window)
  {
  }

  lemma ActReason(bot: Bot, o: Observation, body: PhysicsBody, p: State, s: State, candidates: seq<Candidate>)
    requires ValidObservation(o) && ValidBot(bot) && o.Entity().Some? && candidates != []
    requires AllMeasured(body, candidates)
    requires s.random.Some? && IsFresh(s, o.snapshot.tick) && p.random == s.random
    requires HeldKey(s) == StillHeld(p, candidates)
    requires s.lease.Some? ==> s.lease.value.candidate in candidates && s.lease.value.window == p.lease.value.window
    requires Act(bot, o, body, s, candidates).Success?
    ensures var n := Act(bot, o, body, s, candidates).value.state;
      && n.lease.Some? && IsTarget(bot, p, candidates, o.snapshot.tick, n.lease.value.candidate)
      && ReasonOfAct(bot, o, body, p.random.value, n.lease.value.candidate, n.reason)
  {
    hide Carry, SelectFrom, StillHeld, ReasonOfAct, ValidStore, AllMeasured;
    SelectionIsMaximal(candidates, bot.profile.policy, HeldKey(s));
    var chosen :=
      Chosen(bot, s.(reaction := Some(Rearm(bot, o.snapshot.tick).value)), candidates, o.snapshot.tick).value;
    assert chosen.lease.value.candidate in candidates;
    AMeasuredCandidate(body, candidates, chosen.lease.value.candidate);
    CarryReason(bot, o, body, chosen);
  }

  lemma AMeasuredCandidate(body: PhysicsBody, candidates: seq<Candidate>, c: Candidate)
    requires AllMeasured(body, candidates) && c in candidates
    ensures MeasuredFrom(body, c)
  {
  }

  lemma CarryReason(bot: Bot, o: Observation, body: PhysicsBody, s: State)
    requires ValidObservation(o) && o.Entity().Some? && s.lease.Some? && s.random.Some?
    requires MeasuredFrom(body, s.lease.value.candidate) && IsFresh(s, o.snapshot.tick)
    requires Carry(bot, o, body, s).Success?
    ensures var n := Carry(bot, o, body, s).value.state;
      n.lease == s.lease && ReasonOfAct(bot, o, body, s.random.value, s.lease.value.candidate, n.reason)
  {
    hide RequestAbility, Moved, AbilityReasonOf, MoveReasonOf, ReasonOfAct, ValidStore, RequestThrust, MeasuredFrom,
      IsFresh;
    var c := s.lease.value.candidate;
    AbilityReason(bot, o, body, c);
    MoveReason(bot, o, body, s, c);
    ReasonsTogether(bot, o, body, s.random.value, c);
  }

  function MoveReasonOf(bot: Bot, r: Random, c: Candidate): Reason {
    if HasArrived(c) then Arrived
    else if bot.draw(r.seed, r.drawCount) >= bot.profile.seekProbability then SeekDeclined
    else if c.escapeBlocked then PursuingUnderRisk
    else Pursuing
  }

  lemma MoveReason(bot: Bot, o: Observation, body: PhysicsBody, s: State, c: Candidate)
    requires IsSquareRoot(o.geometry.root) && s.random.Some? && MeasuredFrom(body, c) && IsFresh(s, o.snapshot.tick)
    ensures var m := Moved(bot, o, body, s, c).state;
      m.reason == MoveReasonOf(bot, s.random.value, c) && m.lease == s.lease
  {
    hide HasArrived, Steer, ArrivalBrake;
  }

  ghost function AbilityReasonOf(bot: Bot, o: Observation, body: PhysicsBody, c: Candidate): Option<Reason>
    requires IsSquareRoot(o.geometry.root) && o.Entity().Some?
  {
    var self, now := o.Entity().value, o.snapshot.tick;
    if OpponentCloses(o, body, bot.profile.policy) then
      Some(if ShieldRefused(o.snapshot, self, now) then ShieldUnavailable else ShieldAnticipated)
    else if !HasQuarry(bot, o, body, c) then None
    else BurstReasonOf(bot, o, body, ShoveOpponentBody(o.snapshot, c).value)
  }

  ghost function BurstReasonOf(bot: Bot, o: Observation, body: PhysicsBody, opponent: PhysicsBody): Option<Reason>
    requires IsSquareRoot(o.geometry.root) && o.Entity().Some?
  {
    if !ChargeAligned(o, body, opponent) then Some(ChargeMisaligned)
    else if ChargeScreened(o, body, opponent, bot.profile.policy) != Success(true) then Some(ChargeGroundEndsFirst)
    else if ChargeRefused(o.snapshot, o.Entity().value, o.snapshot.tick) then Some(ChargeUnavailable)
    else Some(ChargeCommitted)
  }

  lemma AbilityReason(bot: Bot, o: Observation, body: PhysicsBody, c: Candidate)
    requires IsSquareRoot(o.geometry.root) && o.Entity().Some? && RequestAbility(bot, o, body, c).Success?
    ensures RequestAbility(bot, o, body, c).value.reason == AbilityReasonOf(bot, o, body, c)
  {
    hide OpponentCloses, BurstReasonOf, RequestBurst, IsSquareRoot, RequestShield, ShieldRefused;
    if !OpponentCloses(o, body, bot.profile.policy) && ShoveOpponentBody(o.snapshot, c).Some? {
      BurstReason(bot, o, body, ShoveOpponentBody(o.snapshot, c).value);
    }
  }

  lemma BurstReason(bot: Bot, o: Observation, body: PhysicsBody, opponent: PhysicsBody)
    requires IsSquareRoot(o.geometry.root) && o.Entity().Some? && RequestBurst(bot, o, body, opponent).Success?
    ensures RequestBurst(bot, o, body, opponent).value.reason ==
      if opponent.position == body.position then None else BurstReasonOf(bot, o, body, opponent)
  {
    hide ChargeAligned, ChargeScreened, Magnitude, ChargeRefused, RequestCharge, SquaredMagnitude, Square, IsSquareRoot;
    MagnitudeIsPositive(o.geometry, Offset(body.position, opponent.position));
    OffsetIsZeroOnlyThere(body.position, opponent.position);
  }

  lemma ReasonsTogether(bot: Bot, o: Observation, body: PhysicsBody, r: Random, c: Candidate)
    requires IsSquareRoot(o.geometry.root) && o.Entity().Some?
    ensures var ability := AbilityReasonOf(bot, o, body, c);
      ReasonOfAct(bot, o, body, r, c, if ability.Some? then ability.value else MoveReasonOf(bot, r, c))
  {
    hide OpponentCloses, ShoveOpponentBody, ChargeAligned, ChargeScreened, ChargeRefused, ShieldRefused, HasArrived,
      IsSquareRoot;
  }
}
