/** What a bot remembers after a pass, field by field, and when its next decision is due over a run. */
module TacticalMemory {
  import opened Wrappers
  import opened SeatRosters
  import opened Commands
  import opened PlaneArithmetic
  import opened Observations
  import opened TacticalCandidates
  import opened TacticalObjectives
  import opened TacticalScreening
  import opened TacticalSelection
  import opened TacticalSteering
  import opened ShoveSetups
  import opened TacticalDecisions
  import opened TacticalInvariants
  import opened TacticalRuns
  import opened TacticalHeadings

  // ---------------------------------------------------------------- what a pass begins with

  /** A match not met before, another body, or a stun just over: nothing in hand is kept. */
  predicate StartsAfresh(s: State, identity: BodyIdentity, started: Tick) {
    s.seededRunningTick != Some(started) || s.body != Some(identity) || s.observedStun
  }

  /** The gate as a pass now sets it. */
  function GateFrom(bot: Bot, now: Tick): TickWindow {
    TickWindow(now, now + bot.profile.reactionDelayTicks)
  }

  /** What a pass over an eligible body begins with. */
  function Begun(bot: Bot, o: Observation, s: State, identity: BodyIdentity): State
    requires SeedIsDrawn(s)
  {
    var anew, started := StartsAfresh(s, identity, o.snapshot.runningStarted), o.snapshot.runningStarted;
    State(s.lastCompletedTick, Some(started), Some(DrawsFrom(bot, s, started)), Some(identity), false,
          if anew || s.reaction.None? then Some(GateFrom(bot, o.snapshot.tick)) else s.reaction,
          if anew then None else s.lease, if anew then None else s.heldDirection, s.reason, s.hold, s.work)
  }

  lemma BegunIsPrimed(bot: Bot, o: Observation, s: State, identity: BodyIdentity)
    requires SeedIsDrawn(s) && Primed(bot, o, s, identity).Success?
    ensures Primed(bot, o, s, identity).value == Begun(bot, o, s, identity)
  {
  }

  // ---------------------------------------------------------------- what it leaves

  function GivenUp(p: State): TargetHold {
    if p.lease.Some? then Released else NoTarget
  }

  /** The target in hand is on offer, or there is one in hand that is not. */
  ghost predicate Offered(p: State, candidates: seq<Candidate>) {
    p.lease.Some? && exists c :: c in candidates && c.key == p.lease.value.candidate.key
  }

  ghost predicate Gone(p: State, candidates: seq<Candidate>) {
    p.lease.Some? && forall c :: c in candidates ==> c.key != p.lease.value.candidate.key
  }

  /** The target is kept: its own window, and what is published of it now. */
  predicate Keeps(p: State, candidates: seq<Candidate>, lease: Option<Lease>) {
    && p.lease.Some? && lease.Some? && lease.value.window == p.lease.value.window
    && lease.value.candidate in candidates && lease.value.candidate.key == p.lease.value.candidate.key
  }

  /** A pass that waits at the gate or finds nothing: a target on offer is kept, one that is gone is lost and the
      gate set again, and with nothing on offer no thrust is kept. */
  ghost predicate Waits(bot: Bot, now: Tick, p: State, candidates: seq<Candidate>, n: State) {
    var gone := Gone(p, candidates);
    && n.random == p.random
    && n.reaction == (if gone then Some(GateFrom(bot, now)) else p.reaction)
    && n.hold == (if gone then Lost else if p.lease.Some? then RetainedInLease else NoTarget)
    && (if Offered(p, candidates) then Keeps(p, candidates, n.lease) else n.lease.None?)
    && n.heldDirection == if gone || candidates == [] then None else p.heldDirection
  }

  /** A pass that acts sets the gate again; it keeps its target while the lease of one on offer runs, and otherwise
      leases what it chooses for a persistence. */
  ghost predicate GoesOn(bot: Bot, now: Tick, p: State, candidates: seq<Candidate>, n: State) {
    && n.reaction == Some(GateFrom(bot, now)) && n.lease.Some? && n.heldDirection.Some?
    && if Offered(p, candidates) && now < p.lease.value.window.expiry
       then Keeps(p, candidates, n.lease) && n.hold == RetainedInLease
       else
         && n.lease.value.candidate in candidates
         && n.lease.value.window == TickWindow(now, now + bot.profile.targetPersistenceTicks)
         && n.hold == if !Offered(p, candidates) then Acquired
                      else if n.lease.value.candidate.key == p.lease.value.candidate.key then RetainedByBonus
                      else Switched
  }

  /** Everything a pass over an eligible body leaves, from what it began with and what it was offered. */
  ghost predicate Remembers(bot: Bot, now: Tick, p: State, objectives: Objectives, n: State) {
    && n.lastCompletedTick == p.lastCompletedTick && n.seededRunningTick == p.seededRunningTick && n.body == p.body
    && n.observedStun == p.observedStun && n.work == objectives.work
    && match objectives.disposition
       case Waiting =>
         && n.random == p.random && n.lease.None? && n.heldDirection.None? && n.hold == GivenUp(p)
         && n.reaction == if p.lease.Some? then Some(GateFrom(bot, now)) else p.reaction
       case Finished =>
         && n.random == p.random && n.lease.None? && n.heldDirection == Some(ZERO_VECTOR) && n.hold == GivenUp(p)
         && n.reaction == p.reaction
       case Ready =>
         if Acted(n.reason) then GoesOn(bot, now, p, objectives.candidates, n)
         else Waits(bot, now, p, objectives.candidates, n)
  }

  /** What it sends when it does not act: a zero thrust while objectives wait or are finished, or when the thrust in
      force is another body's or another match's, or the target is gone; and nothing otherwise. */
  ghost predicate Stops(p: State, objectives: Objectives, cancelled: bool) {
    !objectives.disposition.Ready? || cancelled || Gone(p, objectives.candidates)
  }

  lemma RefreshedIsExact(bot: Bot, p: State, candidates: seq<Candidate>, now: Tick)
    requires p.reaction.Some? && Refreshed(bot, p, candidates, now).Success?
    ensures var n, gone := Refreshed(bot, p, candidates, now).value, Gone(p, candidates);
      && n == p.(hold := n.hold, lease := n.lease, heldDirection := n.heldDirection, reaction := n.reaction)
      && n.hold == (if gone then Lost else if p.lease.Some? then RetainedInLease else NoTarget)
      && (Offered(p, candidates) <==> p.lease.Some? && !gone)
      && (if Offered(p, candidates) then Keeps(p, candidates, n.lease) else n.lease.None?)
      && n.heldDirection == (if gone then None else p.heldDirection)
      && n.reaction == if gone then Some(GateFrom(bot, now)) else p.reaction
  {
  }

  lemma PursuitRemembers(bot: Bot, o: Observation, body: PhysicsBody, p: State, objectives: Objectives, cancelled: bool)
    requires ValidObservation(o) && ValidBot(bot) && o.Entity().Some? && AllMeasured(body, objectives.candidates)
    requires p.random.Some? && p.reaction.Some? && IsFresh(p, o.snapshot.tick) && p.work == objectives.work
    requires Pursue(bot, o, body, p, objectives, cancelled).Success?
    ensures var pass := Pursue(bot, o, body, p, objectives, cancelled).value;
      && Remembers(bot, o.snapshot.tick, p, objectives, pass.state)
      && (!Acted(pass.state.reason) ==>
            pass.commands ==
            if Stops(p, objectives, cancelled) then RequestThrust(o, bot.controller, ZERO_VECTOR) else [])
  {
    hide Act, Refreshed, AllMeasured, ValidBot, Commandable, Offered, Gone, Keeps, ValidStore, RequestThrust;
    if objectives.disposition.Ready? {
      var now, candidates := o.snapshot.tick, objectives.candidates;
      RefreshedIsExact(bot, p, candidates, now);
      RefreshedIsKept(bot, p, candidates, now);
      var kept := Refreshed(bot, p, candidates, now).value;
      if candidates != [] && kept.reaction.value.Expired(now) {
        ActIsActedOn(bot, o, body, kept, candidates);
        ActTakesAnOffer(bot, o, body, kept, candidates);
        KeptTargetIsTheSame(p, candidates, kept.lease);
      }
    }
  }

  lemma KeptTargetIsTheSame(p: State, candidates: seq<Candidate>, lease: Option<Lease>)
    ensures Keeps(p, candidates, lease) ==>
      && p.lease.Some? && lease.Some? && lease.value.window == p.lease.value.window
      && lease.value.candidate.key == p.lease.value.candidate.key
  {
  }

  lemma ActTakesAnOffer(bot: Bot, o: Observation, body: PhysicsBody, s: State, candidates: seq<Candidate>)
    requires ValidObservation(o) && ValidBot(bot) && o.Entity().Some? && candidates != []
    requires AllMeasured(body, candidates)
    requires s.random.Some? && IsFresh(s, o.snapshot.tick) && (s.lease.Some? ==> s.lease.value.candidate in candidates)
    requires Act(bot, o, body, s, candidates).Success?
    ensures Act(bot, o, body, s, candidates).value.state.lease.Some?
    ensures Act(bot, o, body, s, candidates).value.state.lease.value.candidate in candidates
  {
    hide Carry, SelectFrom, ValidStore, AllMeasured;
    SelectionIsMaximal(candidates, bot.profile.policy, HeldKey(s));
    var chosen :=
      Chosen(bot, s.(reaction := Some(Rearm(bot, o.snapshot.tick).value)), candidates, o.snapshot.tick).value;
    assert chosen.lease.value.candidate in candidates;
    AMeasuredCandidate(body, candidates, chosen.lease.value.candidate);
    CarryReason(bot, o, body, chosen);
  }

  /** A completed pass over an eligible body: what it begins with is the state it finds, less everything in hand
      when it starts afresh, with a gate set if there is none; what it leaves and, unless it acts, what it sends
      follow from that and from what it collects. */
  lemma EligiblePassRemembers(bot: Bot, o: Observation, s: State)
    requires ValidObservation(o) && ValidBot(bot) && IsFresh(s, o.snapshot.tick) && Coherent(bot, s)
    requires o.controller == bot.controller && DecideNext(bot, o, s).Success? && StandingOf(o).Eligible?
    ensures var pass, identity := DecideNext(bot, o, s).value, StandingOf(o).identity;
      var collected := Collected(o, StandingOf(o).body, bot.profile.policy);
      var p := Begun(bot, o, s, identity);
      var cancelled := s.heldDirection.Some? && StartsAfresh(s, identity, o.snapshot.runningStarted);
      && collected.Success? && Remembers(bot, o.snapshot.tick, p, collected.value, pass.state)
      && (!Acted(pass.state.reason) ==>
            pass.commands == if Stops(p, collected.value, cancelled)
                             then [Thrust(identity.entity, ZERO_VECTOR, identity.generation)] else [])
  {
    hide Collected, Pursue, ValidStore, AllMeasured, ArenaDiagonal, ValidPolicy, Remembers, IsSquareRoot, StandingOf,
      Stops, Commandable, Primed;
    var body, identity := StandingOf(o).body, StandingOf(o).identity;
    EligibleIsCommandable(bot, o);
    var objectives := Collected(o, body, bot.profile.policy).value;
    CollectedIsMeasured(o, body, bot.profile.policy);
    PrimingSucceeds(bot, o, s, identity);
    BegunIsPrimed(bot, o, s, identity);
    var p := Begun(bot, o, s, identity);
    var cancelled := s.heldDirection.Some? && IsNew(s, identity, o.snapshot.runningStarted);
    PursuitRemembers(bot, o, body, p.(work := objectives.work), objectives, cancelled);
    WorkIsNotRead(bot, o.snapshot.tick, p, objectives, DecideNext(bot, o, s).value.state, cancelled);
  }

  lemma PrimingSucceeds(bot: Bot, o: Observation, s: State, identity: BodyIdentity)
    requires ValidObservation(o) && ValidBot(bot) && IsFresh(s, o.snapshot.tick) && Coherent(bot, s)
    requires DecideNext(bot, o, s).Success? && StandingOf(o).Eligible? && identity == StandingOf(o).identity
    ensures Primed(bot, o, s, identity).Success?
  {
    hide StandingOf, Collected, Pursue, ValidStore, Commandable;
  }

  lemma WorkIsNotRead(bot: Bot, now: Tick, p: State, objectives: Objectives, n: State, cancelled: bool)
    ensures Remembers(bot, now, p.(work := objectives.work), objectives, n) <==> Remembers(bot, now, p, objectives, n)
    ensures Stops(p.(work := objectives.work), objectives, cancelled) <==> Stops(p, objectives, cancelled)
  {
  }

  /** A completed pass over no eligible body puts down everything in hand and keeps the generator; only a bot that
      could be moved before the match runs is told to stand still. */
  lemma IdlePassRemembers(bot: Bot, o: Observation, s: State)
    requires ValidObservation(o) && ValidBot(bot) && IsFresh(s, o.snapshot.tick) && Coherent(bot, s)
    requires DecideNext(bot, o, s).Success? && !StandingOf(o).Eligible?
    ensures var pass, standing := DecideNext(bot, o, s).value, StandingOf(o);
      && pass.state == State(
           s.lastCompletedTick, s.seededRunningTick, s.random,
           if standing.StunnedBody? then Some(standing.identity) else None, standing.StunnedBody?, None, None, None,
           match standing
           case Bodiless => AwaitingBody
           case Uncontrollable => NoControllableBody
           case NotRunning => MatchNotRunning
           case _ => Reason.Stunned,
           if s.lease.Some? then Released else NoTarget, Work(0, 0, 0))
      && pass.commands == if standing.NotRunning? && Commandable(o, bot.controller).Some?
                          then [Thrust(o.Entity().value, ZERO_VECTOR, Commandable(o, bot.controller).value)] else []
  {
    hide Commandable, ValidStore, DecideEligible, ValidBot, IsSquareRoot;
  }

  // ---------------------------------------------------------------- when the next decision is due

  /** The pass sets the gate: it starts afresh, loses or gives up its target, or acts. */
  ghost predicate SetsTheGate(bot: Bot, b: Brain, o: Observation)
    requires ValidObservation(o) && ValidBot(bot) && SeedIsDrawn(b.tactical)
  {
    && Completes(bot, b, o) && StandingOf(o).Eligible?
    && var s, n, identity := b.tactical, Step(bot, b, o).brain.tactical, StandingOf(o).identity;
       || StartsAfresh(s, identity, o.snapshot.runningStarted) || s.reaction.None? || Acted(n.reason) || n.hold == Lost
       || (n.reason == ObjectivesWaiting && n.hold == Released)
  }

  /** The gate a pass leaves: set now, left alone, or none without an eligible body. */
  lemma GateAfterStep(bot: Bot, b: Brain, o: Observation)
    requires ValidObservation(o) && ValidBot(bot) && Coherent(bot, b.tactical)
    ensures Step(bot, b, o).brain.tactical.reaction ==
            if !Completes(bot, b, o) then b.tactical.reaction
            else if !StandingOf(o).Eligible? then None
            else if SetsTheGate(bot, b, o) then Some(GateFrom(bot, o.snapshot.tick))
            else b.tactical.reaction
  {
    hide ValidObservation, ValidBot, StandingOf, DecideNext, Collected, Offered, Gone, Keeps;
    StepIsAtomic(bot, b, o);
    if Completes(bot, b, o) {
      if StandingOf(o).Eligible? {
        EligiblePassRemembers(bot, o, b.tactical);
        ReasonNamesTheBranch(bot, o, b.tactical);
      } else {
        IdlePassRemembers(bot, o, b.tactical);
      }
    }
  }

  /** Between two passes of a run nothing sets the gate or leaves the body. */
  ghost predicate GateStands(bot: Bot, brains: seq<Brain>, observations: seq<Observation>, i: nat, j: nat)
    requires IsRun(bot, brains, observations) && j <= |observations|
  {
    forall k :: i < k < j && Completes(bot, brains[k], observations[k]) ==>
      StandingOf(observations[k]).Eligible? && !SetsTheGate(bot, brains[k], observations[k])
  }

  lemma {:induction false} GateIsTheLastOne(bot: Bot, brains: seq<Brain>, observations: seq<Observation>, i: nat,
                                            j: nat)
    requires IsRun(bot, brains, observations) && i < j <= |observations|
    requires SetsTheGate(bot, brains[i], observations[i]) && GateStands(bot, brains, observations, i, j)
    ensures brains[j].tactical.reaction == Some(GateFrom(bot, observations[i].snapshot.tick))
  {
    hide ValidObservation, ValidBot, Step, Coherent, SetsTheGate, Completes;
    RunIsCoherent(bot, brains, observations, j - 1);
    GateAfterStep(bot, brains[j - 1], observations[j - 1]);
    if j - 1 > i {
      GateIsTheLastOne(bot, brains, observations, i, j - 1);
    } else {
      GateSettersComplete(bot, brains[i], observations[i]);
    }
  }

  lemma GateSettersComplete(bot: Bot, b: Brain, o: Observation)
    requires ValidObservation(o) && ValidBot(bot) && SeedIsDrawn(b.tactical) && SetsTheGate(bot, b, o)
    ensures Completes(bot, b, o) && StandingOf(o).Eligible?
  {
  }

  /** Over any run a bot acts exactly when it is due: a pass over the same body in the same match, with objectives
      on offer and its target, if it has one, among them, acts if and only if a reaction delay has passed since the
      last pass that set the gate. */
  lemma BotActsExactlyWhenDue(bot: Bot, brains: seq<Brain>, observations: seq<Observation>, i: nat, j: nat)
    requires IsRun(bot, brains, observations) && i < j < |observations|
    requires SetsTheGate(bot, brains[i], observations[i]) && GateStands(bot, brains, observations, i, j)
    requires var o, s := observations[j], brains[j].tactical;
      && Completes(bot, brains[j], o) && StandingOf(o).Eligible?
      && !StartsAfresh(s, StandingOf(o).identity, o.snapshot.runningStarted)
      && var collected := Collected(o, StandingOf(o).body, bot.profile.policy);
         && collected.Success? && collected.value.disposition.Ready? && collected.value.candidates != []
         && !Gone(s, collected.value.candidates)
    ensures Acts(bot, brains[j], observations[j]) <==>
      observations[j].snapshot.tick >= observations[i].snapshot.tick + bot.profile.reactionDelayTicks
  {
    hide ValidObservation, ValidBot, StandingOf, DecideNext, Collected, SetsTheGate, GateStands, Coherent, ReasonOfAct,
      IsTarget;
    var b, o := brains[j], observations[j];
    GateIsTheLastOne(bot, brains, observations, i, j);
    RunIsCoherent(bot, brains, observations, j);
    StepIsAtomic(bot, b, o);
    ReasonNamesTheBranch(bot, o, b.tactical);
    BegunIsPrimed(bot, o, b.tactical, StandingOf(o).identity);
  }

  // ---------------------------------------------------------------- why a pass fails

  lemma {:induction false} CircleFailureIs(kind: ObjectiveKind, circles: Store<Circle>, motions: Store<Vector2>,
                                           body: PhysicsBody, policy: Policy)
    ensures var r := CircleCandidates(kind, circles, motions, body, policy);
      r.Failure? ==> r.error == ObjectiveInvalid
  {
    hide CircleCandidate;
    if circles != [] { CircleFailureIs(kind, circles[..|circles| - 1], motions, body, policy); }
  }

  lemma {:induction false} ScreenFailureIs(s: Screen, raws: seq<Candidate>)
    requires s.diagonal > 0.0
    ensures ScreenAll(s, raws).Failure? ==> ScreenAll(s, raws).error == VectorOutOfRange
  {
    hide Representable, EscapeRay;
    if raws != [] { ScreenFailureIs(s, raws[..|raws| - 1]); }
  }

  predicate OfCollection(e: TacticalError) {
    e == CandidateLimitExceeded || e == ObjectiveInvalid || e == ModeUnsupported || e == VectorOutOfRange
  }

  lemma CollectionFailureIs(o: Observation, body: PhysicsBody, policy: Policy)
    requires ValidObservation(o) && ValidPolicy(policy) && Collected(o, body, policy).Failure?
    ensures OfCollection(Collected(o, body, policy).error)
  {
    hide CircleCandidates, ScreenAll, ShoveCandidates, ValidStore, IsSquareRoot, ArenaDiagonal, ScreenOf;
    ArenaDiagonalIsPositive(o.geometry);
    ScreenMeasuresTheArena(o, body, policy);
    CircleFailureIs(Hill, o.snapshot.hills, o.snapshot.hillMotions, body, policy);
    CircleFailureIs(Zone, o.snapshot.zones, [], body, policy);
    if RawCandidates(o, body, policy).Success? {
      ScreenFailureIs(ScreenOf(o, body, policy), RawCandidates(o, body, policy).value.candidates);
    }
  }

  lemma AbilityFailureIs(bot: Bot, o: Observation, body: PhysicsBody, c: Candidate)
    requires IsSquareRoot(o.geometry.root) && o.Entity().Some? && RequestAbility(bot, o, body, c).Failure?
    ensures RequestAbility(bot, o, body, c).error == VectorOutOfRange
  {
    hide OpponentCloses, Magnitude, IsSquareRoot, ChargeAligned, Representable, RequestShield, RequestCharge;
  }

  lemma ActFailureIs(bot: Bot, o: Observation, body: PhysicsBody, s: State, candidates: seq<Candidate>)
    requires ValidObservation(o) && ValidBot(bot) && o.Entity().Some? && candidates != []
    requires AllMeasured(body, candidates)
    requires s.random.Some? && IsFresh(s, o.snapshot.tick) && (s.lease.Some? ==> s.lease.value.candidate in candidates)
    requires Act(bot, o, body, s, candidates).Failure?
    ensures var e := Act(bot, o, body, s, candidates).error;
      || e == VectorOutOfRange
      || (e == WindowExpiryOverflow
          && (o.snapshot.tick + bot.profile.reactionDelayTicks > 9_007_199_254_740_991
              || o.snapshot.tick + bot.profile.targetPersistenceTicks > 9_007_199_254_740_991))
  {
    hide RequestAbility, SelectFrom, ValidStore, AllMeasured, Moved, RequestThrust, IsSquareRoot;
    SelectionIsMaximal(candidates, bot.profile.policy, HeldKey(s));
    if Rearm(bot, o.snapshot.tick).Success? {
      var armed := s.(reaction := Some(Rearm(bot, o.snapshot.tick).value));
      if Chosen(bot, armed, candidates, o.snapshot.tick).Success? {
        var c := Chosen(bot, armed, candidates, o.snapshot.tick).value.lease.value.candidate;
        assert c in candidates;
        AMeasuredCandidate(body, candidates, c);
        if RequestAbility(bot, o, body, c).Failure? { AbilityFailureIs(bot, o, body, c); }
      }
    }
  }

  lemma PursuitFailureIs(bot: Bot, o: Observation, body: PhysicsBody, p: State, objectives: Objectives, cancelled: bool)
    requires ValidObservation(o) && ValidBot(bot) && o.Entity().Some? && AllMeasured(body, objectives.candidates)
    requires p.random.Some? && p.reaction.Some? && IsFresh(p, o.snapshot.tick)
    requires Pursue(bot, o, body, p, objectives, cancelled).Failure?
    ensures var e := Pursue(bot, o, body, p, objectives, cancelled).error;
      || e == VectorOutOfRange
      || (e == WindowExpiryOverflow
          && (o.snapshot.tick + bot.profile.reactionDelayTicks > 9_007_199_254_740_991
              || o.snapshot.tick + bot.profile.targetPersistenceTicks > 9_007_199_254_740_991))
  {
    hide Act, AllMeasured, ValidBot, ValidStore, RequestThrust, IsSquareRoot;
    if objectives.disposition.Ready? && Refreshed(bot, p, objectives.candidates, o.snapshot.tick).Success? {
      RefreshedIsKept(bot, p, objectives.candidates, o.snapshot.tick);
      var kept := Refreshed(bot, p, objectives.candidates, o.snapshot.tick).value;
      if objectives.candidates != [] && kept.reaction.value.Expired(o.snapshot.tick) {
        ActFailureIs(bot, o, body, kept, objectives.candidates);
      }
    }
  }

  /** Why an observation is refused: it is somebody else's; or, of those the bot heeds and could decide for, the
      match starts in its future, a window would end past the last tick, or collecting or screening fails. */
  lemma PassFailsFor(bot: Bot, b: Brain, o: Observation)
    requires ValidObservation(o) && ValidBot(bot) && Coherent(bot, b.tactical)
    ensures var r, now := Step(bot, b, o).result, o.snapshot.tick;
      var decides := Heeds(bot, b, o) && StandingOf(o).Eligible?;
      var early := o.snapshot.runningStarted > now;
      && (r == Failure(ObservationControllerMismatch) <==> o.controller != bot.controller)
      && (r == Failure(RunningTickInvalid) <==> decides && early)
      && (r == Failure(WindowExpiryOverflow) ==>
            decides && (now + bot.profile.reactionDelayTicks > 9_007_199_254_740_991
                        || now + bot.profile.targetPersistenceTicks > 9_007_199_254_740_991))
      && (r == Failure(CandidateLimitExceeded) || r == Failure(ObjectiveInvalid) || r == Failure(ModeUnsupported) ==>
            decides && Collected(o, StandingOf(o).body, bot.profile.policy) == Failure(r.error))
  {
    hide Collected, Pursue, ValidStore, AllMeasured, StandingOf, IsSquareRoot, Commandable;
    if Heeds(bot, b, o) && StandingOf(o).Eligible? && o.snapshot.runningStarted <= o.snapshot.tick {
      EligibleIsCommandable(bot, o);
      EligibleFailureIs(bot, o, b.tactical);
    }
  }

  lemma EligibleFailureIs(bot: Bot, o: Observation, s: State)
    requires ValidObservation(o) && ValidBot(bot) && IsFresh(s, o.snapshot.tick) && Coherent(bot, s)
    requires StandingOf(o).Eligible? && o.Entity().Some? && o.snapshot.runningStarted <= o.snapshot.tick
    ensures var r := DecideEligible(bot, o, s, StandingOf(o).body, StandingOf(o).identity);
      r.Failure? ==>
        || r.error == VectorOutOfRange
        || (r.error == WindowExpiryOverflow
            && (o.snapshot.tick + bot.profile.reactionDelayTicks > 9_007_199_254_740_991
                || o.snapshot.tick + bot.profile.targetPersistenceTicks > 9_007_199_254_740_991))
        || (OfCollection(r.error) && Collected(o, StandingOf(o).body, bot.profile.policy) == Failure(r.error))
  {
    hide Collected, Pursue, ValidStore, AllMeasured, StandingOf, IsSquareRoot, ValidPolicy;
    var body, identity := StandingOf(o).body, StandingOf(o).identity;
    var primed, collected := Primed(bot, o, s, identity), Collected(o, body, bot.profile.policy);
    if collected.Failure? {
      CollectionFailureIs(o, body, bot.profile.policy);
    } else if primed.Success? {
      PrimedIsCoherent(bot, o, s, identity);
      CollectedIsMeasured(o, body, bot.profile.policy);
      var cancelled := s.heldDirection.Some? && IsNew(s, identity, o.snapshot.runningStarted);
      var p := primed.value.(work := collected.value.work);
      if Pursue(bot, o, body, p, collected.value, cancelled).Failure? {
        PursuitFailureIs(bot, o, body, p, collected.value, cancelled);
      }
    }
  }
}
