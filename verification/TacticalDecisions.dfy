/** The tactical decision: what a bot remembers, what one observation makes of it, and the commands it
    answers with, as a function of its state. */
module TacticalDecisions {
  import opened Wrappers
  import opened SeatRosters
  import opened Commands
  import opened PlaneArithmetic
  import opened Observations
  import opened NearestOpponents
  import opened TacticalCandidates
  import opened TacticalObjectives
  import opened TacticalScreening
  import opened TacticalSelection
  import opened TacticalSteering
  import opened ArrivalBrakes

  const SPAWN_REQUEST_RETRY_TICKS: nat := 40

  datatype Profile = Profile(
    policy: Policy,
    seekProbability: real,
    reactionDelayTicks: nat,
    aimError: real,
    targetPersistenceTicks: nat,
    arrivalBrakeFraction: real)

  /** What never changes about one bot. The generator is its seed for a match and its numbered draws. */
  datatype Bot = Bot(controller: ControllerId, profile: Profile, seedFor: Tick -> nat, draw: (nat, nat) -> real)

  ghost predicate ValidBot(bot: Bot) {
    && ValidPolicy(bot.profile.policy) && UnitInterval(bot.profile.arrivalBrakeFraction)
    && UnitInterval(bot.profile.seekProbability)
  }

  datatype Reason =
    | NotDecided | AwaitingBody | NoControllableBody | MatchNotRunning | Stunned | ObjectivesWaiting
    | ObjectivesFinished
    | NoScreenedCandidate | AwaitingReaction | Arrived | SeekDeclined | Pursuing | PursuingUnderRisk
    | ShieldAnticipated | ShieldUnavailable | ChargeMisaligned | ChargeGroundEndsFirst | ChargeUnavailable
    | ChargeCommitted

  datatype TargetHold = NoTarget | Acquired | RetainedInLease | RetainedByBonus | Switched | Lost | Released

  datatype Random = Random(seed: nat, drawCount: nat)
  datatype BodyIdentity = BodyIdentity(entity: EntityId, generation: Option<Tick>)
  datatype Lease = Lease(candidate: Candidate, window: TickWindow)

  datatype State = State(
    lastCompletedTick: Option<Tick>,
    seededRunningTick: Option<Tick>,
    random: Option<Random>,
    body: Option<BodyIdentity>,
    observedStun: bool,
    reaction: Option<TickWindow>,
    lease: Option<Lease>,
    heldDirection: Option<Vector2>,
    reason: Reason,
    hold: TargetHold,
    work: Work)

  const INITIAL_STATE := State(None, None, None, None, false, None, None, None, NotDecided, NoTarget, NO_WORK)

  // ---------------------------------------------------------------- commands

  /** The generation a command may be authored under, or none when this observation suppresses commands. */
  function Commandable(o: Observation, controller: ControllerId): Option<Option<Tick>> {
    var entity := o.Entity();
    if o.controller != controller || entity.None? then None
    else
      var body := Find(o.snapshot.bodies, entity.value);
      if body.None? || body.value.isStatic then None
      else if exists x :: x in o.snapshot.stuns && x.entity == entity.value && x.value.Contains(o.snapshot.tick)
      then None
      else OwnGeneration(o.snapshot.controllables, entity.value, controller)
  }

  function OwnGeneration(s: Store<Controllable>, self: EntityId, controller: ControllerId): Option<Option<Tick>> {
    if s == [] then None
    else if s[0].entity == self && s[0].value.controllerId == controller then Some(s[0].value.generation)
    else OwnGeneration(s[1..], self, controller)
  }

  function RequestThrust(o: Observation, controller: ControllerId, direction: Vector2): seq<Command> {
    match Commandable(o, controller)
    case None => []
    case Some(generation) => [Thrust(o.Entity().value, direction, generation)]
  }

  function RequestShield(o: Observation, controller: ControllerId): seq<Command> {
    match Commandable(o, controller)
    case None => []
    case Some(generation) => [Command.Shield(o.Entity().value, generation)]
  }

  function RequestCharge(o: Observation, controller: ControllerId, direction: Vector2): seq<Command> {
    match Commandable(o, controller)
    case None => []
    case Some(generation) => [Charge(o.Entity().value, direction, generation)]
  }

  function SpawnIsInFlight(last: Option<Tick>, now: Tick): bool {
    last.Some? && now < last.value + SPAWN_REQUEST_RETRY_TICKS
  }

  // ---------------------------------------------------------------- what an observation makes of the body

  datatype Standing =
    | Bodiless
    | Uncontrollable
    | NotRunning
    | StunnedBody(identity: BodyIdentity)
    | Eligible(body: PhysicsBody, identity: BodyIdentity)

  function StandingOf(o: Observation): Standing {
    var entity := o.Entity();
    if entity.None? then Bodiless
    else
      var body := Find(o.snapshot.bodies, entity.value);
      var controllable := Find(o.snapshot.controllables, entity.value);
      if body.None? || body.value.isStatic || controllable.None? then Uncontrollable
      else if o.snapshot.phase != Running then NotRunning
      else
        var identity := BodyIdentity(entity.value, controllable.value.generation);
        var stun := Find(o.snapshot.stuns, entity.value);
        if stun.Some? && stun.value.Contains(o.snapshot.tick) then StunnedBody(identity)
        else Eligible(body.value, identity)
  }

  function ClearWork(s: State): State {
    s.(reaction := None, lease := None, heldDirection := None)
  }

  function ClearFor(s: State, reason: Reason): State {
    ClearWork(s.(hold := if s.lease.Some? then Released else NoTarget, reason := reason, work := NO_WORK))
  }

  /** The state once the match and the body are known: a new match reseeds, and either one being new
      drops the work in hand. */
  function Recognised(bot: Bot, s: State, identity: BodyIdentity, started: Tick): State {
    var seeded :=
      if s.seededRunningTick == Some(started) then s
      else
        ClearWork(s).(body := None, random := Some(Random(bot.seedFor(started), 0)),
                      seededRunningTick := Some(started));
    var changed := seeded.body != Some(identity) || seeded.observedStun;
    var known := seeded.(body := Some(identity), observedStun := false);
    if changed then ClearWork(known) else known
  }

  predicate IsNew(s: State, identity: BodyIdentity, started: Tick) {
    s.seededRunningTick != Some(started) || s.body != Some(identity) || s.observedStun
  }

  function Rearm(bot: Bot, now: Tick): Result<TickWindow, TacticalError> {
    CreateWindow(now, bot.profile.reactionDelayTicks)
  }

  function Armed(bot: Bot, s: State, now: Tick): Result<State, TacticalError> {
    if s.reaction.Some? then Success(s)
    else
      var w :- Rearm(bot, now);
      Success(s.(reaction := Some(w)))
  }

  // ---------------------------------------------------------------- the target in hand

  function FindKey(candidates: seq<Candidate>, key: ObjectiveKey): (r: Option<Candidate>)
    ensures r.Some? ==> r.value in candidates && r.value.key == key
    ensures r.None? ==> forall c :: c in candidates ==> c.key != key
  {
    if candidates == [] then None else if candidates[0].key == key then Some(candidates[0])
    else FindKey(candidates[1..], key)
  }

  /** The held target refreshed in place, or lost and the reaction started again. */
  function Refreshed(bot: Bot, s: State, candidates: seq<Candidate>, now: Tick): Result<State, TacticalError> {
    if s.lease.None? then Success(s.(hold := NoTarget))
    else
      match FindKey(candidates, s.lease.value.candidate.key)
      case Some(c) => Success(s.(hold := RetainedInLease, lease := Some(s.lease.value.(candidate := c))))
      case None =>
        var w :- Rearm(bot, now);
        Success(s.(hold := Lost, lease := None, heldDirection := None, reaction := Some(w)))
  }

  function HeldKey(s: State): Option<ObjectiveKey> {
    if s.lease.Some? then Some(s.lease.value.candidate.key) else None
  }

  function HoldFor(held: Option<ObjectiveKey>, winner: ObjectiveKey): TargetHold {
    if held.None? then Acquired else if held.value == winner then RetainedByBonus else Switched
  }

  /** Selection, run only when nothing is held or the lease is over. */
  function Chosen(bot: Bot, s: State, candidates: seq<Candidate>, now: Tick): Result<State, TacticalError>
    requires ValidBot(bot) && candidates != []
  {
    if s.lease.Some? && !s.lease.value.window.Expired(now) then Success(s)
    else
      SelectionIsMaximal(candidates, bot.profile.policy, HeldKey(s));
      var winner := candidates[SelectFrom(candidates, bot.profile.policy, HeldKey(s)).value];
      var w :- CreateWindow(now, bot.profile.targetPersistenceTicks);
      Success(s.(hold := HoldFor(HeldKey(s), winner.key), lease := Some(Lease(winner, w))))
  }

  // ---------------------------------------------------------------- movement

  ghost predicate MeasuredFrom(body: PhysicsBody, c: Candidate) {
    c.squaredDistance == SquaredMagnitude(Offset(body.position, c.target))
  }

  predicate HasArrived(c: Candidate) {
    c.squaredDistance <= Square(c.arrivalRadius)
  }

  lemma NotArrivedIsElsewhere(body: PhysicsBody, c: Candidate)
    requires MeasuredFrom(body, c) && !HasArrived(c)
    ensures Offset(body.position, c.target) != ZERO_VECTOR
  {
    hide Square;
    SquareIsPositive(c.arrivalRadius);
    SquaredMagnitudeIsZeroOnlyAtZero(Offset(body.position, c.target));
  }

  function AimError(bot: Bot, aim: real): real {
    ((aim * 2.0) - 1.0) * bot.profile.aimError
  }

  datatype Move = Move(state: State, direction: Vector2)

  /** The two draws, in order: whether to seek, and how far off to aim. */
  function Seek(bot: Bot, o: Observation, body: PhysicsBody, s: State, c: Candidate): Move
    requires IsSquareRoot(o.geometry.root) && s.random.Some? && MeasuredFrom(body, c) && !HasArrived(c)
  {
    var r := s.random.value;
    if bot.draw(r.seed, r.drawCount) < bot.profile.seekProbability then
      NotArrivedIsElsewhere(body, c);
      Move(s.(random := Some(r.(drawCount := r.drawCount + 2)),
              reason := if c.escapeBlocked then PursuingUnderRisk else Pursuing),
           Steer(o.geometry, Offset(body.position, c.target), AimError(bot, bot.draw(r.seed, r.drawCount + 1))))
    else Move(s.(random := Some(r.(drawCount := r.drawCount + 1)), reason := SeekDeclined), ZERO_VECTOR)
  }

  predicate IsFresh(s: State, now: Tick) {
    s.lastCompletedTick.Some? ==> s.lastCompletedTick.value < now
  }

  function Moved(bot: Bot, o: Observation, body: PhysicsBody, s: State, c: Candidate): Move
    requires IsSquareRoot(o.geometry.root) && s.random.Some? && MeasuredFrom(body, c) && IsFresh(s, o.snapshot.tick)
  {
    if !HasArrived(c) then Seek(bot, o, body, s, c)
    else
      var h := CommandHoldTicks(bot.profile.reactionDelayTicks, o.snapshot.tick, s.lastCompletedTick);
      Move(s.(reason := Arrived), ArrivalBrake(o, body, c, bot.profile.arrivalBrakeFraction, h))
  }

  // ---------------------------------------------------------------- the one ability

  datatype Ability = Ability(reason: Option<Reason>, commands: seq<Command>)

  function RequestAbility(bot: Bot, o: Observation, body: PhysicsBody, c: Candidate): Result<Ability, TacticalError>
    requires IsSquareRoot(o.geometry.root) && o.Entity().Some?
  {
    var self, now, policy := o.Entity().value, o.snapshot.tick, bot.profile.policy;
    if OpponentCloses(o, body, policy) then
      if ShieldRefused(o.snapshot, self, now) then Success(Ability(Some(ShieldUnavailable), []))
      else Success(Ability(Some(ShieldAnticipated), RequestShield(o, bot.controller)))
    else
      match ShoveOpponentBody(o.snapshot, c)
      case None => Success(Ability(None, []))
      case Some(opponent) => RequestBurst(bot, o, body, opponent)
  }

  function RequestBurst(bot: Bot, o: Observation, body: PhysicsBody,
                        opponent: PhysicsBody): Result<Ability, TacticalError>
    requires IsSquareRoot(o.geometry.root) && o.Entity().Some?
  {
    var delta := Offset(body.position, opponent.position);
    var distance := Magnitude(o.geometry, delta);
    if distance <= 0.0 then Success(Ability(None, []))
    else if !ChargeAligned(o, body, opponent) then Success(Ability(Some(ChargeMisaligned), []))
    else
      var admitted :- ChargeScreened(o, body, opponent, bot.profile.policy);
      if !admitted then Success(Ability(Some(ChargeGroundEndsFirst), []))
      else if ChargeRefused(o.snapshot, o.Entity().value, o.snapshot.tick)
      then Success(Ability(Some(ChargeUnavailable), []))
      else Success(Ability(Some(ChargeCommitted), RequestCharge(o, bot.controller, Clamped(Scaled(delta, distance)))))
  }

  // ---------------------------------------------------------------- one pass

  datatype Pass = Pass(state: State, commands: seq<Command>)

  function ZeroIf(cancelled: bool, bot: Bot, o: Observation): seq<Command> {
    if cancelled then RequestThrust(o, bot.controller, ZERO_VECTOR) else []
  }

  ghost predicate AllMeasured(body: PhysicsBody, candidates: seq<Candidate>) {
    forall c :: c in candidates ==> MeasuredFrom(body, c)
  }

  /** A target in hand: move, and at most one ability beside the thrust. */
  function Carry(bot: Bot, o: Observation, body: PhysicsBody, s: State): Result<Pass, TacticalError>
    requires ValidObservation(o) && o.Entity().Some? && s.lease.Some? && s.random.Some?
    requires MeasuredFrom(body, s.lease.value.candidate) && IsFresh(s, o.snapshot.tick)
  {
    var c := s.lease.value.candidate;
    var move := Moved(bot, o, body, s, c);
    var ability :- RequestAbility(bot, o, body, c);
    var reason := if ability.reason.Some? then ability.reason.value else move.state.reason;
    Success(Pass(move.state.(heldDirection := Some(move.direction), reason := reason),
                 RequestThrust(o, bot.controller, move.direction) + ability.commands))
  }

  /** A pass that clears the reaction gate: rearm, keep or choose a target, and carry it out. */
  function Act(bot: Bot, o: Observation, body: PhysicsBody, s: State,
               candidates: seq<Candidate>): Result<Pass, TacticalError>
    requires ValidObservation(o) && ValidBot(bot) && o.Entity().Some? && candidates != []
    requires AllMeasured(body, candidates)
    requires s.random.Some? && IsFresh(s, o.snapshot.tick) && (s.lease.Some? ==> s.lease.value.candidate in candidates)
  {
    var w :- Rearm(bot, o.snapshot.tick);
    var chosen :- Chosen(bot, s.(reaction := Some(w)), candidates, o.snapshot.tick);
    Carry(bot, o, body, chosen)
  }

  /** A pass with candidates to go by: lose or refresh the target, then wait, or act. */
  function PursueReady(bot: Bot, o: Observation, body: PhysicsBody, s: State, candidates: seq<Candidate>,
                       cancelled: bool): Result<Pass, TacticalError>
    requires ValidObservation(o) && ValidBot(bot) && o.Entity().Some? && AllMeasured(body, candidates)
    requires s.random.Some? && s.reaction.Some? && IsFresh(s, o.snapshot.tick)
  {
    var kept :- Refreshed(bot, s, candidates, o.snapshot.tick);
    var dropped := cancelled || kept.hold == Lost;
    if candidates == [] then
      Success(Pass(kept.(reason := NoScreenedCandidate, heldDirection := None), ZeroIf(dropped, bot, o)))
    else if !kept.reaction.value.Expired(o.snapshot.tick) then
      Success(Pass(kept.(reason := AwaitingReaction), ZeroIf(dropped, bot, o)))
    else Act(bot, o, body, kept, candidates)
  }

  function Pursue(bot: Bot, o: Observation, body: PhysicsBody, s: State, objectives: Objectives,
                  cancelled: bool): Result<Pass, TacticalError>
    requires ValidObservation(o) && ValidBot(bot) && o.Entity().Some? && AllMeasured(body, objectives.candidates)
    requires s.random.Some? && s.reaction.Some? && IsFresh(s, o.snapshot.tick)
  {
    var released := if s.lease.Some? then Released else NoTarget;
    match objectives.disposition
    case Waiting =>
      var w :- if s.lease.Some? then Rearm(bot, o.snapshot.tick) else Success(s.reaction.value);
      Success(Pass(s.(reaction := Some(w), hold := released, reason := ObjectivesWaiting, lease := None,
                      heldDirection := None),
                   RequestThrust(o, bot.controller, ZERO_VECTOR)))
    case Finished =>
      Success(Pass(s.(hold := released, reason := ObjectivesFinished, lease := None,
                      heldDirection := Some(ZERO_VECTOR)),
                   RequestThrust(o, bot.controller, ZERO_VECTOR)))
    case Ready => PursueReady(bot, o, body, s, objectives.candidates, cancelled)
  }

  /** A pass over a running, dynamic, unstunned body of this controller's. */
  function DecideEligible(bot: Bot, o: Observation, s: State, body: PhysicsBody,
                          identity: BodyIdentity): Result<Pass, TacticalError>
    requires ValidObservation(o) && ValidBot(bot) && o.Entity().Some? && IsFresh(s, o.snapshot.tick) && SeedIsDrawn(s)
  {
    var now, started := o.snapshot.tick, o.snapshot.runningStarted;
    if started > now then Failure(RunningTickInvalid)
    else
      var known := Recognised(bot, s, identity, started);
      var armed :- Armed(bot, known, now);
      var objectives :- Collected(o, body, bot.profile.policy);
      CollectedIsMeasured(o, body, bot.profile.policy);
      Pursue(bot, o, body, armed.(work := objectives.work), objectives,
             s.heldDirection.Some? && IsNew(s, identity, started))
  }

  predicate SeedIsDrawn(s: State) {
    s.seededRunningTick.Some? <==> s.random.Some?
  }

  lemma CollectedIsMeasured(o: Observation, body: PhysicsBody, policy: Policy)
    requires ValidObservation(o) && ValidPolicy(policy) && Collected(o, body, policy).Success?
    ensures AllMeasured(body, Collected(o, body, policy).value.candidates)
  {
    hide SquaredMagnitude, EscapeRay, ScreenOf, Collected, ArenaDiagonal;
    CollectedIsSound(o, body, policy);
    ScreenMeasuresTheArena(o, body, policy);
    ScreenStartsAtTheBody(o, body, policy);
    forall c | c in Collected(o, body, policy).value.candidates ensures MeasuredFrom(body, c) {
      assert SoundScreened(ScreenOf(o, body, policy), c);
    }
  }

  function DecideNext(bot: Bot, o: Observation, s: State): Result<Pass, TacticalError>
    requires ValidObservation(o) && ValidBot(bot) && IsFresh(s, o.snapshot.tick) && SeedIsDrawn(s)
  {
    match StandingOf(o)
    case Bodiless => Success(Pass(ClearFor(s, AwaitingBody).(body := None, observedStun := false), []))
    case Uncontrollable => Success(Pass(ClearFor(s, NoControllableBody).(body := None, observedStun := false), []))
    case NotRunning =>
      Success(Pass(ClearFor(s, MatchNotRunning).(body := None, observedStun := false),
                   RequestThrust(o, bot.controller, ZERO_VECTOR)))
    case StunnedBody(identity) => Success(Pass(ClearFor(s, Stunned).(body := Some(identity), observedStun := true), []))
    case Eligible(body, identity) => DecideEligible(bot, o, s, body, identity)
  }

  /** The bot between passes: the base class's two memories and the tactical state. */
  datatype Brain = Brain(entity: Option<EntityId>, lastSpawnRequest: Option<Tick>, tactical: State)

  const INITIAL_BRAIN := Brain(None, None, INITIAL_STATE)

  /** A request still plausibly in flight is not repeated; anything else asks now. */
  function SpawnRequests(bot: Bot, last: Option<Tick>, o: Observation): seq<Command> {
    if o.Entity().Some? || SpawnIsInFlight(last, o.snapshot.tick) then [] else [Spawn(bot.controller)]
  }

  function SpawnMemory(last: Option<Tick>, o: Observation): Option<Tick> {
    if o.Entity().Some? then None else if SpawnIsInFlight(last, o.snapshot.tick) then last else Some(o.snapshot.tick)
  }

  predicate Accepts(s: State, o: Observation) {
    s.lastCompletedTick.None? || o.snapshot.tick > s.lastCompletedTick.value
  }

  datatype Outcome = Outcome(brain: Brain, result: Result<seq<Command>, TacticalError>)

  /** One observation put to the bot. A failed pass consumes nothing of the tactical state. */
  function Step(bot: Bot, b: Brain, o: Observation): Outcome
    requires ValidObservation(o) && ValidBot(bot) && SeedIsDrawn(b.tactical)
  {
    if o.controller != bot.controller then Outcome(b, Failure(ObservationControllerMismatch))
    else if !Accepts(b.tactical, o) then Outcome(b, Success([]))
    else
      match DecideNext(bot, o, b.tactical)
      case Failure(e) => Outcome(Brain(o.Entity(), SpawnMemory(b.lastSpawnRequest, o), b.tactical), Failure(e))
      case Success(pass) =>
        Outcome(Brain(o.Entity(), SpawnMemory(b.lastSpawnRequest, o),
                      pass.state.(lastCompletedTick := Some(o.snapshot.tick))),
                Success(SpawnRequests(bot, b.lastSpawnRequest, o) + pass.commands))
  }
}
