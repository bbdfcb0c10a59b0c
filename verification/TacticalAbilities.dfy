/** Whom a pass takes notice of and when it shields or charges, said in the published components' own numbers. */
module TacticalAbilities {
  import opened Wrappers
  import opened SeatRosters
  import opened Commands
  import opened PlaneArithmetic
  import opened Observations
  import opened TacticalCandidates
  import opened ShoveSetups
  import opened TacticalSteering
  import opened ArrivalBrakes
  import opened TacticalDecisions
  import opened TacticalInvariants
  import opened TacticalRuns
  import opened ObjectiveOffers
  import opened TacticalHeadings

  // ---------------------------------------------------------------- the body a pass is over

  /** The body published for this entity can move. */
  ghost predicate Drives(o: Observation, e: EntityId, b: PhysicsBody) {
    Entry(e, b) in o.snapshot.bodies && !b.isStatic
  }

  ghost predicate IsStunned(o: Observation, e: EntityId) {
    exists w :: Entry(e, w) in o.snapshot.stuns && w.activation <= o.snapshot.tick < w.expiry
  }

  ghost predicate HasGeneration(o: Observation, identity: BodyIdentity) {
    exists c :: Entry(identity.entity, c) in o.snapshot.controllables && c.generation == identity.generation
  }

  /** What an observation makes of the bot's body: none, one it cannot move, one it may not move yet, a stunned
      one, or one to decide for. */
  lemma StandingIsExact(o: Observation)
    requires ValidObservation(o)
    ensures var s, e := StandingOf(o), o.Entity();
      && (s.Bodiless? <==> e.None?)
      && (s.Uncontrollable? <==> e.Some? && forall b :: !Drives(o, e.value, b))
      && (s.NotRunning? <==> e.Some? && (exists b :: Drives(o, e.value, b)) && o.snapshot.phase != Running)
      && (s.StunnedBody? <==>
            && e.Some? && (exists b :: Drives(o, e.value, b)) && o.snapshot.phase == Running
            && IsStunned(o, e.value))
      && (s.Eligible? <==>
            && e.Some? && (exists b :: Drives(o, e.value, b)) && o.snapshot.phase == Running
            && !IsStunned(o, e.value))
      && (s.Eligible? ==>
            && Drives(o, e.value, s.body) && s.identity.entity == e.value && HasGeneration(o, s.identity))
      && (s.StunnedBody? ==> s.identity.entity == e.value && HasGeneration(o, s.identity))
  {
    if o.Entity().Some? {
      var e := o.Entity().value;
      var x :| x in o.snapshot.controllables && x.entity == e && x.value.controllerId == o.controller;
      StoreAnswers(o.snapshot.bodies, e);
      StoreAnswers(o.snapshot.controllables, e);
      StoreAnswers(o.snapshot.stuns, e);
      forall b | Entry(e, b) in o.snapshot.bodies ensures Find(o.snapshot.bodies, e) == Some(b) {
        FindIsUnique(o.snapshot.bodies, Entry(e, b));
      }
      forall w | Entry(e, w) in o.snapshot.stuns ensures Find(o.snapshot.stuns, e) == Some(w) {
        FindIsUnique(o.snapshot.stuns, Entry(e, w));
      }
      var body := Find(o.snapshot.bodies, e);
      if body.Some? && !body.value.isStatic { assert Drives(o, e, body.value); }
      assert HasGeneration(o, BodyIdentity(e, Find(o.snapshot.controllables, e).value.generation));
    }
  }

  /** A command may be authored exactly by the body's own controller, for a body that can move and is not
      stunned, and carries the generation published with it. */
  lemma CommandableIsExact(o: Observation, controller: ControllerId)
    requires ValidObservation(o)
    ensures var r, e := Commandable(o, controller), o.Entity();
      && (r.Some? <==>
            o.controller == controller && e.Some? && (exists b :: Drives(o, e.value, b)) && !IsStunned(o, e.value))
      && (r.Some? ==> HasGeneration(o, BodyIdentity(e.value, r.value)))
  {
    hide OwnGeneration, Drives;
    StandingIsExact(o);
    if o.controller == controller && o.Entity().Some? {
      var e := o.Entity().value;
      OwnGenerationIsPublished(o.snapshot.controllables, e, controller);
      assert Entry(e, Find(o.snapshot.controllables, e).value) in o.snapshot.controllables;
      BodyIsDriven(o, e);
      assert IsStunned(o, e) <==>
        exists x :: x in o.snapshot.stuns && x.entity == e && x.value.Contains(o.snapshot.tick);
    }
  }

  lemma BodyIsDriven(o: Observation, e: EntityId)
    requires ValidObservation(o)
    ensures var body := Find(o.snapshot.bodies, e);
      (exists b :: Drives(o, e, b)) <==> body.Some? && !body.value.isStatic
  {
    var body := Find(o.snapshot.bodies, e);
    if body.Some? && !body.value.isStatic { assert Drives(o, e, body.value); }
    forall b | Entry(e, b) in o.snapshot.bodies ensures Find(o.snapshot.bodies, e) == Some(b) {
      FindIsUnique(o.snapshot.bodies, Entry(e, b));
    }
  }

  // ---------------------------------------------------------------- the two pulses' windows

  /** A shield cannot be raised while one protects or before its cooldown is over. */
  ghost predicate ShieldIsBarred(o: Observation, e: EntityId) {
    exists w :: Entry(e, w) in o.snapshot.shields &&
      (w.protection.activation <= o.snapshot.tick < w.protection.expiry || o.snapshot.tick < w.cooldown.expiry)
  }

  /** A charge cannot be sent from behind a shield or before its own cooldown is over. */
  ghost predicate ChargeIsBarred(o: Observation, e: EntityId) {
    || (exists w :: Entry(e, w) in o.snapshot.shields &&
          w.protection.activation <= o.snapshot.tick < w.protection.expiry)
    || (exists w :: Entry(e, w) in o.snapshot.chargeCooldowns && o.snapshot.tick < w.expiry)
  }

  lemma PulsesAreBarredByTheirWindows(o: Observation, e: EntityId)
    requires ValidObservation(o)
    ensures ShieldRefused(o.snapshot, e, o.snapshot.tick) <==> ShieldIsBarred(o, e)
    ensures ChargeRefused(o.snapshot, e, o.snapshot.tick) <==> ChargeIsBarred(o, e)
  {
    StoreAnswers(o.snapshot.shields, e);
    StoreAnswers(o.snapshot.chargeCooldowns, e);
    forall w | Entry(e, w) in o.snapshot.shields ensures Find(o.snapshot.shields, e) == Some(w) {
      FindIsUnique(o.snapshot.shields, Entry(e, w));
    }
    forall w | Entry(e, w) in o.snapshot.chargeCooldowns ensures Find(o.snapshot.chargeCooldowns, e) == Some(w) {
      FindIsUnique(o.snapshot.chargeCooldowns, Entry(e, w));
    }
  }

  // ---------------------------------------------------------------- somebody closing

  /** Each going on as it goes, the two touch after this many ticks. */
  predicate Touches(self: PhysicsBody, other: PhysicsBody, ticks: nat) {
    var t := ticks as real / 400.0;
    var x := other.position.x + other.velocity.x * t - (self.position.x + self.velocity.x * t);
    var y := other.position.y + other.velocity.y * t - (self.position.y + self.velocity.y * t);
    x * x + y * y <= (self.radius + other.radius) * (self.radius + other.radius)
  }

  ghost predicate SomebodyCloses(o: Observation, self: PhysicsBody, ticks: nat) {
    ticks > 0 && exists e: EntityId, b: PhysicsBody :: IsRival(o, e, b) && Touches(self, b, ticks)
  }

  lemma ClosingIsTouching(self: PhysicsBody, other: PhysicsBody, ticks: nat)
    ensures Closes(self, other, ticks) <==> Touches(self, other, ticks)
  {
    var t := ticks as real / 400.0;
    assert ticks as real * FIXED_DELTA == t;
    var off := Offset(Carried(self, t), Carried(other, t));
    InComponents(off);
    SquareIsProduct(self.radius + other.radius);
    assert off.x == other.position.x + other.velocity.x * t - (self.position.x + self.velocity.x * t);
    assert off.y == other.position.y + other.velocity.y * t - (self.position.y + self.velocity.y * t);
  }

  lemma ClosingIsSomebodyClosing(o: Observation, self: PhysicsBody, policy: Policy)
    requires ValidObservation(o)
    ensures OpponentCloses(o, self, policy) <==> SomebodyCloses(o, self, policy.shieldAnticipationTicks)
  {
    hide Closes, Touches;
    var ticks, joined := policy.shieldAnticipationTicks, Join(o.snapshot.bodies, o.snapshot.controllables);
    JoinIsExact(o.snapshot.bodies, o.snapshot.controllables);
    if OpponentCloses(o, self, policy) {
      var x :| x in joined && IsOpponent(o, x.1, x.2) && Closes(self, x.1, ticks);
      ClosingIsTouching(self, x.1, ticks);
      assert Entry(x.0, x.2) in o.snapshot.controllables && IsRival(o, x.0, x.1);
    }
    if SomebodyCloses(o, self, ticks) {
      var e: EntityId, b: PhysicsBody :| IsRival(o, e, b) && Touches(self, b, ticks);
      var c :| Entry(e, c) in o.snapshot.controllables && c.controllerId != o.controller;
      ClosingIsTouching(self, b, ticks);
      assert (e, b, c) in joined && IsOpponent(o, b, c);
    }
  }

  // ---------------------------------------------------------------- a charge's own screens

  /** Motion across the way from one point to another, times the length of the way. */
  function Sideways(v: Vector2, a: Vector2, b: Vector2): real {
    v.y * (b.x - a.x) - v.x * (b.y - a.y)
  }

  /** The motion across the way to the opponent is at most half the published top speed. */
  predicate AlignedOver(o: Observation, self: PhysicsBody, at: Vector2, d: real) {
    && d > 0.0 && IsLength(d, self.position, at)
    && Absolute(Sideways(self.velocity, self.position, at)) <= d * (o.snapshot.normalTopSpeed / 2.0)
  }

  ghost predicate IsAligned(o: Observation, self: PhysicsBody, at: Vector2) {
    exists d :: AlignedOver(o, self, at, d)
  }

  lemma AlignmentOverItsLength(o: Observation, self: PhysicsBody, opponent: PhysicsBody)
    requires IsSquareRoot(o.geometry.root)
    ensures ChargeAligned(o, self, opponent) <==>
      AlignedOver(o, self, opponent.position, Magnitude(o.geometry, Offset(self.position, opponent.position)))
  {
    hide IsSquareRoot, Magnitude, IsLength, Across, Sideways;
    var a, b := self.position, opponent.position;
    var d := Magnitude(o.geometry, Offset(a, b));
    MagnitudeIsLength(o.geometry, a, b);
    LengthIsPositive(d, a, b);
    if d > 0.0 {
      AcrossIsScaled(self.velocity, a, b, d);
      ScaledBound(Across(self.velocity, Scaled(Offset(a, b), d)), o.snapshot.normalTopSpeed / 2.0, d);
    }
  }

  lemma AlignmentIsHalfTheTopSpeed(o: Observation, self: PhysicsBody, opponent: PhysicsBody)
    requires IsSquareRoot(o.geometry.root)
    ensures ChargeAligned(o, self, opponent) <==> IsAligned(o, self, opponent.position)
  {
    hide IsSquareRoot, Magnitude, IsLength, Absolute, ChargeAligned;
    var d := Magnitude(o.geometry, Offset(self.position, opponent.position));
    AlignmentOverItsLength(o, self, opponent);
    MagnitudeIsLength(o.geometry, self.position, opponent.position);
    if IsAligned(o, self, opponent.position) {
      var e :| AlignedOver(o, self, opponent.position, e);
      LengthIsUnique(d, e, self.position, opponent.position);
    }
  }

  lemma AcrossIsScaled(v: Vector2, a: Vector2, b: Vector2, d: real)
    requires d > 0.0
    ensures Sideways(v, a, b) == d * Across(v, Scaled(Offset(a, b), d))
  {
    var x, y := (b.x - a.x) / d, (b.y - a.y) / d;
    assert b.x - a.x == x * d && b.y - a.y == y * d;
    CommonFactor(v.x, v.y, x, y, d);
  }

  lemma CommonFactor(a: real, b: real, x: real, y: real, d: real)
    ensures b * (x * d) - a * (y * d) == d * (a * -y + b * x)
  {
  }

  lemma ScaledBound(p: real, most: real, d: real)
    requires d > 0.0
    ensures Absolute(p) <= most <==> Absolute(d * p) <= d * most
  {
    var q := Absolute(p);
    if p >= 0.0 { ProductSign(p, d); } else { ProductSign(-p, d); }
    assert Absolute(d * p) == d * q;
    TimesSign(most - q, d);
    TimesSign(q - most, d);
    assert (most - q) * d == d * most - d * q;
  }

  /** So long is the ray a profile screens: this fraction of the arena's diagonal. */
  ghost predicate IsScreenLength(o: Observation, fraction: real, long: real) {
    exists across ::
      IsLength(across, ZERO_VECTOR, Vector2(o.geometry.width, o.geometry.height)) && long == across * fraction
  }

  /** The ray that long from one point toward another, a way off from it. */
  ghost predicate IsRay(a: Vector2, b: Vector2, d: real, long: real, ray: Vector2) {
    d > 0.0 && IsLength(d, a, b) && ray.x * d == (b.x - a.x) * long && ray.y * d == (b.y - a.y) * long
  }

  /** The ground along it does not end, or ends no sooner than the opponent's near side; a ray of no length
      says nothing against it. */
  predicate EndsBeyond(o: Observation, self: PhysicsBody, opponent: PhysicsBody, long: real, d: real, ray: Vector2) {
    || long <= 0.0
    || (&& Representable(ray)
        && var end := o.geometry.firstSupportExit(self.position, ray);
           end.None? || end.value > (d - self.radius - opponent.radius) / long)
  }

  ghost predicate GroundReachesAlong(o: Observation, self: PhysicsBody, opponent: PhysicsBody, d: real, long: real,
                                     ray: Vector2)
  {
    IsRay(self.position, opponent.position, d, long, ray) && EndsBeyond(o, self, opponent, long, d, ray)
  }

  ghost predicate GroundReaches(o: Observation, self: PhysicsBody, opponent: PhysicsBody, fraction: real) {
    exists d: real, long: real, ray: Vector2 ::
      IsScreenLength(o, fraction, long) && GroundReachesAlong(o, self, opponent, d, long, ray)
  }

  /** The ray a profile screens, if it has any length, ends where the simulation cannot hold a point. */
  ghost predicate RayLeavesTheDomain(o: Observation, a: Vector2, b: Vector2, fraction: real) {
    exists d: real, long: real, ray: Vector2 ::
      IsScreenLength(o, fraction, long) && IsRay(a, b, d, long, ray) && long > 0.0 && !InDomain(ray)
  }

  lemma RayIsUnique(a: Vector2, b: Vector2, long: real, d: real, ray: Vector2, d': real, ray': Vector2)
    requires IsRay(a, b, d, long, ray) && IsRay(a, b, d', long, ray')
    ensures d == d' && ray == ray'
  {
    hide IsLength;
    LengthIsUnique(d, d', a, b);
    CancelFactor(ray.x, ray'.x, d);
    CancelFactor(ray.y, ray'.y, d);
    assert ray == Vector2(ray.x, ray.y) && ray' == Vector2(ray'.x, ray'.y);
  }

  lemma ScreenLengthIsUnique(o: Observation, fraction: real, long: real, long': real)
    requires IsScreenLength(o, fraction, long) && IsScreenLength(o, fraction, long')
    ensures long == long'
  {
    hide IsLength;
    var corner := Vector2(o.geometry.width, o.geometry.height);
    var x :| IsLength(x, ZERO_VECTOR, corner) && long == x * fraction;
    var y :| IsLength(y, ZERO_VECTOR, corner) && long' == y * fraction;
    LengthIsUnique(x, y, ZERO_VECTOR, corner);
  }

  function RayToward(a: Vector2, b: Vector2, d: real, long: real): Vector2
    requires d != 0.0
  {
    Lengthened(Scaled(Offset(a, b), d), long)
  }

  lemma RayIsAlong(a: Vector2, b: Vector2, d: real, long: real)
    requires d > 0.0
    ensures RayToward(a, b, d, long).x * d == (b.x - a.x) * long && RayToward(a, b, d, long).y * d == (b.y - a.y) * long
  {
    var x, y := (b.x - a.x) / d, (b.y - a.y) / d;
    assert x * d == b.x - a.x && y * d == b.y - a.y;
    assert x * long * d == (x * d) * long && y * long * d == (y * d) * long;
  }

  lemma RayIsThere(g: Geometry, a: Vector2, b: Vector2, long: real)
    requires IsSquareRoot(g.root) && a != b
    ensures var d := Magnitude(g, Offset(a, b));
      d > 0.0 && IsRay(a, b, d, long, RayToward(a, b, d, long))
  {
    hide IsSquareRoot, Magnitude, IsLength;
    MagnitudeIsLength(g, a, b);
    LengthIsPositive(Magnitude(g, Offset(a, b)), a, b);
    RayIsAlong(a, b, Magnitude(g, Offset(a, b)), long);
  }

  lemma ScreenLengthIs(o: Observation, fraction: real)
    requires IsSquareRoot(o.geometry.root)
    ensures IsScreenLength(o, fraction, ScreenLength(o.geometry, fraction))
  {
    hide IsSquareRoot, IsLength;
    var corner := Vector2(o.geometry.width, o.geometry.height);
    MagnitudeIsLength(o.geometry, ZERO_VECTOR, corner);
    assert Offset(ZERO_VECTOR, corner) == corner;
    assert IsLength(ArenaDiagonal(o.geometry), ZERO_VECTOR, corner);
  }

  lemma ScreenAlongTheRay(o: Observation, self: PhysicsBody, opponent: PhysicsBody, policy: Policy)
    requires Magnitude(o.geometry, Offset(self.position, opponent.position)) > 0.0
    ensures var d := Magnitude(o.geometry, Offset(self.position, opponent.position));
      var long := ScreenLength(o.geometry, policy.chargeScreenDiagonalFraction);
      ChargeScreened(o, self, opponent, policy) == Success(true) <==>
        EndsBeyond(o, self, opponent, long, d, RayToward(self.position, opponent.position, d, long))
    ensures var d := Magnitude(o.geometry, Offset(self.position, opponent.position));
      var long := ScreenLength(o.geometry, policy.chargeScreenDiagonalFraction);
      ChargeScreened(o, self, opponent, policy) == Failure(VectorOutOfRange) <==>
        long > 0.0 && !InDomain(RayToward(self.position, opponent.position, d, long))
  {
    hide Magnitude, ScreenLength, Lengthened, Scaled;
  }

  lemma ScreenIsTheGround(o: Observation, self: PhysicsBody, opponent: PhysicsBody, policy: Policy)
    requires IsSquareRoot(o.geometry.root) && self.position != opponent.position
    ensures ChargeScreened(o, self, opponent, policy) == Success(true) <==>
      GroundReaches(o, self, opponent, policy.chargeScreenDiagonalFraction)
    ensures ChargeScreened(o, self, opponent, policy) == Failure(VectorOutOfRange) <==>
      RayLeavesTheDomain(o, self.position, opponent.position, policy.chargeScreenDiagonalFraction)
  {
    hide IsSquareRoot, Magnitude, IsRay, EndsBeyond, ChargeScreened, RayToward, ScreenLength, IsScreenLength, InDomain;
    var a, b, fraction := self.position, opponent.position, policy.chargeScreenDiagonalFraction;
    var d, long := Magnitude(o.geometry, Offset(a, b)), ScreenLength(o.geometry, fraction);
    RayIsThere(o.geometry, a, b, long);
    ScreenLengthIs(o, fraction);
    ScreenAlongTheRay(o, self, opponent, policy);
    var ray := RayToward(a, b, d, long);
    if GroundReaches(o, self, opponent, fraction) {
      var d', long', ray' :| IsScreenLength(o, fraction, long')
        && GroundReachesAlong(o, self, opponent, d', long', ray');
      ScreenLengthIsUnique(o, fraction, long, long');
      RayIsUnique(a, b, long, d, ray, d', ray');
    }
    if ChargeScreened(o, self, opponent, policy) == Success(true) {
      assert GroundReachesAlong(o, self, opponent, d, long, ray);
    }
    if RayLeavesTheDomain(o, a, b, fraction) {
      var d', long', ray' :|
        IsScreenLength(o, fraction, long') && IsRay(a, b, d', long', ray') && long' > 0.0 && !InDomain(ray');
      ScreenLengthIsUnique(o, fraction, long, long');
      RayIsUnique(a, b, long, d, ray, d', ray');
    }
  }

  // ---------------------------------------------------------------- what a pass sends

  /** Somebody to charge at: the shove target's body as published, somewhere else, along the bot's motion and
      over ground, with the bot's own windows open. */
  ghost predicate ChargesAt(o: Observation, self: PhysicsBody, e: EntityId, c: Candidate, policy: Policy,
                            b: PhysicsBody)
  {
    && c.key.kind == ShoveSetup && Entry(c.key.subject, b) in o.snapshot.bodies && b.position != self.position
    && IsAligned(o, self, b.position) && GroundReaches(o, self, b, policy.chargeScreenDiagonalFraction)
    && !ChargeIsBarred(o, e)
  }

  lemma MayChargeIsChargesAt(bot: Bot, o: Observation, self: PhysicsBody, e: EntityId, c: Candidate, b: PhysicsBody)
    requires ValidObservation(o) && o.Entity() == Some(e)
    ensures ChargesAt(o, self, e, c, bot.profile.policy, b) <==>
      MayCharge(bot, o, self, c) && ShoveOpponentBody(o.snapshot, c).value == b
  {
    hide IsAligned, GroundReaches, ChargeIsBarred, ChargeAligned, ChargeScreened, ChargeRefused, IsSquareRoot;
    StoreAnswers(o.snapshot.bodies, c.key.subject);
    if Entry(c.key.subject, b) in o.snapshot.bodies { FindIsUnique(o.snapshot.bodies, Entry(c.key.subject, b)); }
    PulsesAreBarredByTheirWindows(o, e);
    if b.position != self.position {
      AlignmentIsHalfTheTopSpeed(o, self, b);
      ScreenIsTheGround(o, self, b, bot.profile.policy);
    }
  }

  /** The commands of one acting pass, for the body and generation it sees: first the thrust it moves by, and
      then a shield exactly when some rival closes to contact inside the profile's window and no window bars
      it; or a charge, a full thrust straight at the opponent, exactly when none closes and there is somebody
      to charge at; and nothing else. */
  lemma ActingPassCommands(bot: Bot, b: Brain, o: Observation)
    requires ValidObservation(o) && ValidBot(bot) && Coherent(bot, b.tactical) && Acts(bot, b, o)
    requires StandingOf(o).Eligible?
    ensures var n, body, identity := Step(bot, b, o), StandingOf(o).body, StandingOf(o).identity;
      var commands, policy := n.result.value, bot.profile.policy;
      var closing := SomebodyCloses(o, body, policy.shieldAnticipationTicks);
      && n.brain.tactical.lease.Some? && n.brain.tactical.heldDirection.Some? && 1 <= |commands| <= 2
      && commands[0] == Thrust(identity.entity, n.brain.tactical.heldDirection.value, identity.generation)
      && (|commands| == 2 ==> commands[1].Shield? || commands[1].Charge?)
      && (|commands| == 2 && commands[1].Shield? <==> closing && !ShieldIsBarred(o, identity.entity))
      && (|commands| == 2 && commands[1].Shield? ==>
            commands[1] == Command.Shield(identity.entity, identity.generation))
      && var c := n.brain.tactical.lease.value.candidate;
         && (|commands| == 2 && commands[1].Charge? <==>
               !closing && exists x :: ChargesAt(o, body, identity.entity, c, policy, x))
         && (|commands| == 2 && commands[1].Charge? ==>
               forall x :: ChargesAt(o, body, identity.entity, c, policy, x) ==>
                 && commands[1] == Charge(identity.entity, commands[1].direction, identity.generation)
                 && HeadsFor(commands[1].direction, Offset(body.position, x.position), 0.0))
  {
    hide Step, StandingOf, MovesOn, RequestAbility, SomebodyCloses, ShieldIsBarred, ChargesAt, MayCharge, HeadsFor,
      ValidObservation, ValidBot, Coherent, Acts, ShoveOpponentBody, Commandable;
    ActingPassHeadsForItsTarget(bot, b, o);
    EligibleCanBeCommanded(bot, b, o);
    SeedsAreDrawn(bot, b);
    var body, identity, c := StandingOf(o).body, StandingOf(o).identity,
                             Step(bot, b, o).brain.tactical.lease.value.candidate;
    AbilityIsExact(bot, o, body, c, identity);
    assert Step(bot, b, o).result.Success? by { ActingSucceeds(bot, b, o); }
    var commands, ability := Step(bot, b, o).result.value, RequestAbility(bot, o, body, c).value.commands;
    var thrust := Step(bot, b, o).brain.tactical.heldDirection.value;
    assert commands == [Thrust(identity.entity, thrust, identity.generation)] + ability;
    if |commands| == 2 { assert commands[1] == ability[0] && ability[0] in ability; }
  }

  lemma ActingSucceeds(bot: Bot, b: Brain, o: Observation)
    requires ValidObservation(o) && ValidBot(bot) && SeedIsDrawn(b.tactical) && Acts(bot, b, o)
    ensures Step(bot, b, o).result.Success?
  {
    hide Step;
  }

  lemma SeedsAreDrawn(bot: Bot, b: Brain)
    requires Coherent(bot, b.tactical)
    ensures SeedIsDrawn(b.tactical)
  {
  }

  lemma EligibleCanBeCommanded(bot: Bot, b: Brain, o: Observation)
    requires ValidObservation(o) && ValidBot(bot) && Coherent(bot, b.tactical) && Acts(bot, b, o)
    requires StandingOf(o).Eligible?
    ensures IsSquareRoot(o.geometry.root) && o.Entity() == Some(StandingOf(o).identity.entity)
    ensures Commandable(o, bot.controller) == Some(StandingOf(o).identity.generation)
  {
    hide StandingOf, Commandable, Step;
    EligibleIsCommandable(bot, o);
  }

  lemma AbilityIsExact(bot: Bot, o: Observation, body: PhysicsBody, c: Candidate, identity: BodyIdentity)
    requires ValidObservation(o) && o.Entity() == Some(identity.entity)
    requires Commandable(o, bot.controller) == Some(identity.generation)
    requires RequestAbility(bot, o, body, c).Success?
    ensures var commands, policy := RequestAbility(bot, o, body, c).value.commands, bot.profile.policy;
      var closing := SomebodyCloses(o, body, policy.shieldAnticipationTicks);
      && |commands| <= 1 && (forall x :: x in commands ==> IsAbility(x, identity))
      && (|commands| == 1 ==> commands[0].Shield? || commands[0].Charge?)
      && (|commands| == 1 && commands[0].Shield? <==> closing && !ShieldIsBarred(o, identity.entity))
      && (|commands| == 1 && commands[0].Charge? <==>
            !closing && exists x :: ChargesAt(o, body, identity.entity, c, policy, x))
      && (|commands| == 1 && commands[0].Charge? ==>
            forall x :: ChargesAt(o, body, identity.entity, c, policy, x) ==>
              HeadsFor(commands[0].direction, Offset(body.position, x.position), 0.0))
  {
    hide RequestAbility, SomebodyCloses, ShieldIsBarred, ChargesAt, MayCharge, HeadsFor, OpponentCloses, ShieldRefused,
      ShoveOpponentBody, ChargeRefused, Commandable, IsSquareRoot, Along, IsUnit, ValidStore, Magnitude;
    var commands := RequestAbility(bot, o, body, c).value.commands;
    AbilityIsOne(bot, o, body, c, identity);
    AbilityIsJustified(bot, o, body, c, identity);
    ClosingIsSomebodyClosing(o, body, bot.profile.policy);
    PulsesAreBarredByTheirWindows(o, identity.entity);
    if MayCharge(bot, o, body, c) {
      QuarryIsPublished(bot, o, body, c);
      MayChargeIsChargesAt(bot, o, body, identity.entity, c, ShoveOpponentBody(o.snapshot, c).value);
    }
    forall x | ChargesAt(o, body, identity.entity, c, bot.profile.policy, x)
      ensures MayCharge(bot, o, body, c) && ShoveOpponentBody(o.snapshot, c) == Some(x)
    {
      MayChargeIsChargesAt(bot, o, body, identity.entity, c, x);
      if MayCharge(bot, o, body, c) { QuarryIsPublished(bot, o, body, c); }
    }
    assert |commands| == 1 ==> commands[0] in commands;
    if |commands| == 1 && commands[0].Charge? {
      StraightAt(o.geometry, Offset(body.position, ShoveOpponentBody(o.snapshot, c).value.position),
                 commands[0].direction);
    }
  }

  lemma QuarryIsPublished(bot: Bot, o: Observation, body: PhysicsBody, c: Candidate)
    requires IsSquareRoot(o.geometry.root) && o.Entity().Some? && MayCharge(bot, o, body, c)
    ensures ShoveOpponentBody(o.snapshot, c).Some?
    ensures Offset(body.position, ShoveOpponentBody(o.snapshot, c).value.position) != ZERO_VECTOR
  {
    OffsetIsZeroOnlyThere(body.position, ShoveOpponentBody(o.snapshot, c).value.position);
  }

  /** A unit direction that makes the whole length of a way along it has no sideways part. */
  lemma StraightAt(g: Geometry, off: Vector2, thrust: Vector2)
    requires IsSquareRoot(g.root) && off != ZERO_VECTOR && IsUnit(thrust) && Along(off, thrust) == Magnitude(g, off)
    ensures HeadsFor(thrust, off, 0.0)
  {
    hide IsSquareRoot, Square, SquaredMagnitude, Magnitude;
    MagnitudeIsPositive(g, off);
    InComponents(thrust);
    InComponents(off);
    SquareIsProduct(Magnitude(g, off));
    LagrangeIdentity(off.x, off.y, thrust.x, thrust.y);
    var left := off.x * thrust.y - off.y * thrust.x;
    assert left * left == 0.0;
    SquareIsProduct(left);
    SquareIsPositive(left);
  }
}
