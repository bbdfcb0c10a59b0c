/** Encoding a client command and decoding it back, and what every accepted command carries. */
module CommandRoundTrips {
  import opened Wrappers
  import opened SeatRosters
  import opened BotRosters
  import opened CommandDecoding
  import opened CommandSchemas

  function KindOfCommand(c: ClientCommand): Kind {
    match c
    case SetThrust(_, _, _, _, _) => SetThrustKind
    case Shield(_, _) => ShieldKind
    case Charge(_, _, _, _) => ChargeKind
    case RotateVelocity(_, _, _) => RotateVelocityKind
    case SetSeatCount(_, _) => SetSeatCountKind
    case ClearSeat(_, _) => ClearSeatKind
    case SeatNpc(_, _, _, _) => SeatNpcKind
    case StartMatch(_) => StartMatchKind
    case SetMovementTuning(_, _, _, _, _, _, _, _) => SetMovementTuningKind
  }

  /** The command names the session's own body or the session's own identity. */
  predicate Stamped(c: ClientCommand, stamp: Stamp) {
    match c
    case SetThrust(entity, _, _, _, _) => entity == stamp.entity
    case Shield(entity, _) => entity == stamp.entity
    case Charge(entity, _, _, _) => entity == stamp.entity
    case RotateVelocity(entity, _, _) => entity == stamp.entity
    case SetSeatCount(controller, _) => controller == stamp.controller
    case ClearSeat(controller, _) => controller == stamp.controller
    case SeatNpc(controller, _, _, _) => controller == stamp.controller
    case StartMatch(controller) => controller == stamp.controller
    case SetMovementTuning(controller, _, _, _, _, _, _, _) => controller == stamp.controller
  }

  predicate GenerationInRange(g: Option<int>) {
    g.Some? ==> 1 <= g.value <= 9_007_199_254_740_991
  }

  predicate InRange(c: ClientCommand, catalogue: Catalogue) {
    match c
    case SetThrust(_, x, y, g, _) => -1.0 <= x <= 1.0 && -1.0 <= y <= 1.0 && GenerationInRange(g)
    case Shield(_, g) => GenerationInRange(g)
    case Charge(_, x, y, g) => -1.0 <= x <= 1.0 && -1.0 <= y <= 1.0 && GenerationInRange(g)
    case RotateVelocity(_, _, g) => GenerationInRange(g)
    case SetSeatCount(_, n) => 1 <= n <= 64
    case ClearSeat(_, i) => 0 <= i <= 63
    case SeatNpc(_, i, kind, profile) =>
      0 <= i <= 63 && NpcDeclaration(kind, profile) in catalogue && IsKindName(kind)
    case StartMatch(_) => true
    case SetMovementTuning(_, id, revision, a, v, charge, lethal, nonlethal) =>
      && 1 <= id <= 9_007_199_254_740_991 && 0 <= revision <= 9_007_199_254_740_991
      && 0.0 <= a <= 10_000.0 && 1.0 <= v <= 10_000.0
      && 0.0 <= charge <= 100_000_000.0 && 0.0 <= lethal <= 5.0
      && 0.0 <= nonlethal <= 5.0
  }

  function WithGeneration(m: Members, g: Option<int>): Members {
    if g.Some? then m["input_generation" := Int64(g.value)] else m
  }

  function WithBraking(m: Members, braking: bool): Members {
    if braking then m["braking" := Bool(true)] else m
  }

  /** A command's payload, the optional members left out when there is nothing to say. */
  function EncodePayload(c: ClientCommand): Members {
    match c
    case SetThrust(_, x, y, g, braking) =>
      WithBraking(WithGeneration(map["x" := Double(x), "y" := Double(y)], g), braking)
    case Shield(_, g) => map["input_generation" := if g.Some? then Int64(g.value) else Null]
    case Charge(_, x, y, g) => WithGeneration(map["x" := Double(x), "y" := Double(y)], g)
    case RotateVelocity(_, right, g) => WithGeneration(map["direction" := Text(if right then "right" else "left")], g)
    case SetSeatCount(_, n) => map["seat_count" := Int64(n)]
    case ClearSeat(_, i) => map["seat_index" := Int64(i)]
    case SeatNpc(_, i, kind, profile) =>
      var m := map["seat_index" := Int64(i), "npc_kind" := Text(kind)];
      if profile.Some? then m["profile_name" := Text(profile.value)] else m
    case StartMatch(_) => map[]
    case SetMovementTuning(_, id, revision, a, v, charge, lethal, nonlethal) =>
      map["tuning_request_id" := Int64(id), "expected_revision" := Int64(revision),
          ACCELERATION_KEY := Double(a), SPEED_KEY := Double(v), "charge_speed_fraction" := Double(charge),
          "lethal_spawn_rate_per_second" := Double(lethal), "nonlethal_spawn_rate_per_second" := Double(nonlethal)]
  }

  // ---------------------------------------------------------------- round trips, kind by kind

  lemma ThrustPayload(c: ClientCommand)
    requires c.SetThrust?
    ensures var m := EncodePayload(c);
      && |m| == 2 + (if c.generation.Some? then 1 else 0) + (if c.braking then 1 else 0)
      && "x" in m && m["x"] == Double(c.x) && "y" in m && m["y"] == Double(c.y)
      && ("input_generation" in m <==> c.generation.Some?)
      && (c.generation.Some? ==> m["input_generation"] == Int64(c.generation.value))
      && ("braking" in m <==> c.braking) && (c.braking ==> m["braking"] == Bool(true))
  {
    hide WithGeneration, WithBraking;
    var base := map["x" := Double(c.x), "y" := Double(c.y)];
    assert base.Keys == {"x", "y"};
    TwoKeys(base, "x", "y");
    GenerationAdds(base, c.generation);
    BrakingAdds(WithGeneration(base, c.generation), c.braking);
  }

  lemma GenerationAdds(m: Members, g: Option<int>)
    requires "input_generation" !in m
    ensures var n := WithGeneration(m, g);
      && |n| == |m| + (if g.Some? then 1 else 0)
      && ("input_generation" in n <==> g.Some?) && (g.Some? ==> n["input_generation"] == Int64(g.value))
      && (forall key :: key != "input_generation" ==> (key in n <==> key in m))
      && (forall key :: key in m ==> n[key] == m[key])
  {
    var n := WithGeneration(m, g);
    if g.Some? { assert n.Keys == m.Keys + {"input_generation"} && |n| == |n.Keys|; }
  }

  lemma BrakingAdds(m: Members, braking: bool)
    requires "braking" !in m
    ensures var n := WithBraking(m, braking);
      && |n| == |m| + (if braking then 1 else 0)
      && ("braking" in n <==> braking) && (braking ==> n["braking"] == Bool(true))
      && (forall key :: key != "braking" ==> (key in n <==> key in m))
      && (forall key :: key in m ==> n[key] == m[key])
  {
    var n := WithBraking(m, braking);
    if braking { assert n.Keys == m.Keys + {"braking"} && |n| == |n.Keys|; }
  }

  lemma ThrustReadsBack(c: ClientCommand, catalogue: Catalogue)
    requires c.SetThrust? && InRange(c, catalogue)
    ensures DecodeSetThrust(EncodePayload(c), c.entity) == Success(c)
  {
    hide EncodePayload;
    ThrustPayload(c);
  }

  lemma ChargePayload(c: ClientCommand)
    requires c.Charge?
    ensures var m := EncodePayload(c);
      && |m| == 2 + (if c.generation.Some? then 1 else 0)
      && "x" in m && m["x"] == Double(c.x) && "y" in m && m["y"] == Double(c.y)
      && ("input_generation" in m <==> c.generation.Some?)
      && (c.generation.Some? ==> m["input_generation"] == Int64(c.generation.value))
  {
    hide WithGeneration;
    var base := map["x" := Double(c.x), "y" := Double(c.y)];
    assert base.Keys == {"x", "y"};
    TwoKeys(base, "x", "y");
    GenerationAdds(base, c.generation);
  }

  lemma ChargeReadsBack(c: ClientCommand, catalogue: Catalogue)
    requires c.Charge? && InRange(c, catalogue)
    ensures DecodeCharge(EncodePayload(c), c.entity) == Success(c)
  {
    hide EncodePayload;
    ChargePayload(c);
  }

  lemma RotationReadsBack(c: ClientCommand, catalogue: Catalogue)
    requires c.RotateVelocity? && InRange(c, catalogue)
    ensures DecodeRotateVelocity(EncodePayload(c), c.entity) == Success(c)
  {
    var m := EncodePayload(c);
    assert m.Keys == {"direction"} + if c.generation.Some? then {"input_generation"} else {};
    if c.generation.Some? { TwoKeys(m, "direction", "input_generation"); } else { OneKey(m, "direction"); }
  }

  lemma SeatNpcReadsBack(c: ClientCommand, catalogue: Catalogue)
    requires c.SeatNpc? && InRange(c, catalogue)
    ensures DecodeSeatNpc(EncodePayload(c), c.controller, catalogue) == Success(c)
  {
    hide IsKindName;
    var m := EncodePayload(c);
    assert m.Keys == {"seat_index", "npc_kind"} + if c.profile.Some? then {"profile_name"} else {};
    if c.profile.Some? {
      ThreeKeys(m, "seat_index", "npc_kind", "profile_name");
    } else {
      TwoKeys(m, "seat_index", "npc_kind");
    }
  }

  lemma SmallPayloadsReadBack(c: ClientCommand, catalogue: Catalogue)
    requires c.Shield? || c.SetSeatCount? || c.ClearSeat? || c.StartMatch?
    requires InRange(c, catalogue)
    ensures c.Shield? ==> DecodeShield(EncodePayload(c), c.entity) == Success(c)
    ensures c.SetSeatCount? ==> DecodeSetSeatCount(EncodePayload(c), c.controller) == Success(c)
    ensures c.ClearSeat? ==> DecodeClearSeat(EncodePayload(c), c.controller) == Success(c)
    ensures c.StartMatch? ==> DecodeStartMatch(EncodePayload(c), c.controller) == Success(c)
  {
    var m := EncodePayload(c);
    match c
    case Shield(_, _) =>
      assert m.Keys == {"input_generation"};
      OneKey(m, "input_generation");
    case SetSeatCount(_, _) =>
      assert m.Keys == {"seat_count"};
      OneKey(m, "seat_count");
    case ClearSeat(_, _) =>
      assert m.Keys == {"seat_index"};
      OneKey(m, "seat_index");
    case StartMatch(_) =>
  }

  lemma TuningPayloadHolds(c: ClientCommand, catalogue: Catalogue)
    requires c.SetMovementTuning?
    ensures var m := EncodePayload(c);
      && m.Keys == Required(SetMovementTuningKind)
      && m["tuning_request_id"] == Int64(c.requestId) && m["expected_revision"] == Int64(c.revision)
      && m[ACCELERATION_KEY] == Double(c.acceleration) && m[SPEED_KEY] == Double(c.normalTopSpeed)
      && m["charge_speed_fraction"] == Double(c.chargeFraction)
      && m["lethal_spawn_rate_per_second"] == Double(c.lethalRate)
      && m["nonlethal_spawn_rate_per_second"] == Double(c.nonlethalRate)
  {
  }

  lemma TuningReadsBack(c: ClientCommand, catalogue: Catalogue)
    requires c.SetMovementTuning? && InRange(c, catalogue)
    ensures DecodeSetMovementTuning(EncodePayload(c), c.controller) == Success(c)
  {
    hide EncodePayload;
    var m := EncodePayload(c);
    TuningPayloadHolds(c, catalogue);
    MovementTuningKeys(m);
  }

  /** Decoding an in-range command's encoding gives that command. */
  lemma DecodeUndoesEncode(c: ClientCommand, stamp: Stamp, catalogue: Catalogue)
    requires InRange(c, catalogue) && Stamped(c, stamp)
    ensures DecodePayload(KindOfCommand(c), EncodePayload(c), stamp, catalogue) == Success(c)
  {
    hide InRange, EncodePayload;
    match c
    case SetThrust(_, _, _, _, _) => ThrustReadsBack(c, catalogue);
    case Charge(_, _, _, _) => ChargeReadsBack(c, catalogue);
    case RotateVelocity(_, _, _) => RotationReadsBack(c, catalogue);
    case SeatNpc(_, _, _, _) => SeatNpcReadsBack(c, catalogue);
    case SetMovementTuning(_, _, _, _, _, _, _, _) => TuningReadsBack(c, catalogue);
    case _ => SmallPayloadsReadBack(c, catalogue);
  }

  /** Whatever payload was accepted, the command is of the kind asked for, in range, and carries the
      caller's identity; so encoding and decoding it again changes nothing. */
  lemma AcceptedIsStampedAndInRange(k: Kind, m: Members, stamp: Stamp, catalogue: Catalogue)
    requires DecodePayload(k, m, stamp, catalogue).Success?
    ensures var c := DecodePayload(k, m, stamp, catalogue).value;
      && KindOfCommand(c) == k && Stamped(c, stamp) && InRange(c, catalogue)
      && DecodePayload(k, EncodePayload(c), stamp, catalogue) == Success(c)
  {
    hide IsKindName, EncodePayload;
    var c := DecodePayload(k, m, stamp, catalogue).value;
    DecodeUndoesEncode(c, stamp, catalogue);
  }

  // ---------------------------------------------------------------- what an accepted payload says

  predicate IsAmount(v: Json) {
    v.Double? || v.Int64? || v.Uint64?
  }

  /** The number a spelling stands for. */
  function Amount(v: Json): real
    requires IsAmount(v)
  {
    if v.Double? then v.d else if v.Int64? then v.i as real else v.n as real
  }

  /** The same value, whichever way a number is spelled. */
  predicate SameValue(a: Json, b: Json) {
    a == b || (IsAmount(a) && IsAmount(b) && Amount(a) == Amount(b))
  }

  /** Every member of the payload is in the command, as written; only a brake that is off says nothing. */
  ghost predicate Says(m: Members, c: ClientCommand) {
    var encoded := EncodePayload(c);
    && encoded.Keys <= m.Keys
    && forall key :: key in m ==>
         if key in encoded then SameValue(m[key], encoded[key]) else key == "braking" && m[key] == Bool(false)
  }

  lemma ScalarSays(m: Members, key: string, minimum: real, maximum: real)
    ensures var r := ScalarIn(m, key, minimum, maximum);
      r.Some? ==> key in m && SameValue(m[key], Double(r.value))
  {
  }

  lemma UnsignedSays(v: Json, minimum: int, maximum: int)
    ensures var r := BoundedUnsigned(v, minimum, maximum);
      r.Some? ==> SameValue(v, Int64(r.value))
  {
  }

  lemma GenerationSays(m: Members)
    ensures var r := DecodeGeneration(m);
      r.Success? ==>
        && (r.value.Some? <==> "input_generation" in m)
        && (r.value.Some? ==> SameValue(m["input_generation"], Int64(r.value.value)))
  {
    hide SameValue;
    if "input_generation" in m { UnsignedSays(m["input_generation"], 1, MAXIMUM_SAFE_INTEGER); }
  }

  lemma ThrustReads(m: Members, entity: nat)
    requires DecodeSetThrust(m, entity).Success?
    ensures var c := DecodeSetThrust(m, entity).value;
      && c.SetThrust? && "x" in m && SameValue(m["x"], Double(c.x)) && "y" in m && SameValue(m["y"], Double(c.y))
      && (c.generation.Some? <==> "input_generation" in m)
      && (c.generation.Some? ==> SameValue(m["input_generation"], Int64(c.generation.value)))
      && ("braking" in m ==> m["braking"] == Bool(c.braking)) && (c.braking ==> "braking" in m)
    ensures forall key :: key in m ==> key == "x" || key == "y" || key == "input_generation" || key == "braking"
  {
    hide ScalarIn, DecodeGeneration, SameValue;
    ScalarSays(m, "x", -1.0, 1.0);
    ScalarSays(m, "y", -1.0, 1.0);
    GenerationSays(m);
    ThrustMembers(m);
  }

  lemma ThrustSaysKey(m: Members, entity: nat, key: string)
    requires DecodeSetThrust(m, entity).Success?
    ensures var encoded := EncodePayload(DecodeSetThrust(m, entity).value);
      && (key in encoded ==> key in m && SameValue(m[key], encoded[key]))
      && (key in m && key !in encoded ==> key == "braking" && m[key] == Bool(false))
  {
    hide EncodePayload, DecodeSetThrust, SameValue;
    var c := DecodeSetThrust(m, entity).value;
    ThrustReads(m, entity);
    ThrustPayload(c);
    ThrustKeys(c);
    if key == "braking" { SameIsSame(Bool(true)); }
  }

  lemma ThrustSays(m: Members, entity: nat)
    requires DecodeSetThrust(m, entity).Success?
    ensures Says(m, DecodeSetThrust(m, entity).value)
  {
    hide EncodePayload, DecodeSetThrust, SameValue;
    forall key: string { ThrustSaysKey(m, entity, key); }
  }

  lemma ThrustMembers(m: Members)
    requires |m| == 2 + (if "input_generation" in m then 1 else 0) + (if "braking" in m then 1 else 0)
    requires "x" in m && "y" in m
    ensures forall key :: key in m ==> key == "x" || key == "y" || key == "input_generation" || key == "braking"
  {
    SetThrustKeys(m);
    OnlyThrustKeys();
  }

  lemma SameIsSame(v: Json)
    ensures SameValue(v, v)
  {
  }

  lemma ThrustKeys(c: ClientCommand)
    requires c.SetThrust?
    ensures EncodePayload(c).Keys == {"x", "y"} + (if c.generation.Some? then {"input_generation"} else {})
                                     + (if c.braking then {"braking"} else {})
  {
  }

  lemma ChargeSays(m: Members, entity: nat)
    requires DecodeCharge(m, entity).Success?
    ensures Says(m, DecodeCharge(m, entity).value)
  {
    hide ScalarIn, DecodeGeneration, SameValue;
    if "input_generation" in m { ThreeKeys(m, "x", "y", "input_generation"); } else { TwoKeys(m, "x", "y"); }
    ScalarSays(m, "x", -1.0, 1.0);
    ScalarSays(m, "y", -1.0, 1.0);
    GenerationSays(m);
  }

  lemma RotationSays(m: Members, entity: nat)
    requires DecodeRotateVelocity(m, entity).Success?
    ensures Says(m, DecodeRotateVelocity(m, entity).value)
  {
    hide DecodeGeneration, SameValue;
    if "input_generation" in m { TwoKeys(m, "direction", "input_generation"); } else { OneKey(m, "direction"); }
    SameIsSame(m["direction"]);
    GenerationSays(m);
  }

  lemma SeatNpcSays(m: Members, controller: nat, catalogue: Catalogue)
    requires DecodeSeatNpc(m, controller, catalogue).Success?
    ensures Says(m, DecodeSeatNpc(m, controller, catalogue).value)
  {
    hide BoundedUnsigned, SameValue, IsKindName;
    if "profile_name" in m {
      ThreeKeys(m, "seat_index", "npc_kind", "profile_name");
      SameIsSame(m["profile_name"]);
    } else {
      TwoKeys(m, "seat_index", "npc_kind");
    }
    SameIsSame(m["npc_kind"]);
    UnsignedSays(m["seat_index"], 0, LOBBY_SEAT_COUNT_MAXIMUM - 1);
  }

  lemma SmallPayloadsSay(k: Kind, m: Members, stamp: Stamp, catalogue: Catalogue)
    requires k.ShieldKind? || k.SetSeatCountKind? || k.ClearSeatKind? || k.StartMatchKind?
    requires DecodePayload(k, m, stamp, catalogue).Success?
    ensures Says(m, DecodePayload(k, m, stamp, catalogue).value)
  {
    hide BoundedUnsigned, SameValue;
    match k
    case ShieldKind =>
      OneKey(m, "input_generation");
      GenerationSays(m);
      SameIsSame(m["input_generation"]);
    case SetSeatCountKind =>
      OneKey(m, "seat_count");
      UnsignedSays(m["seat_count"], 1, LOBBY_SEAT_COUNT_MAXIMUM);
    case ClearSeatKind =>
      OneKey(m, "seat_index");
      UnsignedSays(m["seat_index"], 0, LOBBY_SEAT_COUNT_MAXIMUM - 1);
    case StartMatchKind =>
  }

  lemma TuningSays(m: Members, controller: nat, catalogue: Catalogue)
    requires DecodeSetMovementTuning(m, controller).Success?
    ensures Says(m, DecodeSetMovementTuning(m, controller).value)
  {
    hide BoundedUnsigned, SameValue, ScalarIn, EncodePayload;
    DecodedHasEveryKey(m, controller);
    MovementTuningKeys(m);
    var c := DecodeSetMovementTuning(m, controller).value;
    TuningPayloadHolds(c, catalogue);
    UnsignedSays(m["tuning_request_id"], 1, MAXIMUM_SAFE_INTEGER);
    UnsignedSays(m["expected_revision"], 0, MAXIMUM_SAFE_INTEGER);
    ScalarSays(m, ACCELERATION_KEY, 0.0, ACCELERATION_MAXIMUM);
    ScalarSays(m, SPEED_KEY, NORMAL_TOP_SPEED_MINIMUM, NORMAL_TOP_SPEED_MAXIMUM);
    ScalarSays(m, "charge_speed_fraction", 0.0, CHARGE_SPEED_FRACTION_MAXIMUM);
    ScalarSays(m, "lethal_spawn_rate_per_second", 0.0, SPAWN_RATE_MAXIMUM);
    ScalarSays(m, "nonlethal_spawn_rate_per_second", 0.0, SPAWN_RATE_MAXIMUM);
  }

  /** Whatever payload was accepted, the command says what the payload says, however its numbers were spelled,
      and nothing more. */
  lemma AcceptedMeansWhatItSays(k: Kind, m: Members, stamp: Stamp, catalogue: Catalogue)
    requires DecodePayload(k, m, stamp, catalogue).Success?
    ensures Says(m, DecodePayload(k, m, stamp, catalogue).value)
  {
    hide Says;
    match k
    case SetThrustKind => ThrustSays(m, stamp.entity);
    case ChargeKind => ChargeSays(m, stamp.entity);
    case RotateVelocityKind => RotationSays(m, stamp.entity);
    case SeatNpcKind => SeatNpcSays(m, stamp.controller, catalogue);
    case SetMovementTuningKind => TuningSays(m, stamp.controller, catalogue);
    case _ => SmallPayloadsSay(k, m, stamp, catalogue);
  }

  // ---------------------------------------------------------------- the envelope

  lemma WireNameIsFound(k: Kind)
    ensures KindOf(WireName(k)) == Some(k)
  {
  }

  predicate IsEnvelope(document: Option<Json>) {
    && document.Some? && document.value.Object? && document.value.members.Keys == {"kind", "payload"}
    && document.value.members["payload"].Object?
  }

  /** The frame's kind is the wire name of a registered kind the mode accepts. */
  ghost predicate NamesAccepted(m: Members, accepted: set<Kind>, k: Kind)
    requires "kind" in m
  {
    k in accepted && m["kind"] == Text(WireName(k))
  }

  /** Each outcome of a frame holds exactly under its own condition, in admission order: too long; not an
      object of exactly a kind and an object payload; no accepted kind's name; a payload that does not fit
      the named kind's schema; and otherwise a command. */
  lemma EnvelopeIsExact(size: nat, document: Option<Json>, accepted: set<Kind>, stamp: Stamp, catalogue: Catalogue)
    ensures var r := DecodeEnvelope(size, document, accepted, stamp, catalogue);
      var read := size <= 1024 && IsEnvelope(document);
      var m := if read then document.value.members else map[];
      && (r == Failure(MessageTooLarge) <==> size > 1024)
      && (r == Failure(CommandMalformed) <==> size <= 1024 && !IsEnvelope(document))
      && (r == Failure(KindRejected) <==> read && forall k :: !NamesAccepted(m, accepted, k))
      && (r == Failure(PayloadInvalid) <==>
            read && exists k :: NamesAccepted(m, accepted, k) && !Fits(k, m["payload"].members, catalogue))
      && (r.Success? <==>
            read && exists k :: NamesAccepted(m, accepted, k) && Fits(k, m["payload"].members, catalogue))
  {
    hide DecodePayload, Fits, WireName, KindOf;
    if document.Some? && document.value.Object? {
      var m := document.value.members;
      TwoKeys(m, "kind", "payload");
      if IsEnvelope(document) { KindIsFound(m, accepted, stamp, catalogue); }
    }
  }

  /** At most one accepted kind is named, and the one the table finds is it. */
  lemma KindIsFound(m: Members, accepted: set<Kind>, stamp: Stamp, catalogue: Catalogue)
    requires m.Keys == {"kind", "payload"} && m["payload"].Object?
    ensures forall k :: NamesAccepted(m, accepted, k) <==>
      m["kind"].Text? && KindOf(m["kind"].s) == Some(k) && k in accepted
    ensures forall k :: NamesAccepted(m, accepted, k) ==>
      var r := DecodePayload(k, m["payload"].members, stamp, catalogue);
      (r.Success? <==> Fits(k, m["payload"].members, catalogue)) && (r.Failure? ==> r.error == PayloadInvalid)
  {
    hide DecodePayload, Fits, WireName, KindOf;
    forall k ensures KindOf(WireName(k)) == Some(k) { WireNameIsFound(k); }
    forall k | NamesAccepted(m, accepted, k)
      ensures var r := DecodePayload(k, m["payload"].members, stamp, catalogue);
        (r.Success? <==> Fits(k, m["payload"].members, catalogue)) && (r.Failure? ==> r.error == PayloadInvalid)
    {
      PayloadIsExact(k, m["payload"].members, stamp, catalogue);
    }
  }

  function EncodeEnvelope(c: ClientCommand): Json {
    Object(map["kind" := Text(WireName(KindOfCommand(c))), "payload" := Object(EncodePayload(c))])
  }

  /** A whole frame of an accepted kind reads back as its command. */
  lemma EnvelopeReadsBack(c: ClientCommand, size: nat, accepted: set<Kind>, stamp: Stamp, catalogue: Catalogue)
    requires InRange(c, catalogue) && Stamped(c, stamp) && KindOfCommand(c) in accepted
    requires size <= 1024
    ensures DecodeEnvelope(size, Some(EncodeEnvelope(c)), accepted, stamp, catalogue) == Success(c)
  {
    hide DecodePayload, EncodePayload, WireName, KindOf, InRange, Stamped;
    var m := EncodeEnvelope(c).members;
    assert m.Keys == {"kind", "payload"};
    TwoKeys(m, "kind", "payload");
    WireNameIsFound(KindOfCommand(c));
    DecodeUndoesEncode(c, stamp, catalogue);
  }
}
