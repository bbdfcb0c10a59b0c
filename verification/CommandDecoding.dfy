/** Client commands read out of parsed JSON by closed schemas. */
module CommandDecoding {
  import opened Wrappers
  import opened SeatRosters
  import opened BotRosters

  const MAXIMUM_SAFE_INTEGER: int := 9_007_199_254_740_991
  const CLIENT_MESSAGE_MAXIMUM_BYTE_COUNT: nat := 1024
  const LOBBY_SEAT_COUNT_MAXIMUM: int := 64
  const ACCELERATION_MAXIMUM: real := 10_000.0
  const NORMAL_TOP_SPEED_MINIMUM: real := 1.0
  const NORMAL_TOP_SPEED_MAXIMUM: real := 10_000.0
  const CHARGE_SPEED_FRACTION_MAXIMUM: real := 100_000_000.0
  const SPAWN_RATE_MAXIMUM: real := 5.0

  /** A parsed JSON value; numbers keep the representation the parser chose for their spelling. */
  datatype Json =
    | Null
    | Bool(b: bool)
    | Int64(i: int)
    | Uint64(n: nat)
    | Double(d: real)
    | Text(s: string)
    | Array(items: seq<Json>)
    | Object(members: map<string, Json>)

  type Members = map<string, Json>

  datatype Kind =
    | ChargeKind | ClearSeatKind | RotateVelocityKind | SeatNpcKind | SetMovementTuningKind | SetSeatCountKind
    | SetThrustKind | ShieldKind | StartMatchKind

  function WireName(k: Kind): string {
    match k
    case ChargeKind => "charge"
    case ClearSeatKind => "clear_seat"
    case RotateVelocityKind => "rotate_velocity"
    case SeatNpcKind => "seat_npc"
    case SetMovementTuningKind => "set_movement_tuning"
    case SetSeatCountKind => "set_seat_count"
    case SetThrustKind => "set_thrust"
    case ShieldKind => "shield"
    case StartMatchKind => "start_match"
  }

  datatype ClientCommand =
    | SetThrust(entity: nat, x: real, y: real, generation: Option<int>, braking: bool)
    | Shield(entity: nat, generation: Option<int>)
    | Charge(entity: nat, x: real, y: real, generation: Option<int>)
    | RotateVelocity(entity: nat, right: bool, generation: Option<int>)
    | SetSeatCount(controller: nat, count: int)
    | ClearSeat(controller: nat, index: int)
    | SeatNpc(controller: nat, index: int, npcKind: string, profile: Option<string>)
    | StartMatch(controller: nat)
    | SetMovementTuning(controller: nat, requestId: int, revision: int, acceleration: real, normalTopSpeed: real,
                        chargeFraction: real, lethalRate: real, nonlethalRate: real)

  datatype Rejection = MessageTooLarge | CommandMalformed | KindRejected | PayloadInvalid

  /** The NPC choices advertised to clients. */
  type Catalogue = set<NpcDeclaration>

  /** The identities the server stamps. */
  datatype Stamp = Stamp(entity: nat, controller: nat)

  // ---------------------------------------------------------------- scalars

  function FiniteNumber(v: Json): Option<real> {
    match v
    case Double(d) => Some(d)
    case Int64(i) => Some(i as real)
    case Uint64(n) => Some(n as real)
    case _ => None
  }

  /** An exact integer in a closed range; a fraction or a floating spelling is none. */
  function BoundedUnsigned(v: Json, minimum: int, maximum: int): Option<int> {
    match v
    case Uint64(n) => if minimum <= n <= maximum then Some(n) else None
    case Int64(i) => if 0 <= i && minimum <= i <= maximum then Some(i) else None
    case _ => None
  }

  function ScalarIn(m: Members, key: string, minimum: real, maximum: real): Option<real> {
    if key !in m then None
    else
      var v := FiniteNumber(m[key]);
      if v.Some? && minimum <= v.value <= maximum then v else None
  }

  function DecodeGeneration(m: Members): Result<Option<int>, Rejection> {
    if "input_generation" !in m then Success(None)
    else
      var g := BoundedUnsigned(m["input_generation"], 1, MAXIMUM_SAFE_INTEGER);
      if g.None? then Failure(PayloadInvalid) else Success(g)
  }

  // ---------------------------------------------------------------- one decoder a kind

  function DecodeSetThrust(m: Members, entity: nat): Result<ClientCommand, Rejection> {
    var extra := (if "input_generation" in m then 1 else 0) + (if "braking" in m then 1 else 0);
    if |m| != 2 + extra || ("braking" in m && !m["braking"].Bool?) then Failure(PayloadInvalid)
    else
      var x, y := ScalarIn(m, "x", -1.0, 1.0), ScalarIn(m, "y", -1.0, 1.0);
      if x.None? || y.None? then Failure(PayloadInvalid)
      else
        var g :- DecodeGeneration(m);
        Success(SetThrust(entity, x.value, y.value, g, "braking" in m && m["braking"].b))
  }

  function DecodeShield(m: Members, entity: nat): Result<ClientCommand, Rejection> {
    if |m| != 1 || "input_generation" !in m then Failure(PayloadInvalid)
    else if m["input_generation"].Null? then Success(Shield(entity, None))
    else
      var g :- DecodeGeneration(m);
      Success(Shield(entity, g))
  }

  function DecodeCharge(m: Members, entity: nat): Result<ClientCommand, Rejection> {
    if |m| != (if "input_generation" in m then 3 else 2) then Failure(PayloadInvalid)
    else
      var x, y := ScalarIn(m, "x", -1.0, 1.0), ScalarIn(m, "y", -1.0, 1.0);
      if x.None? || y.None? then Failure(PayloadInvalid)
      else
        var g :- DecodeGeneration(m);
        Success(Charge(entity, x.value, y.value, g))
  }

  function DecodeRotateVelocity(m: Members, entity: nat): Result<ClientCommand, Rejection> {
    if |m| != (if "input_generation" in m then 2 else 1) || "direction" !in m || !m["direction"].Text?
    then Failure(PayloadInvalid)
    else if m["direction"].s != "left" && m["direction"].s != "right" then Failure(PayloadInvalid)
    else
      var g :- DecodeGeneration(m);
      Success(RotateVelocity(entity, m["direction"].s == "right", g))
  }

  function DecodeSetSeatCount(m: Members, controller: nat): Result<ClientCommand, Rejection> {
    if |m| != 1 || "seat_count" !in m then Failure(PayloadInvalid)
    else
      match BoundedUnsigned(m["seat_count"], 1, LOBBY_SEAT_COUNT_MAXIMUM)
      case None => Failure(PayloadInvalid)
      case Some(n) => Success(SetSeatCount(controller, n))
  }

  function DecodeClearSeat(m: Members, controller: nat): Result<ClientCommand, Rejection> {
    if |m| != 1 || "seat_index" !in m then Failure(PayloadInvalid)
    else
      match BoundedUnsigned(m["seat_index"], 0, LOBBY_SEAT_COUNT_MAXIMUM - 1)
      case None => Failure(PayloadInvalid)
      case Some(n) => Success(ClearSeat(controller, n))
  }

  function DecodeSeatNpc(m: Members, controller: nat, catalogue: Catalogue): Result<ClientCommand, Rejection> {
    if |m| != (if "profile_name" in m then 3 else 2) then Failure(PayloadInvalid)
    else if "seat_index" !in m || "npc_kind" !in m || !m["npc_kind"].Text? then Failure(PayloadInvalid)
    else
      var index := BoundedUnsigned(m["seat_index"], 0, LOBBY_SEAT_COUNT_MAXIMUM - 1);
      if index.None? || ("profile_name" in m && !m["profile_name"].Text?) then Failure(PayloadInvalid)
      else
        var kind, profile := m["npc_kind"].s, if "profile_name" in m then Some(m["profile_name"].s) else None;
        if NpcDeclaration(kind, profile) !in catalogue || !IsKindName(kind) then Failure(PayloadInvalid)
        else Success(SeatNpc(controller, index.value, kind, profile))
  }

  function DecodeStartMatch(m: Members, controller: nat): Result<ClientCommand, Rejection> {
    if m != map[] then Failure(PayloadInvalid) else Success(StartMatch(controller))
  }

  function DecodeSetMovementTuning(m: Members, controller: nat): Result<ClientCommand, Rejection> {
    if |m| != 7 || "tuning_request_id" !in m || "expected_revision" !in m then Failure(PayloadInvalid)
    else
      var id := BoundedUnsigned(m["tuning_request_id"], 1, MAXIMUM_SAFE_INTEGER);
      var revision := BoundedUnsigned(m["expected_revision"], 0, MAXIMUM_SAFE_INTEGER);
      var acceleration := ScalarIn(m, "acceleration_world_units_per_second_squared", 0.0, ACCELERATION_MAXIMUM);
      var speed :=
        ScalarIn(m, "normal_top_speed_world_units_per_second", NORMAL_TOP_SPEED_MINIMUM, NORMAL_TOP_SPEED_MAXIMUM);
      var charge := ScalarIn(m, "charge_speed_fraction", 0.0, CHARGE_SPEED_FRACTION_MAXIMUM);
      var lethal := ScalarIn(m, "lethal_spawn_rate_per_second", 0.0, SPAWN_RATE_MAXIMUM);
      var nonlethal := ScalarIn(m, "nonlethal_spawn_rate_per_second", 0.0, SPAWN_RATE_MAXIMUM);
      if id.None? || revision.None? || acceleration.None? || speed.None? || charge.None? || lethal.None?
         || nonlethal.None?
      then Failure(PayloadInvalid)
      else
        Success(SetMovementTuning(controller, id.value, revision.value, acceleration.value, speed.value, charge.value,
                                  lethal.value, nonlethal.value))
  }

  function DecodePayload(k: Kind, m: Members, stamp: Stamp, catalogue: Catalogue): Result<ClientCommand, Rejection> {
    match k
    case SetThrustKind => DecodeSetThrust(m, stamp.entity)
    case ShieldKind => DecodeShield(m, stamp.entity)
    case ChargeKind => DecodeCharge(m, stamp.entity)
    case RotateVelocityKind => DecodeRotateVelocity(m, stamp.entity)
    case SetSeatCountKind => DecodeSetSeatCount(m, stamp.controller)
    case ClearSeatKind => DecodeClearSeat(m, stamp.controller)
    case SeatNpcKind => DecodeSeatNpc(m, stamp.controller, catalogue)
    case StartMatchKind => DecodeStartMatch(m, stamp.controller)
    case SetMovementTuningKind => DecodeSetMovementTuning(m, stamp.controller)
  }

  // ---------------------------------------------------------------- the envelope

  function KindOf(name: string): (r: Option<Kind>)
    ensures r.Some? ==> WireName(r.value) == name
  {
    if name == "charge" then Some(ChargeKind)
    else if name == "clear_seat" then Some(ClearSeatKind)
    else if name == "rotate_velocity" then Some(RotateVelocityKind)
    else if name == "seat_npc" then Some(SeatNpcKind)
    else if name == "set_movement_tuning" then Some(SetMovementTuningKind)
    else if name == "set_seat_count" then Some(SetSeatCountKind)
    else if name == "set_thrust" then Some(SetThrustKind)
    else if name == "shield" then Some(ShieldKind)
    else if name == "start_match" then Some(StartMatchKind)
    else None
  }

  /** The document is what the JSON parser made of the frame's bytes, if it made anything. */
  function DecodeEnvelope(size: nat, document: Option<Json>, accepted: set<Kind>, stamp: Stamp, catalogue: Catalogue)
    : Result<ClientCommand, Rejection>
  {
    if size > CLIENT_MESSAGE_MAXIMUM_BYTE_COUNT then Failure(MessageTooLarge)
    else if document.None? || !document.value.Object? then Failure(CommandMalformed)
    else
      var m := document.value.members;
      if |m| != 2 || "kind" !in m || "payload" !in m || !m["payload"].Object? then Failure(CommandMalformed)
      else if !m["kind"].Text? then Failure(KindRejected)
      else
        match KindOf(m["kind"].s)
        case None => Failure(KindRejected)
        case Some(k) =>
          if k !in accepted then Failure(KindRejected) else DecodePayload(k, m["payload"].members, stamp, catalogue)
  }
}
