/** The closed payload schemas as what they require and allow, and the decoder's exactness against them. */
module CommandSchemas {
  import opened Wrappers
  import opened SeatRosters
  import opened BotRosters
  import opened CommandDecoding

  // ---------------------------------------------------------------- the schemas

  function Required(k: Kind): set<string> {
    match k
    case SetThrustKind | ChargeKind => {"x", "y"}
    case ShieldKind => {"input_generation"}
    case RotateVelocityKind => {"direction"}
    case SetSeatCountKind => {"seat_count"}
    case ClearSeatKind => {"seat_index"}
    case SeatNpcKind => {"seat_index", "npc_kind"}
    case StartMatchKind => {}
    case SetMovementTuningKind =>
      {"tuning_request_id", "expected_revision", "acceleration_world_units_per_second_squared",
       "normal_top_speed_world_units_per_second",
       "charge_speed_fraction", "lethal_spawn_rate_per_second", "nonlethal_spawn_rate_per_second"}
  }

  function Optionals(k: Kind): set<string> {
    match k
    case SetThrustKind => {"input_generation", "braking"}
    case ChargeKind | RotateVelocityKind => {"input_generation"}
    case SeatNpcKind => {"profile_name"}
    case _ => {}
  }

  predicate IsExact(v: Json, minimum: int, maximum: int) {
    (v.Int64? && 0 <= v.i && minimum <= v.i <= maximum) || (v.Uint64? && minimum <= v.n <= maximum)
  }

  predicate IsNumber(v: Json, minimum: real, maximum: real) {
    || (v.Double? && minimum <= v.d <= maximum) || (v.Int64? && minimum <= v.i as real <= maximum)
    || (v.Uint64? && minimum <= v.n as real <= maximum)
  }

  /** What a key may hold, wherever it is a key. */
  predicate Holds(k: Kind, key: string, v: Json) {
    if key == "x" || key == "y" then IsNumber(v, -1.0, 1.0)
    else if key == "input_generation" then (k.ShieldKind? && v.Null?) || IsExact(v, 1, 9_007_199_254_740_991)
    else if key == "braking" then v.Bool?
    else if key == "direction" then v == Text("left") || v == Text("right")
    else if key == "seat_count" then IsExact(v, 1, 64)
    else if key == "seat_index" then IsExact(v, 0, 63)
    else if key == "npc_kind" then v.Text? && IsKindName(v.s)
    else if key == "profile_name" then v.Text?
    else if key == "tuning_request_id" then IsExact(v, 1, 9_007_199_254_740_991)
    else if key == "expected_revision" then IsExact(v, 0, 9_007_199_254_740_991)
    else if key == "acceleration_world_units_per_second_squared" then IsNumber(v, 0.0, 10_000.0)
    else if key == "normal_top_speed_world_units_per_second"
    then IsNumber(v, 1.0, 10_000.0)
    else if key == "charge_speed_fraction" then IsNumber(v, 0.0, 100_000_000.0)
    else if key == "lethal_spawn_rate_per_second" || key == "nonlethal_spawn_rate_per_second"
    then IsNumber(v, 0.0, 5.0)
    else false
  }

  /** A seat names something in the catalogue. */
  predicate Advertised(m: Members, catalogue: Catalogue) {
    "npc_kind" in m && m["npc_kind"].Text? && ("profile_name" in m ==> m["profile_name"].Text?) &&
    NpcDeclaration(m["npc_kind"].s, if "profile_name" in m then Some(m["profile_name"].s) else None) in catalogue
  }

  /** The required keys and no keys but those and the optional ones, each holding what it may. */
  predicate Fits(k: Kind, m: Members, catalogue: Catalogue) {
    && Required(k) <= m.Keys <= Required(k) + Optionals(k)
    && (forall key :: key in m ==> Holds(k, key, m[key]))
    && (k.SeatNpcKind? ==> Advertised(m, catalogue))
  }

  // ---------------------------------------------------------------- counting keys

  lemma SameSize(a: set<string>, b: set<string>)
    requires a <= b && |a| == |b|
    ensures a == b
  {
    assert b == a + (b - a);
  }

  lemma OneKey(m: Members, a: string)
    ensures |m| == 1 && a in m <==> m.Keys == {a}
  {
    assert |m| == |m.Keys|;
    if a in m && |m| == 1 { SameSize({a}, m.Keys); }
  }

  lemma TwoKeys(m: Members, a: string, b: string)
    requires a != b
    ensures |m| == 2 && a in m && b in m <==> m.Keys == {a, b}
  {
    assert |m| == |m.Keys|;
    if a in m && b in m && |m| == 2 { SameSize({a, b}, m.Keys); }
  }

  lemma ThreeKeys(m: Members, a: string, b: string, c: string)
    requires a != b && a != c && b != c
    ensures |m| == 3 && a in m && b in m && c in m <==> m.Keys == {a, b, c}
  {
    assert |m| == |m.Keys|;
    if a in m && b in m && c in m && |m| == 3 { SameSize({a, b, c}, m.Keys); }
  }

  lemma FourKeys(m: Members, a: string, b: string, c: string, d: string)
    requires a != b && a != c && a != d && b != c && b != d && c != d
    ensures |m| == 4 && a in m && b in m && c in m && d in m <==> m.Keys == {a, b, c, d}
  {
    assert |m| == |m.Keys|;
    if a in m && b in m && c in m && d in m && |m| == 4 { SameSize({a, b, c, d}, m.Keys); }
  }

  // ---------------------------------------------------------------- exactness, kind by kind

  lemma SetThrustKeys(m: Members)
    ensures var extra := (if "input_generation" in m then 1 else 0) + (if "braking" in m then 1 else 0);
      |m| == 2 + extra && "x" in m && "y" in m <==>
        Required(SetThrustKind) <= m.Keys <= Required(SetThrustKind) + Optionals(SetThrustKind)
  {
    if "input_generation" in m {
      if "braking" in m {
        FourKeys(m, "x", "y", "input_generation", "braking");
      } else {
        ThreeKeys(m, "x", "y", "input_generation");
      }
    } else {
      if "braking" in m { ThreeKeys(m, "x", "y", "braking"); } else { TwoKeys(m, "x", "y"); }
    }
  }

  lemma ScalarIsNumber(m: Members, key: string, minimum: real, maximum: real)
    ensures ScalarIn(m, key, minimum, maximum).Some? <==> key in m && IsNumber(m[key], minimum, maximum)
  {
  }

  lemma SetThrustIsExact(m: Members, entity: nat, catalogue: Catalogue)
    ensures DecodeSetThrust(m, entity).Success? <==> Fits(SetThrustKind, m, catalogue)
  {
    hide Required, Optionals, Holds, BoundedUnsigned, IsNumber, ScalarIn;
    SetThrustKeys(m);
    OnlyThrustKeys();
    ScalarIsNumber(m, "x", -1.0, 1.0);
    ScalarIsNumber(m, "y", -1.0, 1.0);
    if Required(SetThrustKind) <= m.Keys <= Required(SetThrustKind) + Optionals(SetThrustKind) {
      forall key | key in m ensures key == "x" || key == "y" || key == "input_generation" || key == "braking" {}
      forall key | key in m ensures
        && (key == "x" || key == "y" ==> (Holds(SetThrustKind, key, m[key]) <==> IsNumber(m[key], -1.0, 1.0)))
        && (key == "input_generation" ==>
              (Holds(SetThrustKind, key, m[key]) <==> BoundedUnsigned(m[key], 1, MAXIMUM_SAFE_INTEGER).Some?))
        && (key == "braking" ==> (Holds(SetThrustKind, key, m[key]) <==> m[key].Bool?))
      {
        DirectionValuesHold(SetThrustKind, m[key]);
        BrakingHolds(m[key]);
      }
    }
  }

  lemma BrakingHolds(v: Json)
    ensures Holds(SetThrustKind, "braking", v) <==> v.Bool?
  {
    hide IsExact, IsNumber;
  }

  lemma OnlyThrustKeys()
    ensures Required(SetThrustKind) + Optionals(SetThrustKind) == {"x", "y", "input_generation", "braking"}
  {
  }

  lemma ChargeKeys(m: Members)
    ensures |m| == (if "input_generation" in m then 3 else 2) && "x" in m && "y" in m <==>
      Required(ChargeKind) <= m.Keys <= Required(ChargeKind) + Optionals(ChargeKind)
  {
    if "input_generation" in m { ThreeKeys(m, "x", "y", "input_generation"); } else { TwoKeys(m, "x", "y"); }
  }

  lemma DirectionValuesHold(k: Kind, v: Json)
    requires !k.ShieldKind?
    ensures Holds(k, "x", v) <==> IsNumber(v, -1.0, 1.0)
    ensures Holds(k, "y", v) <==> IsNumber(v, -1.0, 1.0)
    ensures Holds(k, "input_generation", v) <==> BoundedUnsigned(v, 1, MAXIMUM_SAFE_INTEGER).Some?
  {
    hide BoundedUnsigned, IsExact, IsNumber;
    ExactIsBounded(v, 1, MAXIMUM_SAFE_INTEGER);
  }

  lemma ChargeIsExact(m: Members, entity: nat, catalogue: Catalogue)
    ensures DecodeCharge(m, entity).Success? <==> Fits(ChargeKind, m, catalogue)
  {
    hide BoundedUnsigned, Holds, IsNumber, ScalarIn;
    ChargeKeys(m);
    ScalarIsNumber(m, "x", -1.0, 1.0);
    ScalarIsNumber(m, "y", -1.0, 1.0);
    forall key | key in m ensures
      && (key == "x" || key == "y" ==> (Holds(ChargeKind, key, m[key]) <==> IsNumber(m[key], -1.0, 1.0)))
      && (key == "input_generation" ==>
            (Holds(ChargeKind, key, m[key]) <==> BoundedUnsigned(m[key], 1, MAXIMUM_SAFE_INTEGER).Some?))
    {
      DirectionValuesHold(ChargeKind, m[key]);
    }
  }

  lemma ShieldIsExact(m: Members, entity: nat, catalogue: Catalogue)
    ensures DecodeShield(m, entity).Success? <==> Fits(ShieldKind, m, catalogue)
  {
    OneKey(m, "input_generation");
  }

  lemma RotateVelocityIsExact(m: Members, entity: nat, catalogue: Catalogue)
    ensures DecodeRotateVelocity(m, entity).Success? <==> Fits(RotateVelocityKind, m, catalogue)
  {
    OneKey(m, "direction");
    TwoKeys(m, "direction", "input_generation");
  }

  lemma SetSeatCountIsExact(m: Members, controller: nat, catalogue: Catalogue)
    ensures DecodeSetSeatCount(m, controller).Success? <==> Fits(SetSeatCountKind, m, catalogue)
  {
    OneKey(m, "seat_count");
  }

  lemma ClearSeatIsExact(m: Members, controller: nat, catalogue: Catalogue)
    ensures DecodeClearSeat(m, controller).Success? <==> Fits(ClearSeatKind, m, catalogue)
  {
    OneKey(m, "seat_index");
  }

  lemma SeatNpcValuesHold(v: Json)
    ensures Holds(SeatNpcKind, "seat_index", v) <==> BoundedUnsigned(v, 0, LOBBY_SEAT_COUNT_MAXIMUM - 1).Some?
    ensures Holds(SeatNpcKind, "npc_kind", v) <==> v.Text? && IsKindName(v.s)
    ensures Holds(SeatNpcKind, "profile_name", v) <==> v.Text?
  {
    hide IsKindName, BoundedUnsigned, IsExact;
    ExactIsBounded(v, 0, LOBBY_SEAT_COUNT_MAXIMUM - 1);
  }

  lemma SeatNpcKeys(m: Members)
    ensures |m| == (if "profile_name" in m then 3 else 2) && "seat_index" in m && "npc_kind" in m <==>
      Required(SeatNpcKind) <= m.Keys <= Required(SeatNpcKind) + Optionals(SeatNpcKind)
  {
    if "profile_name" in m {
      ThreeKeys(m, "seat_index", "npc_kind", "profile_name");
    } else {
      TwoKeys(m, "seat_index", "npc_kind");
    }
  }

  lemma SeatNpcIsExact(m: Members, controller: nat, catalogue: Catalogue)
    ensures DecodeSeatNpc(m, controller, catalogue).Success? <==> Fits(SeatNpcKind, m, catalogue)
  {
    hide IsKindName, BoundedUnsigned, Holds;
    SeatNpcKeys(m);
    forall key | key in m ensures
      && (key == "seat_index" ==>
            (Holds(SeatNpcKind, key, m[key]) <==> BoundedUnsigned(m[key], 0, LOBBY_SEAT_COUNT_MAXIMUM - 1).Some?))
      && (key == "npc_kind" ==> (Holds(SeatNpcKind, key, m[key]) <==> m[key].Text? && IsKindName(m[key].s)))
      && (key == "profile_name" ==> (Holds(SeatNpcKind, key, m[key]) <==> m[key].Text?))
    {
      SeatNpcValuesHold(m[key]);
    }
  }

  lemma ExactIsBounded(v: Json, minimum: int, maximum: int)
    ensures BoundedUnsigned(v, minimum, maximum).Some? <==> IsExact(v, minimum, maximum)
  {
  }

  lemma StartMatchIsExact(m: Members, controller: nat, catalogue: Catalogue)
    ensures DecodeStartMatch(m, controller).Success? <==> Fits(StartMatchKind, m, catalogue)
  {
  }

  /** Seven declared keys, all of them there and nothing else. */
  lemma MovementTuningKeys(m: Members)
    ensures |Required(SetMovementTuningKind)| == 7
    ensures |m| == 7 && Required(SetMovementTuningKind) <= m.Keys <==> m.Keys == Required(SetMovementTuningKind)
  {
    var names := Required(SetMovementTuningKind);
    assert |names| == 7;
    assert |m| == |m.Keys|;
    if |m| == 7 && names <= m.Keys { SameSize(names, m.Keys); }
  }

  const ACCELERATION_KEY: string := "acceleration_world_units_per_second_squared"
  const SPEED_KEY: string := "normal_top_speed_world_units_per_second"

  lemma MovementIdentitiesHold(v: Json)
    ensures Holds(SetMovementTuningKind, "tuning_request_id", v) <==> IsExact(v, 1, MAXIMUM_SAFE_INTEGER)
    ensures Holds(SetMovementTuningKind, "expected_revision", v) <==> IsExact(v, 0, MAXIMUM_SAFE_INTEGER)
  {
    hide IsExact, IsNumber;
  }

  lemma MovementSpeedsHold(v: Json)
    ensures Holds(SetMovementTuningKind, ACCELERATION_KEY, v) <==> IsNumber(v, 0.0, ACCELERATION_MAXIMUM)
    ensures Holds(SetMovementTuningKind, SPEED_KEY, v) <==>
      IsNumber(v, NORMAL_TOP_SPEED_MINIMUM, NORMAL_TOP_SPEED_MAXIMUM)
    ensures Holds(SetMovementTuningKind, "charge_speed_fraction", v) <==>
      IsNumber(v, 0.0, CHARGE_SPEED_FRACTION_MAXIMUM)
  {
    hide IsExact, IsNumber;
  }

  lemma MovementRatesHold(v: Json)
    ensures Holds(SetMovementTuningKind, "lethal_spawn_rate_per_second", v) <==> IsNumber(v, 0.0, SPAWN_RATE_MAXIMUM)
    ensures Holds(SetMovementTuningKind, "nonlethal_spawn_rate_per_second", v) <==> IsNumber(v, 0.0, SPAWN_RATE_MAXIMUM)
  {
    hide IsExact, IsNumber;
  }

  /** The seven values checked one by one. */
  predicate SevenHold(m: Members)
    requires m.Keys == Required(SetMovementTuningKind)
  {
    && IsExact(m["tuning_request_id"], 1, MAXIMUM_SAFE_INTEGER)
    && IsExact(m["expected_revision"], 0, MAXIMUM_SAFE_INTEGER)
    && IsNumber(m[ACCELERATION_KEY], 0.0, ACCELERATION_MAXIMUM)
    && IsNumber(m[SPEED_KEY], NORMAL_TOP_SPEED_MINIMUM, NORMAL_TOP_SPEED_MAXIMUM)
    && IsNumber(m["charge_speed_fraction"], 0.0, CHARGE_SPEED_FRACTION_MAXIMUM)
    && IsNumber(m["lethal_spawn_rate_per_second"], 0.0, SPAWN_RATE_MAXIMUM)
    && IsNumber(m["nonlethal_spawn_rate_per_second"], 0.0, SPAWN_RATE_MAXIMUM)
  }

  lemma SevenHoldMeansAllHold(m: Members)
    requires m.Keys == Required(SetMovementTuningKind)
    ensures (forall key :: key in m ==> Holds(SetMovementTuningKind, key, m[key])) <==> SevenHold(m)
  {
    hide Holds, IsExact, IsNumber;
    MovementIdentitiesHold(m["tuning_request_id"]);
    MovementIdentitiesHold(m["expected_revision"]);
    MovementSpeedsHold(m[ACCELERATION_KEY]);
    MovementSpeedsHold(m[SPEED_KEY]);
    MovementSpeedsHold(m["charge_speed_fraction"]);
    MovementRatesHold(m["lethal_spawn_rate_per_second"]);
    MovementRatesHold(m["nonlethal_spawn_rate_per_second"]);
  }

  lemma SevenHoldMeansDecoded(m: Members, controller: nat)
    requires m.Keys == Required(SetMovementTuningKind)
    ensures DecodeSetMovementTuning(m, controller).Success? <==> SevenHold(m)
  {
    MovementTuningKeys(m);
  }

  lemma SetMovementTuningIsExact(m: Members, controller: nat, catalogue: Catalogue)
    ensures DecodeSetMovementTuning(m, controller).Success? <==> Fits(SetMovementTuningKind, m, catalogue)
  {
    hide SevenHold, Holds;
    MovementTuningKeys(m);
    if m.Keys == Required(SetMovementTuningKind) {
      hide DecodeSetMovementTuning;
      SevenHoldMeansAllHold(m);
      SevenHoldMeansDecoded(m, controller);
    } else {
      DecodedHasEveryKey(m, controller);
    }
  }

  lemma DecodedHasEveryKey(m: Members, controller: nat)
    ensures DecodeSetMovementTuning(m, controller).Success? ==> |m| == 7 && Required(SetMovementTuningKind) <= m.Keys
  {
  }

  /** The size and presence checks accept a payload exactly when its keys and values fit the kind's closed
      schema; nothing else is wrong with a payload but not fitting. */
  lemma PayloadIsExact(k: Kind, m: Members, stamp: Stamp, catalogue: Catalogue)
    ensures DecodePayload(k, m, stamp, catalogue).Success? <==> Fits(k, m, catalogue)
    ensures DecodePayload(k, m, stamp, catalogue).Failure? ==>
      DecodePayload(k, m, stamp, catalogue).error == PayloadInvalid
  {
    hide Fits;
    match k
    case SetThrustKind => SetThrustIsExact(m, stamp.entity, catalogue);
    case ShieldKind => ShieldIsExact(m, stamp.entity, catalogue);
    case ChargeKind => ChargeIsExact(m, stamp.entity, catalogue);
    case RotateVelocityKind => RotateVelocityIsExact(m, stamp.entity, catalogue);
    case SetSeatCountKind => SetSeatCountIsExact(m, stamp.controller, catalogue);
    case ClearSeatKind => ClearSeatIsExact(m, stamp.controller, catalogue);
    case SeatNpcKind => SeatNpcIsExact(m, stamp.controller, catalogue);
    case StartMatchKind => StartMatchIsExact(m, stamp.controller, catalogue);
    case SetMovementTuningKind => SetMovementTuningIsExact(m, stamp.controller, catalogue);
  }
}
