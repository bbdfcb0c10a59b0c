/** The commands an in-process controller may return from one decision. */
module Commands {
  import opened Wrappers
  import opened SeatRosters

  type EntityId = nat
  type Tick = nat

  datatype Vector2 = Vector2(x: real, y: real)

  const ZERO_VECTOR := Vector2(0.0, 0.0)

  datatype Command =
    | Spawn(controller: ControllerId)
    | Thrust(entity: EntityId, direction: Vector2, generation: Option<Tick>)
    | Shield(entity: EntityId, generation: Option<Tick>)
    | Charge(entity: EntityId, direction: Vector2, generation: Option<Tick>)
}
