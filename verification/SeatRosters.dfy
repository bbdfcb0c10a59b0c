/** The lobby seats a published snapshot carries, and the tick's handling of joins and leaves. */
module SeatRosters {
  import opened Wrappers

  type ControllerId = nat

  const MAXIMUM_LOBBY_SEAT_COUNT: nat := 64

  datatype NpcDeclaration = NpcDeclaration(kind: string, profileName: Option<string>)

  datatype Seat =
    | EmptySeat
    | ControllerSeat(controller: ControllerId)
    | NpcSeat(kind: string, bot: Option<ControllerId>, profileName: Option<string>)
  {
    function Declaration(): NpcDeclaration
      requires NpcSeat?
    {
      NpcDeclaration(kind, profileName)
    }

    predicate HeldBy(c: ControllerId) {
      match this
      case EmptySeat => false
      case ControllerSeat(holder) => holder == c
      case NpcSeat(_, holder, _) => holder == Some(c)
    }
  }

  type SeatRoster = seq<Seat>

  /** Whether the authored index still names a seat declaring exactly this NPC. */
  predicate SameDeclaration(seats: SeatRoster, index: nat, expected: NpcDeclaration) {
    index < |seats| && seats[index].NpcSeat? && seats[index].Declaration() == expected
  }

  /** Whether the seat declares an NPC and holds no bot yet. */
  predicate Unfilled(seat: Seat) {
    seat.NpcSeat? && seat.bot.None?
  }

  datatype LobbyCommand =
    | JoinCommand(joining: ControllerId, seatIndex: nat, expectedNpc: NpcDeclaration)
    | LeaveCommand(leaving: ControllerId)

  predicate HoldsASeat(seats: SeatRoster, c: ControllerId) {
    exists i :: 0 <= i < |seats| && seats[i].HeldBy(c)
  }

  /** A bot's join fills exactly the seat it names, only while that seat still declares the
      expected NPC and has no bot; in every other case it changes nothing. */
  function ApplyJoin(seats: SeatRoster, c: ControllerId, index: nat, expected: NpcDeclaration): (r: SeatRoster)
    ensures |r| == |seats|
  {
    if HoldsASeat(seats, c) then seats
    else if index >= |seats| || !Unfilled(seats[index]) then seats
    else if seats[index].Declaration() != expected then seats
    else seats[index := seats[index].(bot := Some(c))]
  }

  function VacatedSeat(seat: Seat, c: ControllerId): Seat {
    if !seat.HeldBy(c) then seat
    else if seat.ControllerSeat? then EmptySeat
    else seat.(bot := None)
  }

  /** A leave vacates every seat its controller holds; an NPC seat keeps its declaration. */
  function ApplyLeave(seats: SeatRoster, c: ControllerId): (r: SeatRoster)
    ensures |r| == |seats|
    ensures forall i :: 0 <= i < |seats| ==> r[i] == VacatedSeat(seats[i], c)
  {
    seq(|seats|, i requires 0 <= i < |seats| => VacatedSeat(seats[i], c))
  }

  function ApplyJoins(seats: SeatRoster, commands: seq<LobbyCommand>): (r: SeatRoster)
    ensures |r| == |seats|
    decreases |commands|
  {
    if commands == [] then seats
    else
      var c := commands[0];
      ApplyJoins(if c.JoinCommand? then ApplyJoin(seats, c.joining, c.seatIndex, c.expectedNpc) else seats,
                 commands[1..])
  }

  function ApplyLeaves(seats: SeatRoster, commands: seq<LobbyCommand>): (r: SeatRoster)
    ensures |r| == |seats|
    decreases |commands|
  {
    if commands == [] then seats
    else
      var c := commands[0];
      ApplyLeaves(if c.LeaveCommand? then ApplyLeave(seats, c.leaving) else seats, commands[1..])
  }

  /** One tick over drained commands: a leave ranks after every join, whatever was submitted first. */
  function ApplyBatch(seats: SeatRoster, commands: seq<LobbyCommand>): (r: SeatRoster)
    ensures |r| == |seats|
  {
    ApplyLeaves(ApplyJoins(seats, commands), commands)
  }
}
