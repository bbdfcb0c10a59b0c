/** One tick's joins and leaves as a single seat sees them. */
module SeatBatches {
  import opened Wrappers
  import opened SeatRosters

  /** Where a controller's joins lead: its one seat, and the declaration it was built for. */
  datatype Home = Home(seat: nat, declaration: NpcDeclaration)

  ghost predicate GoesHome(homes: map<ControllerId, Home>, c: LobbyCommand) {
    c.JoinCommand? ==> c.joining in homes && homes[c.joining] == Home(c.seatIndex, c.expectedNpc)
  }

  ghost predicate AllGoHome(homes: map<ControllerId, Home>, commands: seq<LobbyCommand>) {
    forall k :: 0 <= k < |commands| ==> GoesHome(homes, commands[k])
  }

  /** Nobody with a home sits anywhere else. */
  ghost predicate AllSitAtHome(homes: map<ControllerId, Home>, seats: SeatRoster) {
    forall i: nat, c :: i < |seats| && c in homes && seats[i].HeldBy(c) ==> homes[c].seat == i && seats[i].NpcSeat?
  }

  /** This join fills this seat, as it stands. */
  predicate Fills(c: LobbyCommand, seat: Seat, i: nat) {
    c.JoinCommand? && c.seatIndex == i && Unfilled(seat) && seat.Declaration() == c.expectedNpc
  }

  function FirstJoin(commands: seq<LobbyCommand>, seat: Seat, i: nat): (r: Option<ControllerId>)
    ensures r.Some? ==> Unfilled(seat)
    decreases |commands|
  {
    if commands == [] then None
    else if Fills(commands[0], seat, i) then Some(commands[0].joining)
    else FirstJoin(commands[1..], seat, i)
  }

  function Joined(commands: seq<LobbyCommand>, seat: Seat, i: nat): Seat {
    match FirstJoin(commands, seat, i)
    case None => seat
    case Some(c) => seat.(bot := Some(c))
  }

  lemma {:induction false} FirstJoinFills(commands: seq<LobbyCommand>, seat: Seat, i: nat)
    ensures FirstJoin(commands, seat, i).Some? ==>
      exists k :: 0 <= k < |commands| && Fills(commands[k], seat, i) &&
        commands[k].joining == FirstJoin(commands, seat, i).value
    ensures FirstJoin(commands, seat, i).None? ==> forall k :: 0 <= k < |commands| ==> !Fills(commands[k], seat, i)
    decreases |commands|
  {
    if commands != [] && !Fills(commands[0], seat, i) {
      FirstJoinFills(commands[1..], seat, i);
      assert forall k :: 0 < k < |commands| ==> commands[k] == commands[1..][k - 1];
    }
  }

  lemma {:induction false} FirstJoinOfBoth(a: seq<LobbyCommand>, b: seq<LobbyCommand>, seat: Seat, i: nat)
    ensures FirstJoin(a + b, seat, i) ==
      if FirstJoin(a, seat, i).Some? then FirstJoin(a, seat, i) else FirstJoin(b, seat, i)
    decreases |a|
  {
    if a == [] {
      assert a + b == b;
    } else {
      assert (a + b)[0] == a[0] && (a + b)[1..] == a[1..] + b;
      FirstJoinOfBoth(a[1..], b, seat, i);
    }
  }

  /** Whatever a batch joins, each seat is taken by the first join that fills it. */
  lemma {:induction false} JoinsAreSeatwise(homes: map<ControllerId, Home>, seats: SeatRoster,
                                            commands: seq<LobbyCommand>)
    requires AllGoHome(homes, commands) && AllSitAtHome(homes, seats)
    ensures forall i :: 0 <= i < |seats| ==> ApplyJoins(seats, commands)[i] == Joined(commands, seats[i], i)
    decreases |commands|
  {
    if commands != [] {
      var c := commands[0];
      assert GoesHome(homes, c);
      var next := if c.JoinCommand? then ApplyJoin(seats, c.joining, c.seatIndex, c.expectedNpc) else seats;
      OneJoin(homes, seats, c);
      assert forall k :: 0 <= k < |commands[1..]| ==> commands[1..][k] == commands[k + 1];
      JoinsAreSeatwise(homes, next, commands[1..]);
      forall i | 0 <= i < |seats| ensures ApplyJoins(seats, commands)[i] == Joined(commands, seats[i], i) {
        if Fills(c, seats[i], i) { FilledStaysFilled(commands[1..], next[i], i); }
      }
    }
  }

  lemma FilledStaysFilled(commands: seq<LobbyCommand>, seat: Seat, i: nat)
    requires !Unfilled(seat)
    ensures Joined(commands, seat, i) == seat
  {
  }

  lemma OneJoin(homes: map<ControllerId, Home>, seats: SeatRoster, c: LobbyCommand)
    requires GoesHome(homes, c) && AllSitAtHome(homes, seats)
    ensures var next := if c.JoinCommand? then ApplyJoin(seats, c.joining, c.seatIndex, c.expectedNpc) else seats;
      && AllSitAtHome(homes, next)
      && forall i :: 0 <= i < |seats| ==>
           next[i] == if Fills(c, seats[i], i) then seats[i].(bot := Some(c.joining)) else seats[i]
  {
  }

  /** Somebody holding this seat is among those leaving. */
  ghost predicate IsLeft(commands: seq<LobbyCommand>, seat: Seat) {
    exists k :: 0 <= k < |commands| && commands[k].LeaveCommand? && seat.HeldBy(commands[k].leaving)
  }

  function Vacant(seat: Seat): Seat {
    match seat
    case NpcSeat(_, _, _) => seat.(bot := None)
    case _ => EmptySeat
  }

  /** A seat after the leaves of a batch: vacated exactly when its holder is among those leaving. */
  lemma {:induction false} LeavesAreSeatwise(seats: SeatRoster, commands: seq<LobbyCommand>, i: nat)
    requires i < |seats|
    ensures ApplyLeaves(seats, commands)[i] == if IsLeft(commands, seats[i]) then Vacant(seats[i]) else seats[i]
    decreases |commands|
  {
    if commands != [] {
      var next := if commands[0].LeaveCommand? then ApplyLeave(seats, commands[0].leaving) else seats;
      LeavesAreSeatwise(next, commands[1..], i);
      assert commands == [commands[0]] + commands[1..];
    }
  }

  /** A whole batch, seat by seat. */
  lemma BatchIsSeatwise(homes: map<ControllerId, Home>, seats: SeatRoster, commands: seq<LobbyCommand>, i: nat)
    requires AllGoHome(homes, commands) && AllSitAtHome(homes, seats) && i < |seats|
    ensures var joined := Joined(commands, seats[i], i);
      ApplyBatch(seats, commands)[i] == if IsLeft(commands, joined) then Vacant(joined) else joined
  {
    JoinsAreSeatwise(homes, seats, commands);
    LeavesAreSeatwise(ApplyJoins(seats, commands), commands, i);
  }

  // ---------------------------------------------------------------- one seat each

  /** Nobody sits at two seats. */
  ghost predicate OneSeatEach(seats: SeatRoster) {
    forall i, j, c :: 0 <= i < j < |seats| && seats[i].HeldBy(c) ==> !seats[j].HeldBy(c)
  }

  /** A join, whoever it is of, fills at most the one seat it names and seats nobody twice. */
  lemma JoinKeepsOneSeatEach(seats: SeatRoster, c: ControllerId, index: nat, expected: NpcDeclaration)
    requires OneSeatEach(seats)
    ensures OneSeatEach(ApplyJoin(seats, c, index, expected))
  {
    var next := ApplyJoin(seats, c, index, expected);
    forall i, d | 0 <= i < |seats| && next[i].HeldBy(d) ensures seats[i].HeldBy(d) || (i == index && d == c) {}
  }

  lemma LeaveKeepsOneSeatEach(seats: SeatRoster, c: ControllerId)
    requires OneSeatEach(seats)
    ensures OneSeatEach(ApplyLeave(seats, c))
  {
    var next := ApplyLeave(seats, c);
    forall i, d | 0 <= i < |seats| && next[i].HeldBy(d) ensures seats[i].HeldBy(d) {
      assert next[i] == VacatedSeat(seats[i], c);
    }
  }

  lemma {:induction false} JoinsKeepOneSeatEach(seats: SeatRoster, commands: seq<LobbyCommand>)
    requires OneSeatEach(seats)
    ensures OneSeatEach(ApplyJoins(seats, commands))
    decreases |commands|
  {
    hide OneSeatEach;
    if commands != [] {
      var c := commands[0];
      if c.JoinCommand? { JoinKeepsOneSeatEach(seats, c.joining, c.seatIndex, c.expectedNpc); }
      JoinsKeepOneSeatEach(if c.JoinCommand? then ApplyJoin(seats, c.joining, c.seatIndex, c.expectedNpc) else seats,
                           commands[1..]);
    }
  }

  lemma {:induction false} LeavesKeepOneSeatEach(seats: SeatRoster, commands: seq<LobbyCommand>)
    requires OneSeatEach(seats)
    ensures OneSeatEach(ApplyLeaves(seats, commands))
    decreases |commands|
  {
    hide OneSeatEach;
    if commands != [] {
      var c := commands[0];
      if c.LeaveCommand? { LeaveKeepsOneSeatEach(seats, c.leaving); }
      LeavesKeepOneSeatEach(if c.LeaveCommand? then ApplyLeave(seats, c.leaving) else seats, commands[1..]);
    }
  }

  /** Whatever joins and leaves a tick is handed, and whoever sends them, nobody ends up at two seats. */
  lemma BatchKeepsOneSeatEach(seats: SeatRoster, commands: seq<LobbyCommand>)
    requires OneSeatEach(seats)
    ensures OneSeatEach(ApplyBatch(seats, commands))
  {
    hide OneSeatEach, ApplyJoins, ApplyLeaves;
    JoinsKeepOneSeatEach(seats, commands);
    LeavesKeepOneSeatEach(ApplyJoins(seats, commands), commands);
  }
}
