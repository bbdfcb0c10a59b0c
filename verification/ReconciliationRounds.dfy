/** Reconciliation closed over the tick that applies its joins and leaves to the lobby seats. */
module ReconciliationRounds {
  import opened Wrappers
  import opened AscendingKeys
  import opened SeatRosters
  import opened SeatBatches
  import opened CommandSinks
  import opened ControllerHosts
  import opened Reconciliation
  import opened ReconciliationPass
  import opened ReconciliationRuns

  /** If this controller sits here: its identity has been issued, in an NPC seat it is a bot hosted for
      exactly that seat and declaration, and in a person's seat it is no bot. */
  ghost predicate HolderAgrees(st: ReconcilerState, seat: Seat, i: nat, c: ControllerId) {
    seat.HeldBy(c) ==>
      && c < st.sink.nextControllerId
      && (seat.NpcSeat? ==> c in st.bots && st.bots[c].seatIndex == i && st.bots[c].declaration == seat.Declaration())
      && (seat.ControllerSeat? ==> c !in st.bots)
  }

  ghost predicate RosterAgrees(st: ReconcilerState, seats: SeatRoster) {
    forall i: nat, c: ControllerId :: i < |seats| ==> HolderAgrees(st, seats[i], i, c)
  }

  /** No hosted bot is still waiting for its join at this tick. */
  ghost predicate NoJoinInFlight(st: ReconcilerState, seats: SeatRoster, observed: nat) {
    forall c :: c in st.bots ==> !FateOf(c, st.bots[c], seats, observed).JoinInFlight?
  }

  /** The commands one pass handed to the mailbox. */
  ghost function Issued(st: ReconcilerState, st': ReconcilerState): seq<LobbyCommand>
    requires |st.sink.submitted| <= |st'.sink.submitted|
  {
    st'.sink.submitted[|st.sink.submitted|..]
  }

  lemma {:induction false} JoinsOfConcatenation(seats: SeatRoster, a: seq<LobbyCommand>, b: seq<LobbyCommand>)
    ensures ApplyJoins(seats, a + b) == ApplyJoins(ApplyJoins(seats, a), b)
    decreases |a|
  {
    if a == [] {
      assert a + b == b;
    } else {
      var next := if a[0].JoinCommand? then ApplyJoin(seats, a[0].joining, a[0].seatIndex, a[0].expectedNpc) else seats;
      JoinsOfConcatenation(next, a[1..], b);
      assert (a + b)[0] == a[0] && (a + b)[1..] == a[1..] + b;
    }
  }

  lemma {:induction false} JoinsIgnoreLeaves(seats: SeatRoster, commands: seq<LobbyCommand>)
    requires forall k :: 0 <= k < |commands| ==> commands[k].LeaveCommand?
    ensures ApplyJoins(seats, commands) == seats
    decreases |commands|
  {
    if commands != [] { JoinsIgnoreLeaves(seats, commands[1..]); }
  }

  /** A leave of a controller that sits nowhere changes nothing. */
  lemma {:induction false} LeavesOfTheUnseated(seats: SeatRoster, commands: seq<LobbyCommand>)
    requires forall k :: 0 <= k < |commands| && commands[k].LeaveCommand? ==> !HoldsASeat(seats, commands[k].leaving)
    ensures ApplyLeaves(seats, commands) == seats
    decreases |commands|
  {
    if commands != [] {
      assert !(commands[0].LeaveCommand? && HoldsASeat(seats, commands[0].leaving));
      if commands[0].LeaveCommand? {
        forall i | 0 <= i < |seats| ensures VacatedSeat(seats[i], commands[0].leaving) == seats[i] {}
        assert ApplyLeave(seats, commands[0].leaving) == seats;
      }
      LeavesOfTheUnseated(seats, commands[1..]);
    }
  }

  // ---------------------------------------------------------------- while the seats are being filled

  /** The seats as the joins issued so far will leave them: seat by seat, either as published or, where
      the pass created a bot, held by that bot. */
  ghost predicate Filling(start: ReconcilerState, st: ReconcilerState, seats: SeatRoster, issued: seq<LobbyCommand>,
                          count: nat)
    requires count <= |seats|
  {
    var after := ApplyJoins(seats, issued);
    && (forall i :: 0 <= i < |seats| ==> SeatProgress(start, st, seats[i], after[i], i, count))
    && (forall c :: c in st.bots && c !in start.bots ==>
      start.sink.nextControllerId <= c < st.sink.nextControllerId && st.bots[c].seatIndex < count
        && after[st.bots[c].seatIndex].HeldBy(c))
    && (forall k :: 0 <= k < |issued| && issued[k].LeaveCommand? ==> LeavesNoSeat(start, st, issued[k].leaving))
  }

  /** A leave is either a bot the roster no longer shows, or an identity whose bot was never hosted. */
  ghost predicate LeavesNoSeat(start: ReconcilerState, st: ReconcilerState, c: ControllerId) {
    start.sink.nextControllerId <= c < st.sink.nextControllerId && c !in st.bots
  }

  ghost predicate SeatProgress(start: ReconcilerState, st: ReconcilerState, before: Seat, after: Seat, i: nat,
                               count: nat)
  {
    if after == before then true
    else
      && i < count && Unfilled(before) && after.NpcSeat? && after.bot.Some? && after == before.(bot := after.bot)
      && after.bot.value in st.bots && after.bot.value !in start.bots && st.bots[after.bot.value].seatIndex == i
      && st.bots[after.bot.value].declaration == before.Declaration()
  }

  lemma HoldersWhileFilling(start: ReconcilerState, st: ReconcilerState, seats: SeatRoster, issued: seq<LobbyCommand>,
                            count: nat)
    requires count <= |seats| && Filling(start, st, seats, issued, count) && RosterAgrees(start, seats)
    requires start.sink.nextControllerId <= st.sink.nextControllerId
    ensures !HoldsASeat(ApplyJoins(seats, issued), st.sink.nextControllerId)
  {
    var after := ApplyJoins(seats, issued);
    var issuedNext := st.sink.nextControllerId;
    forall i | 0 <= i < |seats| ensures !after[i].HeldBy(issuedNext) {
      assert SeatProgress(start, st, seats[i], after[i], i, count);
      if after[i] != seats[i] {
        assert after[i].bot.value in st.bots && after[i].bot.value !in start.bots;
      } else {
        assert HolderAgrees(start, seats[i], i, issuedNext);
      }
    }
  }

  lemma CreatedWhileFilling(start: ReconcilerState, st: ReconcilerState, st': ReconcilerState, seats: SeatRoster,
                            issued: seq<LobbyCommand>, seat: nat, observed: nat)
    requires seat < |seats| <= MAXIMUM_LOBBY_SEAT_COUNT && Filling(start, st, seats, issued, seat)
    requires RosterAgrees(start, seats)
    requires start.sink.nextControllerId <= st.sink.nextControllerId
    requires st.sink.nextControllerId !in start.bots
    requires Unfilled(seats[seat]) && Created(st, st', seats[seat].Declaration(), seat, observed)
    ensures Filling(start, st', seats,
                    issued + [JoinCommand(st.sink.nextControllerId, seat, seats[seat].Declaration())], seat + 1)
  {
    var c, d := st.sink.nextControllerId, seats[seat].Declaration();
    var join := JoinCommand(c, seat, d);
    var after := ApplyJoins(seats, issued);
    HoldersWhileFilling(start, st, seats, issued, seat);
    assert SeatProgress(start, st, seats[seat], after[seat], seat, seat);
    JoinsOfConcatenation(seats, issued, [join]);
    assert [join][1..] == [];
    var after' := ApplyJoins(seats, issued + [join]);
    assert after' == ApplyJoin(after, c, seat, d);
    assert after' == after[seat := after[seat].(bot := Some(c))];
    forall i | 0 <= i < |seats| ensures SeatProgress(start, st', seats[i], after'[i], i, seat + 1) {
      assert SeatProgress(start, st, seats[i], after[i], i, seat);
    }
    forall k | 0 <= k < |issued + [join]| && (issued + [join])[k].LeaveCommand?
      ensures LeavesNoSeat(start, st', (issued + [join])[k].leaving)
    {
      assert LeavesNoSeat(start, st, issued[k].leaving);
    }
  }

  lemma RefusedWhileFilling(start: ReconcilerState, st: ReconcilerState, st': ReconcilerState, seats: SeatRoster,
                            issued: seq<LobbyCommand>, extra: seq<LobbyCommand>, seat: nat)
    requires seat < |seats| && Filling(start, st, seats, issued, seat)
    requires st'.bots == st.bots && start.sink.nextControllerId <= st.sink.nextControllerId <= st'.sink.nextControllerId
    requires forall c :: c in st.bots ==> c < st.sink.nextControllerId
    requires extra == []
      || (extra == [LeaveCommand(st.sink.nextControllerId)] && st.sink.nextControllerId < st'.sink.nextControllerId)
    ensures Filling(start, st', seats, issued + extra, seat + 1)
  {
    var after := ApplyJoins(seats, issued);
    JoinsOfConcatenation(seats, issued, extra);
    JoinsIgnoreLeaves(after, extra);
    forall i | 0 <= i < |seats| ensures SeatProgress(start, st', seats[i], after[i], i, seat + 1) {
      assert SeatProgress(start, st, seats[i], after[i], i, seat);
    }
    forall k | 0 <= k < |issued + extra| && (issued + extra)[k].LeaveCommand?
      ensures LeavesNoSeat(start, st', (issued + extra)[k].leaving)
    {
      if k < |issued| { assert LeavesNoSeat(start, st, issued[k].leaving); }
    }
  }

  lemma SubmittedGrows(room: Room, st: ReconcilerState, seats: SeatRoster, seat: nat, observed: nat)
    requires Inv(st) && AllTracked(st, seats, observed) && seat < |seats|
    ensures var st' := FillSeat(room, st, seats, seat, observed);
      && st.sink.submitted <= st'.sink.submitted && st.sink.nextControllerId <= st'.sink.nextControllerId
      && (forall c :: c in st.bots ==> c < st.sink.nextControllerId)
      && var extra := Issued(st, st');
         if Unfilled(seats[seat]) && Created(st, st', seats[seat].Declaration(), seat, observed) then
           seat < MAXIMUM_LOBBY_SEAT_COUNT ==>
             extra == [JoinCommand(st.sink.nextControllerId, seat, seats[seat].Declaration())]
         else
           && st'.bots == st.bots
           && (extra == []
               || (extra == [LeaveCommand(st.sink.nextControllerId)]
                   && st.sink.nextControllerId < st'.sink.nextControllerId))
  {
    hide ValidHost, Ids, CreateBot, CreationSucceeds, ForeignSessions;
    if Unfilled(seats[seat]) {
      CreationIsExact(room, st, seats[seat].Declaration(), seat, observed);
    }
  }

  lemma {:induction false} FillingProceeds(room: Room, start: ReconcilerState, seats: SeatRoster, count: nat,
                                           observed: nat)
    requires Inv(start) && AllTracked(start, seats, observed) && RosterAgrees(start, seats)
    requires count <= |seats| <= MAXIMUM_LOBBY_SEAT_COUNT
    ensures var st := FillSeats(room, start, seats, count, observed);
      && start.sink.submitted <= st.sink.submitted && start.sink.nextControllerId <= st.sink.nextControllerId
      && Filling(start, st, seats, Issued(start, st), count)
  {
    hide Inv, AllTracked, Filling, FillSeat, ForeignSessions, Created, SeatServed;
    if count == 0 {
      assert Issued(start, start) == [];
      NothingIssuedYet(start, seats);
    } else {
      FillingProceeds(room, start, seats, count - 1, observed);
      var seat := count - 1;
      var st := FillSeats(room, start, seats, seat, observed);
      FillSeatsKeep(room, start, seats, seat, observed);
      SubmittedGrows(room, st, seats, seat, observed);
      var st' := FillSeat(room, st, seats, seat, observed);
      var issued := Issued(start, st);
      assert Issued(start, st') == issued + Issued(st, st');
      if Unfilled(seats[seat]) && Created(st, st', seats[seat].Declaration(), seat, observed) {
        KnownIdentities(start);
        CreatedWhileFilling(start, st, st', seats, issued, seat, observed);
      } else {
        RefusedWhileFilling(start, st, st', seats, issued, Issued(st, st'), seat);
      }
    }
  }

  lemma KnownIdentities(st: ReconcilerState)
    requires Inv(st)
    ensures forall c :: c in st.bots ==> c < st.sink.nextControllerId
  {
  }

  lemma NothingIssuedYet(start: ReconcilerState, seats: SeatRoster)
    ensures Filling(start, start, seats, [], 0)
  {
  }

  // ---------------------------------------------------------------- the round

  ghost predicate LeaverSatNowhere(st: ReconcilerState, seats: SeatRoster, observed: nat, command: LobbyCommand) {
    && command.LeaveCommand? && Retires(st.bots, command.leaving, seats, observed, false)
    && !HoldsASeat(seats, command.leaving)
  }

  ghost predicate LeaversSatNowhere(st: ReconcilerState, seats: SeatRoster, observed: nat, leaves: seq<LobbyCommand>) {
    forall k :: 0 <= k < |leaves| ==> LeaverSatNowhere(st, seats, observed, leaves[k])
  }

  /** A retired bot held no seat of a roster that agrees with the bots. */
  lemma {:induction false} RetiredHeldNothing(st: ReconcilerState, seats: SeatRoster, observed: nat,
                                              order: seq<ControllerId>)
    requires RosterAgrees(st, seats)
    ensures LeaversSatNowhere(st, seats, observed, LeavesOf(st.bots, order, seats, observed, false))
    decreases |order|
  {
    if order != [] {
      RetiredHeldNothing(st, seats, observed, order[1..]);
      if Retires(st.bots, order[0], seats, observed, false) {
        forall i | 0 <= i < |seats|
          ensures !seats[i].HeldBy(order[0])
        {
          assert HolderAgrees(st, seats[i], i, order[0]);
        }
        assert LeaverSatNowhere(st, seats, observed, LeaveCommand(order[0]));
      }
    }
  }

  lemma AgreementSurvivesRetirement(st: ReconcilerState, seats: SeatRoster, observed: nat)
    requires Inv(st) && RosterAgrees(st, seats)
    ensures RosterAgrees(Retire(st, seats, observed, false), seats)
  {
    hide ValidHost, Ids, ValidSink, Retire, LeavesOf, ForeignSessions;
    RetireIsExact(st, seats, observed, false);
    forall i: nat, c: ControllerId | i < |seats|
      ensures HolderAgrees(Retire(st, seats, observed, false), seats[i], i, c)
    {
      assert HolderAgrees(st, seats[i], i, c);
    }
  }

  /** A seat after the round: people's seats are untouched, and a declared seat either still waits for
      a bot that could not be created or is held by the one bot hosted for it. */
  ghost predicate SeatAfterRound(st': ReconcilerState, before: Seat, after: Seat, i: nat) {
    if !before.NpcSeat? then after == before
    else
      && after.NpcSeat? && after == before.(bot := after.bot) && (before.bot.Some? ==> after == before)
      && if after.bot.None? then i in st'.failed && st'.failed[i] == before.Declaration()
         else i !in st'.failed && after.bot.value in st'.bots && st'.bots[after.bot.value].seatIndex == i
              && st'.bots[after.bot.value].declaration == before.Declaration()
  }

  /** One round leaves the seats as its own joins left them: its leaves find nobody seated. */
  lemma RoundOnlyJoins(room: Room, st: ReconcilerState, seats: SeatRoster, observed: nat)
    returns (filled: seq<LobbyCommand>)
    requires Inv(st) && |seats| <= MAXIMUM_LOBBY_SEAT_COUNT && RosterAgrees(st, seats)
    ensures var start, st' := Retire(st, seats, observed, false), Reconcile(room, st, seats, observed, false);
      && start.bots == SurvivingBots(st.bots, seats, observed, false)
      && start.sink.nextControllerId == st.sink.nextControllerId <= st'.sink.nextControllerId
      && st.sink.submitted <= st'.sink.submitted && Inv(st') && Quiet(st', seats, observed)
      && (forall c :: c in start.bots ==> c in st'.bots && st'.bots[c] == start.bots[c])
      && RosterAgrees(start, seats) && Filling(start, st', seats, filled, |seats|)
      && ApplyBatch(seats, Issued(st, st')) == ApplyJoins(seats, filled)
  {
    hide Inv, Filling, ForeignSessions, FillSeats, Retire, LeavesOf, SeatServed, RosterAgrees,
      AllTracked, LeaversSatNowhere, ApplyJoins, ApplyLeaves, HoldsASeat, SurvivingBots, Ascending;
    var start := Retire(st, seats, observed, false);
    KnownIdentities(st);
    RetireIsExact(st, seats, observed, false);
    SurvivorsAreTracked(st, seats, observed);
    AgreementSurvivesRetirement(st, seats, observed);
    FillingProceeds(room, start, seats, |seats|, observed);
    FillSeatsKeep(room, start, seats, |seats|, observed);
    var st' := Reconcile(room, st, seats, observed, false);
    var leaves := LeavesOf(st.bots, Ascending(st.bots.Keys), seats, observed, false);
    filled := Issued(start, st');
    assert Issued(st, st') == leaves + filled;
    RetiredHeldNothing(st, seats, observed, Ascending(st.bots.Keys));
    JoinsAfterLeaves(st, seats, observed, leaves, filled);
    PassServesTheRoster(room, st, seats, observed);
    LeaversSitNowhere(st, start, st', seats, leaves, filled, observed);
    LeavesOfTheUnseated(ApplyJoins(seats, filled), leaves + filled);
  }

  /** One round -- one pass over the committed seats, then one tick over what it submitted -- seats
      every bot there is: afterwards each declared seat is held by its own hosted bot or is a recorded
      failure, each hosted bot holds its seat, and nobody else moved. */
  lemma RoundSeatsEveryBot(room: Room, st: ReconcilerState, seats: SeatRoster, observed: nat)
    requires Inv(st) && |seats| <= MAXIMUM_LOBBY_SEAT_COUNT
    requires RosterAgrees(st, seats) && NoJoinInFlight(st, seats, observed)
    ensures var st' := Reconcile(room, st, seats, observed, false);
      st.sink.submitted <= st'.sink.submitted &&
      var after := ApplyBatch(seats, Issued(st, st'));
      && (forall i :: 0 <= i < |seats| ==> SeatAfterRound(st', seats[i], after[i], i))
      && AllSeated(st', after) && RosterAgrees(st', after)
  {
    hide Inv, Filling, Reconcile, Retire, Quiet, RosterAgrees, SeatAfterRound, AllSeated, NoJoinInFlight, ApplyJoins,
      ApplyBatch,
      SurvivingBots;
    var filled := RoundOnlyJoins(room, st, seats, observed);
    SeatsAfterFilling(st, Retire(st, seats, observed, false), Reconcile(room, st, seats, observed, false), seats,
                      filled, observed);
  }

  lemma JoinsAfterLeaves(st: ReconcilerState, seats: SeatRoster, observed: nat, leaves: seq<LobbyCommand>,
                         filled: seq<LobbyCommand>)
    requires LeaversSatNowhere(st, seats, observed, leaves)
    ensures ApplyJoins(seats, leaves + filled) == ApplyJoins(seats, filled)
  {
    forall k | 0 <= k < |leaves| ensures leaves[k].LeaveCommand? {
      assert LeaverSatNowhere(st, seats, observed, leaves[k]);
    }
    JoinsOfConcatenation(seats, leaves, filled);
    JoinsIgnoreLeaves(seats, leaves);
  }

  lemma LeaversSitNowhere(st: ReconcilerState, start: ReconcilerState, st': ReconcilerState, seats: SeatRoster,
                          leaves: seq<LobbyCommand>, filled: seq<LobbyCommand>, observed: nat)
    requires RosterAgrees(start, seats) && Filling(start, st', seats, filled, |seats|)
    requires start.bots == SurvivingBots(st.bots, seats, observed, false)
    requires start.sink.nextControllerId == st.sink.nextControllerId
    requires forall c :: c in st.bots ==> c < st.sink.nextControllerId
    requires LeaversSatNowhere(st, seats, observed, leaves)
    ensures forall k :: 0 <= k < |leaves + filled| && (leaves + filled)[k].LeaveCommand? ==>
      !HoldsASeat(ApplyJoins(seats, filled), (leaves + filled)[k].leaving)
  {
    var after := ApplyJoins(seats, filled);
    forall k | 0 <= k < |leaves + filled| && (leaves + filled)[k].LeaveCommand?
      ensures !HoldsASeat(after, (leaves + filled)[k].leaving)
    {
      var c := (leaves + filled)[k].leaving;
      if k < |leaves| { assert LeaverSatNowhere(st, seats, observed, leaves[k]); }
      else { assert LeavesNoSeat(start, st', filled[k - |leaves|].leaving); }
      forall i | 0 <= i < |seats| ensures !after[i].HeldBy(c) {
        assert SeatProgress(start, st', seats[i], after[i], i, |seats|);
        if after[i] == seats[i] {
          if k < |leaves| { assert !seats[i].HeldBy(c); } else { assert HolderAgrees(start, seats[i], i, c); }
        } else {
          assert after[i].bot.value in st'.bots && after[i].bot.value !in start.bots;
        }
      }
    }
  }

  lemma SeatsAfterFilling(st: ReconcilerState, start: ReconcilerState, st': ReconcilerState, seats: SeatRoster,
                          filled: seq<LobbyCommand>, observed: nat)
    requires RosterAgrees(start, seats) && Filling(start, st', seats, filled, |seats|)
    requires Inv(st') && Quiet(st', seats, observed) && NoJoinInFlight(st, seats, observed)
    requires start.bots == SurvivingBots(st.bots, seats, observed, false)
    requires forall c :: c in start.bots ==> c in st'.bots && st'.bots[c] == start.bots[c]
    requires start.sink.nextControllerId <= st'.sink.nextControllerId
    ensures var after := ApplyJoins(seats, filled);
      && (forall i :: 0 <= i < |seats| ==> SeatAfterRound(st', seats[i], after[i], i))
      && AllSeated(st', after) && RosterAgrees(st', after)
  {
    hide ValidHost, Ids, ValidSink;
    hide SeatAfterRound, AllSeated, RosterAgrees, Filling;
    BotsAfterFilling(st, start, st', seats, filled, observed);
    EachSeatAfterFilling(start, st', seats, filled, observed);
    AgreementAfterFilling(start, st', seats, filled);
  }

  lemma EachSeatAfterFilling(start: ReconcilerState, st': ReconcilerState, seats: SeatRoster, filled: seq<LobbyCommand>,
                             observed: nat)
    requires RosterAgrees(start, seats) && Filling(start, st', seats, filled, |seats|)
    requires Inv(st') && Quiet(st', seats, observed) && AllSeated(st', ApplyJoins(seats, filled))
    requires forall c :: c in start.bots ==> c in st'.bots && st'.bots[c] == start.bots[c]
    ensures var after := ApplyJoins(seats, filled);
      forall i :: 0 <= i < |seats| ==> SeatAfterRound(st', seats[i], after[i], i)
  {
    hide SeatProgress, SeatServed, SeatAfterRound, ApplyJoins, HolderAgrees, Inv;
    var after := ApplyJoins(seats, filled);
    forall i | 0 <= i < |seats| ensures SeatAfterRound(st', seats[i], after[i], i) {
      assert SeatProgress(start, st', seats[i], after[i], i, |seats|);
      assert SeatServed(st', seats, i);
      if seats[i].NpcSeat? && seats[i].bot.Some? { assert HolderAgrees(start, seats[i], i, seats[i].bot.value); }
      EachSeat(start, st', seats, after, i);
    }
  }

  lemma EachSeat(start: ReconcilerState, st': ReconcilerState, seats: SeatRoster, after: SeatRoster, i: nat)
    requires i < |seats| == |after| && SeatProgress(start, st', seats[i], after[i], i, |seats|)
    requires Inv(st') && SeatServed(st', seats, i) && AllSeated(st', after)
    requires seats[i].NpcSeat? && seats[i].bot.Some? ==> HolderAgrees(start, seats[i], i, seats[i].bot.value)
    requires forall c :: c in start.bots ==> c in st'.bots && st'.bots[c] == start.bots[c]
    ensures SeatAfterRound(st', seats[i], after[i], i)
  {
    hide ValidHost, Ids, ValidSink;
  }

  lemma BotsAfterFilling(st: ReconcilerState, start: ReconcilerState, st': ReconcilerState, seats: SeatRoster,
                         filled: seq<LobbyCommand>, observed: nat)
    requires Filling(start, st', seats, filled, |seats|) && Quiet(st', seats, observed)
    requires NoJoinInFlight(st, seats, observed)
    requires start.bots == SurvivingBots(st.bots, seats, observed, false)
    requires forall c :: c in start.bots ==> c in st'.bots && st'.bots[c] == start.bots[c]
    ensures AllSeated(st', ApplyJoins(seats, filled))
  {
    hide SeatServed;
    var after := ApplyJoins(seats, filled);
    forall c | c in st'.bots
      ensures SameDeclaration(after, st'.bots[c].seatIndex, st'.bots[c].declaration)
      ensures after[st'.bots[c].seatIndex].bot == Some(c)
    {
      var i := st'.bots[c].seatIndex;
      assert Tracked(c, st'.bots[c], seats, observed);
      assert SeatProgress(start, st', seats[i], after[i], i, |seats|);
    }
  }

  lemma AgreementAfterFilling(start: ReconcilerState, st': ReconcilerState, seats: SeatRoster,
                              filled: seq<LobbyCommand>)
    requires RosterAgrees(start, seats) && Filling(start, st', seats, filled, |seats|)
    requires forall c :: c in start.bots ==> c in st'.bots && st'.bots[c] == start.bots[c]
    requires start.sink.nextControllerId <= st'.sink.nextControllerId
    ensures RosterAgrees(st', ApplyJoins(seats, filled))
  {
    hide SeatProgress, ApplyJoins, HolderAgrees;
    var after := ApplyJoins(seats, filled);
    forall i: nat, c: ControllerId | i < |after| ensures HolderAgrees(st', after[i], i, c) {
      assert SeatProgress(start, st', seats[i], after[i], i, |seats|);
      assert HolderAgrees(start, seats[i], i, c);
      HolderStillAgrees(start, st', seats[i], after[i], i, |seats|, c);
    }
  }

  lemma HolderStillAgrees(start: ReconcilerState, st': ReconcilerState, before: Seat, after: Seat, i: nat, count: nat,
                          c: ControllerId)
    requires HolderAgrees(start, before, i, c) && SeatProgress(start, st', before, after, i, count)
    requires forall k :: k in start.bots ==> k in st'.bots && st'.bots[k] == start.bots[k]
    requires forall k :: k in st'.bots && k !in start.bots ==>
      start.sink.nextControllerId <= k < st'.sink.nextControllerId
    requires start.sink.nextControllerId <= st'.sink.nextControllerId
    ensures HolderAgrees(st', after, i, c)
  {
  }

  ghost function Landed(bots: map<ControllerId, HostedBot>): map<ControllerId, HostedBot> {
    map c | c in bots :: bots[c].(joinSubmittedAt := None)
  }

  /** The pass after the round, at whatever tick it comes, only notes that the joins landed: it creates
      and retires nothing, and the sink and the host are left as they were. */
  lemma RoundIsFollowedByQuiet(room: Room, st: ReconcilerState, seats: SeatRoster, observed: nat, later: nat)
    requires Inv(st) && |seats| <= MAXIMUM_LOBBY_SEAT_COUNT
    requires RosterAgrees(st, seats) && NoJoinInFlight(st, seats, observed)
    ensures var st' := Reconcile(room, st, seats, observed, false);
      st.sink.submitted <= st'.sink.submitted &&
      var after := ApplyBatch(seats, Issued(st, st'));
      Reconcile(room, st', after, later, false) == st'.(bots := Landed(st'.bots))
  {
    hide Inv, Reconcile, SeatServed, RosterAgrees, NoJoinInFlight;
    RoundSeatsEveryBot(room, st, seats, observed);
    PassKeeps(room, st, seats, observed, false);
    PassServesTheRoster(room, st, seats, observed);
    var st' := Reconcile(room, st, seats, observed, false);
    SeatedPass(room, st', seats, ApplyBatch(seats, Issued(st, st')), later);
  }

  lemma SeatedPass(room: Room, st: ReconcilerState, seats: SeatRoster, after: SeatRoster, later: nat)
    requires Inv(st) && AllSeated(st, after) && |after| == |seats| && FailuresCurrent(st, seats)
    requires forall i :: 0 <= i < |seats| ==> SeatAfterRound(st, seats[i], after[i], i)
    ensures Reconcile(room, st, after, later, false) == st.(bots := Landed(st.bots))
  {
    hide ValidHost, Ids, ValidSink, FillSeats;
    var landed := st.(bots := Landed(st.bots));
    SeatedWalk(Walk(st.bots, st.sink, st.hosted), Ascending(st.bots.Keys), after, later);
    AscendingIsAscending(st.bots.Keys);
    var walked := SettleInOrder(Walk(st.bots, st.sink, st.hosted), Ascending(st.bots.Keys), after, later, false);
    SeatedBotsLand(st, after, later);
    assert RememberedFailures(st.failed, after) == st.failed by {
      forall i | i in st.failed ensures SameDeclaration(after, i, st.failed[i]) {
        assert SeatAfterRound(st, seats[i], after[i], i);
      }
    }
    forall i | 0 <= i < |after| ensures SeatServed(landed, after, i) {
      assert SeatAfterRound(st, seats[i], after[i], i);
      assert i in st.failed ==> SameDeclaration(seats, i, st.failed[i]);
    }
    QuietFill(room, landed, after, |after|, later);
  }

  lemma SeatedBotsLand(st: ReconcilerState, after: SeatRoster, later: nat)
    requires Inv(st) && AllSeated(st, after)
    ensures SettleInOrder(Walk(st.bots, st.sink, st.hosted), Ascending(st.bots.Keys), after, later, false).bots ==
      Landed(st.bots)
  {
    hide SettleInOrder, Inv, AllSeated, Ascending, Landed;
    var walked := SettleInOrder(Walk(st.bots, st.sink, st.hosted), Ascending(st.bots.Keys), after, later, false).bots;
    forall c ensures c in walked <==> c in Landed(st.bots)
      ensures c in walked ==> walked[c] == Landed(st.bots)[c]
    {
      SeatedBotLands(st, after, later, c);
    }
  }

  lemma SeatedBotLands(st: ReconcilerState, after: SeatRoster, later: nat, c: ControllerId)
    requires Inv(st) && AllSeated(st, after)
    ensures var walked :=
      SettleInOrder(Walk(st.bots, st.sink, st.hosted), Ascending(st.bots.Keys), after, later, false).bots;
      (c in walked <==> c in Landed(st.bots)) && (c in walked ==> walked[c] == Landed(st.bots)[c])
  {
    hide SettleInOrder, ValidHost, Ids, ValidSink, Ascending, DistinctSeats, NoFailedSeatIsHosted;
    AscendingIsAscending(st.bots.Keys);
    WalkAt(Walk(st.bots, st.sink, st.hosted), Ascending(st.bots.Keys), after, later, false, c);
  }

  lemma {:induction false} SeatedWalk(w: Walk, order: seq<ControllerId>, seats: SeatRoster, observed: nat)
    requires forall c :: c in order && c in w.bots ==>
      SameDeclaration(seats, w.bots[c].seatIndex, w.bots[c].declaration) && seats[w.bots[c].seatIndex].bot == Some(c)
    ensures var w' := SettleInOrder(w, order, seats, observed, false);
      w'.sink == w.sink && w'.hosted == w.hosted
    decreases |order|
  {
    if order != [] {
      assert forall c :: c in order[1..] ==> c in order;
      SeatedWalk(if order[0] in w.bots then SettleOne(w, order[0], seats, observed, false) else w, order[1..], seats,
                 observed);
    }
  }

  /** A pass over an abandoned room followed by a tick leaves every declaration standing and every bot
      out of its seat, so nothing holds the match open and the lobby can be seated again. */
  lemma AbandonedRoundVacatesEverySeat(room: Room, st: ReconcilerState, seats: SeatRoster, observed: nat)
    requires Inv(st) && RosterAgrees(st, seats)
    ensures var st' := Reconcile(room, st, seats, observed, true);
      st.sink.submitted <= st'.sink.submitted &&
      var after := ApplyBatch(seats, Issued(st, st'));
      forall i :: 0 <= i < |seats| ==> after[i] == if seats[i].NpcSeat? then seats[i].(bot := None) else seats[i]
  {
    hide Inv, ValidHost, Ids, ValidSink, Retire, ForeignSessions;
    RetireIsExact(st, seats, observed, true);
    var order := Ascending(st.bots.Keys);
    var leaves := LeavesOf(st.bots, order, seats, observed, true);
    EveryBotLeaves(st.bots, order, seats, observed);
    JoinsIgnoreLeaves(seats, leaves);
    var after := ApplyLeaves(seats, leaves);
    forall i | 0 <= i < |seats| ensures after[i] == if seats[i].NpcSeat? then seats[i].(bot := None) else seats[i] {
      LeavesAreSeatwise(seats, leaves, i);
      HolderLeaves(st, seats, order, leaves, i);
    }
  }

  lemma HolderLeaves(st: ReconcilerState, seats: SeatRoster, order: seq<ControllerId>, leaves: seq<LobbyCommand>,
                     i: nat)
    requires RosterAgrees(st, seats) && i < |seats| && |leaves| == |order|
    requires forall c :: c in order <==> c in st.bots
    requires forall k :: 0 <= k < |order| ==> leaves[k] == LeaveCommand(order[k])
    ensures (exists k :: 0 <= k < |leaves| && seats[i].HeldBy(leaves[k].leaving)) <==>
      seats[i].NpcSeat? && seats[i].bot.Some?
  {
    if seats[i].NpcSeat? && seats[i].bot.Some? {
      var c := seats[i].bot.value;
      assert HolderAgrees(st, seats[i], i, c);
      assert c in order;
      var k :| 0 <= k < |order| && order[k] == c;
      assert seats[i].HeldBy(leaves[k].leaving);
    }
    forall k | 0 <= k < |leaves| && seats[i].HeldBy(leaves[k].leaving) ensures seats[i].NpcSeat? {
      assert order[k] in order && HolderAgrees(st, seats[i], i, order[k]);
    }
  }

  lemma {:induction false} EveryBotLeaves(bots: map<ControllerId, HostedBot>, order: seq<ControllerId>,
                                          seats: SeatRoster, observed: nat)
    requires forall c :: c in order ==> c in bots
    ensures var leaves := LeavesOf(bots, order, seats, observed, true);
      && |leaves| == |order| && forall k :: 0 <= k < |order| ==> leaves[k] == LeaveCommand(order[k])
    decreases |order|
  {
    if order != [] {
      assert forall c :: c in order[1..] ==> c in order;
      EveryBotLeaves(bots, order[1..], seats, observed);
    }
  }
}
