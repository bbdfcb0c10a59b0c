/** What a failure record and a display ordinal are worth: when the one is forgotten, and what the other
    numbers. */
module ReconciliationRetries {
  import opened Wrappers
  import opened AscendingKeys
  import opened Decimals
  import opened SeatRosters
  import opened CommandSinks
  import opened ControllerHosts
  import opened Reconciliation
  import opened ReconciliationPass
  import opened ReconciliationRuns

  // ---------------------------------------------------------------- how long a failure is remembered

  /** A pass over a room in use remembers a failure exactly while the seat still declares the same NPC and
      still shows no bot: being shown filled forgets it as much as being declared anew. A pass over an
      abandoned room looks at the declaration alone. */
  lemma FailureIsRememberedExactlyWhen(room: Room, st: ReconcilerState, seats: SeatRoster, observed: nat,
                                       abandoned: bool, i: nat)
    requires Inv(st) && i in st.failed
    ensures var st' := Reconcile(room, st, seats, observed, abandoned);
      (i in st'.failed && st'.failed[i] == st.failed[i]) <==>
        SameDeclaration(seats, i, st.failed[i]) && (abandoned || Unfilled(seats[i]))
  {
    hide Inv, Retire, FillSeats, ForeignSessions, LeavesOf, SurvivingBots;
    if abandoned {
      RetireIsExact(st, seats, observed, true);
      return;
    }
    PassServesTheRoster(room, st, seats, observed);
    var st' := Reconcile(room, st, seats, observed, false);
    if i in st'.failed { assert SameDeclaration(seats, i, st'.failed[i]) && SeatServed(st', seats, i); }
    if SameDeclaration(seats, i, st.failed[i]) && Unfilled(seats[i]) {
      RetireIsExact(st, seats, observed, false);
      SurvivorsAreTracked(st, seats, observed);
      FailureOutlivesFilling(room, Retire(st, seats, observed, false), seats, |seats|, observed, i);
    }
  }

  function OrdinalOf(ordinals: map<string, nat>, kind: string): nat {
    if kind in ordinals then ordinals[kind] else 0
  }

  /** The pass tries to build a bot for this seat. */
  ghost predicate Attempts(st: ReconcilerState, seats: SeatRoster, seat: nat)
    requires seat < |seats|
  {
    && Unfilled(seats[seat])
    && !(seat in st.failed && st.failed[seat] == seats[seat].Declaration()) && !JoinPendingAt(st.bots, seat)
  }

  /** How many of the first seats the pass tries to build a bot of this kind for. */
  ghost function AttemptCount(st: ReconcilerState, seats: SeatRoster, kind: string, count: nat): nat
    requires count <= |seats|
  {
    if count == 0 then 0
    else
      AttemptCount(st, seats, kind, count - 1) +
      if Attempts(st, seats, count - 1) && seats[count - 1].kind == kind then 1 else 0
  }

  /** Until its turn comes a seat is attempted or not by what the pass started from. */
  lemma {:induction false} LaterSeatsWait(room: Room, st: ReconcilerState, seats: SeatRoster, count: nat, observed: nat,
                                          seat: nat)
    requires Inv(st) && AllTracked(st, seats, observed) && count <= seat < |seats|
    ensures var before := FillSeats(room, st, seats, count, observed);
      && (seat in before.failed <==> seat in st.failed)
      && (seat in st.failed ==> before.failed[seat] == st.failed[seat])
      && (JoinPendingAt(before.bots, seat) <==> JoinPendingAt(st.bots, seat))
  {
    hide Inv, AllTracked, ForeignSessions, SeatServed, FillSeat;
    if count > 0 {
      LaterSeatsWait(room, st, seats, count - 1, observed, seat);
      FillSeatsKeep(room, st, seats, count - 1, observed);
      OtherSeatsWait(room, FillSeats(room, st, seats, count - 1, observed), seats, count - 1, observed, seat);
    }
  }

  lemma OtherSeatsWait(room: Room, st: ReconcilerState, seats: SeatRoster, filled: nat, observed: nat, seat: nat)
    requires Inv(st) && filled < |seats| && seat < |seats| && seat != filled
    ensures var after := FillSeat(room, st, seats, filled, observed);
      && (seat in after.failed <==> seat in st.failed) && (seat in st.failed ==> after.failed[seat] == st.failed[seat])
      && (JoinPendingAt(after.bots, seat) <==> JoinPendingAt(st.bots, seat))
  {
    hide Inv, ForeignSessions, Consistent, CreateBot, CreationSucceeds;
    var after := FillSeat(room, st, seats, filled, observed);
    if Unfilled(seats[filled]) {
      CreationIsExact(room, st, seats[filled].Declaration(), filled, observed);
      if JoinPendingAt(st.bots, seat) {
        var c :| c in st.bots && st.bots[c].seatIndex == seat && st.bots[c].joinSubmittedAt.Some?;
        assert c in after.bots && after.bots[c] == st.bots[c];
      }
    }
  }

  lemma AttemptNumbers(room: Room, st: ReconcilerState, seats: SeatRoster, seat: nat, observed: nat, kind: string)
    requires seat < |seats|
    ensures OrdinalOf(FillSeat(room, st, seats, seat, observed).ordinals, kind) ==
      OrdinalOf(st.ordinals, kind) + if Attempts(st, seats, seat) && seats[seat].kind == kind then 1 else 0
  {
    hide OpenSession, CloseSession, Add, Submit, RegistryAdmits, ProfileKnown, DisplayName, JoinPendingAt;
  }

  lemma {:induction false} AttemptsAreNumbered(room: Room, st: ReconcilerState, seats: SeatRoster, count: nat,
                                               observed: nat, kind: string)
    requires Inv(st) && AllTracked(st, seats, observed) && count <= |seats|
    ensures OrdinalOf(FillSeats(room, st, seats, count, observed).ordinals, kind) ==
      OrdinalOf(st.ordinals, kind) + AttemptCount(st, seats, kind, count)
  {
    hide Inv, AllTracked, FillSeat, JoinPendingAt;
    if count > 0 {
      AttemptsAreNumbered(room, st, seats, count - 1, observed, kind);
      LaterSeatsWait(room, st, seats, count - 1, observed, count - 1);
      AttemptNumbers(room, FillSeats(room, st, seats, count - 1, observed), seats, count - 1, observed, kind);
    }
  }

  /** Of the seats attempted for this kind, those that have a bot afterwards. */
  ghost function BuiltCount(st: ReconcilerState, st': ReconcilerState, seats: SeatRoster, kind: string, count: nat): nat
    requires count <= |seats|
  {
    if count == 0 then 0
    else
      BuiltCount(st, st', seats, kind, count - 1) +
      if Attempts(st, seats, count - 1) && seats[count - 1].kind == kind && !NoBotAt(st'.bots, count - 1) then 1 else 0
  }

  lemma {:induction false} BuiltIsAttempted(st: ReconcilerState, st': ReconcilerState, seats: SeatRoster, kind: string,
                                            count: nat)
    requires count <= |seats|
    ensures BuiltCount(st, st', seats, kind, count) <= AttemptCount(st, seats, kind, count)
    ensures BuiltCount(st, st', seats, kind, count) == AttemptCount(st, seats, kind, count) <==>
      forall i :: 0 <= i < count && Attempts(st, seats, i) && seats[i].kind == kind ==> !NoBotAt(st'.bots, i)
  {
    hide Attempts, NoBotAt;
    if count > 0 { BuiltIsAttempted(st, st', seats, kind, count - 1); }
  }

  /** The ordinals number the attempts of a pass, failed ones included; so they number the bots it built
      exactly when no attempt for the kind left a failure behind. */
  lemma OrdinalsNumberAttempts(room: Room, st: ReconcilerState, seats: SeatRoster, observed: nat, kind: string)
    requires Inv(st)
    ensures var kept, st' := Retire(st, seats, observed, false), Reconcile(room, st, seats, observed, false);
      var built := BuiltCount(kept, st', seats, kind, |seats|);
      && OrdinalOf(st'.ordinals, kind) == OrdinalOf(st.ordinals, kind) + AttemptCount(kept, seats, kind, |seats|)
      && OrdinalOf(st'.ordinals, kind) >= OrdinalOf(st.ordinals, kind) + built
      && (OrdinalOf(st'.ordinals, kind) == OrdinalOf(st.ordinals, kind) + built <==>
            forall i :: 0 <= i < |seats| && Attempts(kept, seats, i) && seats[i].kind == kind ==> i !in st'.failed)
  {
    hide Inv, AllTracked, SeatServed, FillSeats, Attempts, NoBotAt, LeavesOf, ForeignSessions, SurvivingBots;
    RetireIsExact(st, seats, observed, false);
    SurvivorsAreTracked(st, seats, observed);
    PassServesTheRoster(room, st, seats, observed);
    PassKeeps(room, st, seats, observed, false);
    var kept, st' := Retire(st, seats, observed, false), Reconcile(room, st, seats, observed, false);
    AttemptsAreNumbered(room, kept, seats, |seats|, observed, kind);
    BuiltIsAttempted(kept, st', seats, kind, |seats|);
    forall i | 0 <= i < |seats| && Attempts(kept, seats, i) ensures NoBotAt(st'.bots, i) <==> i in st'.failed {
      AttemptedSeatIsServed(kept, st', seats, observed, i);
    }
  }

  lemma AttemptedSeatIsServed(st: ReconcilerState, st': ReconcilerState, seats: SeatRoster, observed: nat, i: nat)
    requires i < |seats| && Attempts(st, seats, i) && Inv(st') && SeatServed(st', seats, i)
    requires AllTracked(st', seats, observed)
    ensures NoBotAt(st'.bots, i) <==> i in st'.failed
  {
    hide ValidSink, ValidHost, Ids;
  }

  // ---------------------------------------------------------------- tried again without a new declaration

  lemma {:induction false} FilledSeatGetsNoJoin(room: Room, st: ReconcilerState, seats: SeatRoster, count: nat,
                                                observed: nat, seat: nat)
    requires Inv(st) && AllTracked(st, seats, observed) && count <= |seats| && seat < |seats| && !Unfilled(seats[seat])
    ensures JoinPendingAt(FillSeats(room, st, seats, count, observed).bots, seat) <==> JoinPendingAt(st.bots, seat)
  {
    hide Inv, AllTracked, ForeignSessions, SeatServed, JoinPendingAt, CreateBot;
    if count > 0 {
      FilledSeatGetsNoJoin(room, st, seats, count - 1, observed, seat);
      FillSeatsKeep(room, st, seats, count - 1, observed);
      if count - 1 != seat {
        OtherSeatsWait(room, FillSeats(room, st, seats, count - 1, observed), seats, count - 1, observed, seat);
      }
    }
  }

  lemma NoJoinAppears(st: ReconcilerState, seats: SeatRoster, observed: nat, i: nat)
    requires Inv(st) && !JoinPendingAt(st.bots, i)
    ensures !JoinPendingAt(Retire(st, seats, observed, false).bots, i)
  {
    hide ValidSink, ValidHost, Ids, Retire, LeavesOf, ForeignSessions, DistinctSeats, NoFailedSeatIsHosted;
    RetireIsExact(st, seats, observed, false);
    var kept := Retire(st, seats, observed, false).bots;
    forall c | c in kept && kept[c].seatIndex == i ensures kept[c].joinSubmittedAt.None? {
      assert c in st.bots && st.bots[c].seatIndex == i;
    }
  }

  /** A seat whose creation failed is tried again once it has been shown filled and then empty, although
      its declaration never changed. */
  lemma EmptiedSeatIsTriedAgain(room: Room, st: ReconcilerState, filled: SeatRoster, emptied: SeatRoster,
                                observed: nat, later: nat, i: nat)
    requires Inv(st) && i in st.failed
    requires SameDeclaration(filled, i, st.failed[i]) && !Unfilled(filled[i])
    requires SameDeclaration(emptied, i, st.failed[i]) && Unfilled(emptied[i])
    ensures Attempts(Retire(Reconcile(room, st, filled, observed, false), emptied, later, false), emptied, i)
  {
    hide Inv, Retire, FillSeats, ForeignSessions, LeavesOf, SurvivingBots, JoinPendingAt, AllTracked;
    var kept, st' := Retire(st, filled, observed, false), Reconcile(room, st, filled, observed, false);
    PassServesTheRoster(room, st, filled, observed);
    assert SeatServed(st', filled, i);
    PassKeeps(room, st, filled, observed, false);
    RetireIsExact(st, filled, observed, false);
    SurvivorsAreTracked(st, filled, observed);
    FailedSeatHasNoJoin(st, i);
    NoJoinAppears(st, filled, observed, i);
    FilledSeatGetsNoJoin(room, kept, filled, |filled|, observed, i);
    NoJoinAppears(st', emptied, later, i);
    RetireIsExact(st', emptied, later, false);
  }

  lemma FailedSeatHasNoJoin(st: ReconcilerState, i: nat)
    requires Inv(st) && i in st.failed
    ensures !JoinPendingAt(st.bots, i)
  {
    hide ValidSink, ValidHost, Ids;
  }

  // ---------------------------------------------------------------- the first bot built, called the second

  const TACTICAL := "tactical"

  function TacticalSeat(profile: string): Seat {
    NpcSeat(TACTICAL, None, Some(profile))
  }

  lemma NameOfTheSecond()
    ensures DisplayName(TACTICAL, 2) == "tactical 2" && ValidDisplayName("tactical 2") && ValidControllerKind(TACTICAL)
  {
    assert PrintDecimal(2) == "2";
  }

  const FEW_PROFILES := Room({"known"}, 1)
  const NEW_SINK := SinkState(1, map[], {}, [])
  const TWO_SEATS := [TacticalSeat("unknown"), TacticalSeat("known")]

  lemma NothingIsRetired(observed: nat)
    ensures Retire(Unused(NEW_SINK), TWO_SEATS, observed, false) == Unused(NEW_SINK)
  {
    assert Ascending(Unused(NEW_SINK).bots.Keys) == [];
    assert RememberedFailures(map[], TWO_SEATS) == map[];
  }

  /** What is left of the failed attempt: its number and its record. */
  ghost function AfterTheFirst(): ReconcilerState {
    Unused(NEW_SINK).(ordinals := map[TACTICAL := 1], failed := map[0 := TacticalSeat("unknown").Declaration()])
  }

  lemma FirstAttemptFails(observed: nat)
    ensures FillSeats(FEW_PROFILES, Unused(NEW_SINK), TWO_SEATS, 1, observed) == AfterTheFirst()
  {
    hide OpenSession, CloseSession, Add, Submit, DisplayName;
    assert FillSeats(FEW_PROFILES, Unused(NEW_SINK), TWO_SEATS, 0, observed) == Unused(NEW_SINK);
  }

  lemma SecondAttemptSucceeds(observed: nat)
    ensures var st := FillSeat(FEW_PROFILES, AfterTheFirst(), TWO_SEATS, 1, observed);
      && st.bots.Keys == {1} && st.bots[1].seatIndex == 1
      && st.sink.directory == map[1 := Presentation(TACTICAL, "tactical 2")]
  {
    hide DisplayName, ValidDisplayName, ValidControllerKind, PrintDecimal, OpenSession, Submit;
    NameOfTheSecond();
    assert NextOrdinal(AfterTheFirst().ordinals, TACTICAL) == 2;
    SecondSessionOpens();
    SubmitKeepsTheDirectory(OpenSession(NEW_SINK, TACTICAL, "tactical 2").0, 1,
                            JoinCommand(1, 1, TacticalSeat("known").Declaration()));
  }

  lemma SecondSessionOpens()
    ensures var (sink, session) := OpenSession(NEW_SINK, TACTICAL, "tactical 2");
      session == Success(1) && sink.directory == map[1 := Presentation(TACTICAL, "tactical 2")]
  {
    hide ValidDisplayName, ValidControllerKind;
    NameOfTheSecond();
  }

  lemma SubmitKeepsTheDirectory(s: SinkState, c: ControllerId, join: LobbyCommand)
    requires join.JoinCommand?
    ensures Submit(s, c, join).0.directory == s.directory
  {
  }

  /** Two tactical seats, the first of an unknown profile: the only bot there is is called the second. */
  lemma OnlyBotCanBeCalledTheSecond(observed: nat)
    ensures var st := Reconcile(FEW_PROFILES, Unused(NEW_SINK), TWO_SEATS, observed, false);
      && st.bots.Keys == {1} && st.bots[1].seatIndex == 1
      && st.sink.directory == map[1 := Presentation(TACTICAL, "tactical 2")]
  {
    hide Retire, FillSeat, AfterTheFirst, Unused;
    NothingIsRetired(observed);
    FirstAttemptFails(observed);
    SecondAttemptSucceeds(observed);
  }
}
