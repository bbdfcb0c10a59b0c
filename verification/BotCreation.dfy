/** Which declared seats get a bot, kind by kind and told in the declaration's own words. */
module BotCreations {
  import opened Wrappers
  import opened Decimals
  import opened SeatRosters
  import opened CommandSinks
  import opened ControllerHosts
  import opened Reconciliation
  import opened ReconciliationPass
  import opened ReconciliationRuns
  import opened ReconciliationRetries
  import opened ReconciliationOrdinals

  /** A wanderer, a chaser, a hill seeker and a racer come without a profile; a tactical bot needs one the
      server has, a lobby with an identity, and one of a lobby's sixty-four seats. */
  predicate CanBeBuilt(room: Room, d: NpcDeclaration, seat: nat) {
    || (d.kind == "wanderer" && d.profileName == None) || (d.kind == "chaser" && d.profileName == None)
    || (d.kind == "hill_seeker" && d.profileName == None) || (d.kind == "racer" && d.profileName == None)
    || (&& d.kind == "tactical" && d.profileName.Some? && d.profileName.value in room.profiles
        && 1 <= room.lobbyId <= 9_007_199_254_740_991 && seat <= 63)
  }

  /** Identities, directory entries and sixty-four-bit ordinals for this many more attempts. */
  ghost predicate HasRoom(st: ReconcilerState, attempts: nat) {
    && st.sink.nextControllerId + attempts <= 9_007_199_254_740_992 && |st.sink.directory| + attempts <= 4096
    && forall kind :: OrdinalOf(st.ordinals, kind) + attempts < 18_446_744_073_709_551_616
  }

  // ---------------------------------------------------------------- names that are always admitted

  function Tens(digits: nat): nat {
    if digits == 0 then 1 else 10 * Tens(digits - 1)
  }

  lemma {:induction false} DecimalIsShort(n: nat, digits: nat)
    requires n < Tens(digits) && digits >= 1
    ensures |PrintDecimal(n)| <= digits
    decreases digits
  {
    if n >= 10 { DecimalIsShort(n / 10, digits - 1); }
  }

  lemma OrdinalsHaveTwentyDigits()
    ensures Tens(20) == 100_000_000_000_000_000_000
  {
    assert Tens(5) == 100_000;
    assert Tens(10) == 10_000_000_000;
    assert Tens(15) == 1_000_000_000_000_000;
  }

  lemma ShortKindIsNamed(kind: string, ordinal: nat)
    requires kind != "" && BoundedPrintable(kind, 11) && ordinal < 18_446_744_073_709_551_616
    ensures ValidControllerKind(kind) && ValidDisplayName(DisplayName(kind, ordinal))
  {
    hide PrintDecimal, Tens;
    OrdinalsHaveTwentyDigits();
    DecimalIsShort(ordinal, 20);
    var digits := PrintDecimal(ordinal);
    forall i | 0 <= i < |digits| ensures digits[i] >= ' ' && digits[i] as int != 0x7f {
      assert IsDigit(digits[i]);
    }
  }

  lemma KindsAreShort(room: Room, d: NpcDeclaration, seat: nat)
    requires CanBeBuilt(room, d, seat)
    ensures d.kind != "" && BoundedPrintable(d.kind, 11)
  {
  }

  lemma RegistryBuildsThem(room: Room, d: NpcDeclaration, seat: nat)
    ensures CanBeBuilt(room, d, seat) <==> ProfileKnown(room, d) && RegistryAdmits(room, d, seat)
  {
  }

  // ---------------------------------------------------------------- one attempt

  /** With room for one more, an attempt builds exactly the declarations above. The bot gets the next
      identity, its kind's next number for a name, and its join is handed over; any other declaration leaves
      a failure record and changes no bot and no session. */
  lemma EachKindGetsItsBot(room: Room, st: ReconcilerState, d: NpcDeclaration, seat: nat, observed: nat)
    requires Inv(st) && HasRoom(st, 1)
    ensures var st' := CreateBot(room, st, d, seat, observed);
      var c, n := st.sink.nextControllerId, OrdinalOf(st.ordinals, d.kind) + 1;
      if CanBeBuilt(room, d, seat) then
        && st'.bots == st.bots[c := HostedBot(d, seat, Some(observed))] && st'.failed == st.failed - {seat}
        && st'.sink.directory == st.sink.directory[c := Presentation(d.kind, d.kind + " " + PrintDecimal(n))]
        && (seat <= 63 ==> st'.sink.submitted == st.sink.submitted + [JoinCommand(c, seat, d)])
        && st'.hosted == st.hosted + [HostedController(c, d.kind)]
      else
        && st'.bots == st.bots && st'.failed == st.failed[seat := d] && st'.sink.directory == st.sink.directory
        && st'.hosted == st.hosted
  {
    hide Inv, CreateBot, DisplayName, ValidDisplayName, ValidControllerKind, RegistryAdmits, ProfileKnown, CanBeBuilt,
      ForeignSessions, Consistent;
    RegistryBuildsThem(room, d, seat);
    CreationIsExact(room, st, d, seat, observed);
    if CanBeBuilt(room, d, seat) {
      KindsAreShort(room, d, seat);
      ShortKindIsNamed(d.kind, OrdinalOf(st.ordinals, d.kind) + 1);
      BuiltBotIsPresented(room, st, d, seat, observed);
    }
  }

  lemma BuiltBotIsPresented(room: Room, st: ReconcilerState, d: NpcDeclaration, seat: nat, observed: nat)
    requires Inv(st) && CreationSucceeds(room, st, d, seat)
    ensures CreateBot(room, st, d, seat, observed).sink.directory ==
      st.sink.directory[st.sink.nextControllerId :=
        Presentation(d.kind, d.kind + " " + PrintDecimal(OrdinalOf(st.ordinals, d.kind) + 1))]
    ensures CreateBot(room, st, d, seat, observed).hosted ==
            st.hosted + [HostedController(st.sink.nextControllerId, d.kind)]
  {
    hide ValidHost, Ids, ValidSink, CreateBot, OpenSession, Add, BoundedPrintable, ValidDisplayName, Submit,
      DistinctSeats, NoFailedSeatIsHosted, RegistryAdmits, ProfileKnown, PrintDecimal;
    var c, name := st.sink.nextControllerId, DisplayName(d.kind, NextOrdinal(st.ordinals, d.kind));
    SessionOpens(st.sink, d.kind, name);
    HostHasRoom(st, HostedController(c, d.kind));
    CreatedValue(room, st, d, seat, observed);
    BotJoinIsAccepted(OpenSession(st.sink, d.kind, name).0, c, seat, d);
  }

  lemma HostHasRoom(st: ReconcilerState, h: HostedController)
    requires Inv(st) && |st.sink.directory| < MAXIMUM_DIRECTORY_ENTRY_COUNT
    requires h.controller == st.sink.nextControllerId
    ensures Add(st.hosted, h) == Success(st.hosted + [h])
  {
    hide ValidHost, Add, DistinctSeats, NoFailedSeatIsHosted;
    HostNeverFillsFirst(st);
    forall i | 0 <= i < |st.hosted| ensures st.hosted[i].controller < h.controller {
      assert st.hosted[i].controller in Ids(st.hosted);
    }
    LatestGoesLast(st.hosted, h);
  }

  lemma LatestGoesLast(s: Hosted, h: HostedController)
    requires |s| < 4096 && forall i :: 0 <= i < |s| ==> s[i].controller < h.controller
    ensures Add(s, h) == Success(s + [h])
  {
    hide AscendingPosition;
    assert AscendingPosition(s, h.controller) == |s|;
    assert s[..|s|] + [h] + s[|s|..] == s + [h];
  }

  // ---------------------------------------------------------------- one pass

  lemma {:induction false} CountsAreBounded(room: Room, kept: ReconcilerState, seats: SeatRoster, kind: string,
                                            count: nat)
    requires count <= |seats|
    ensures OpenCount(room, kept, seats, count) <= count && HostableCount(room, kept, seats, count) <= count
    ensures AttemptCount(kept, seats, kind, count) <= count
  {
    hide Opens, Hostable, Attempts;
    if count > 0 { CountsAreBounded(room, kept, seats, kind, count - 1); }
  }

  lemma RetiringMakesRoom(st: ReconcilerState, seats: SeatRoster, observed: nat, attempts: nat)
    requires Inv(st) && HasRoom(st, attempts)
    ensures HasRoom(Retire(st, seats, observed, false), attempts)
  {
    hide ValidSink, ValidHost, Ids, LeavesOf, Retire, DistinctSeats, NoFailedSeatIsHosted, ForeignSessions;
    var kept := Retire(st, seats, observed, false);
    RetireIsExact(st, seats, observed, false);
    DirectoryIsForeignAndBots(st);
    DirectoryIsForeignAndBots(kept);
    CardinalityOfSubset(kept.bots.Keys, st.bots.Keys);
    assert |kept.bots| == |kept.bots.Keys| && |st.bots| == |st.bots.Keys|;
    OrdinalsAreKept(st, seats, observed);
  }

  lemma OrdinalsAreKept(st: ReconcilerState, seats: SeatRoster, observed: nat)
    ensures Retire(st, seats, observed, false).ordinals == st.ordinals
  {
    hide SettleInOrder;
  }

  lemma AttemptedSeatIsBuilt(room: Room, kept: ReconcilerState, seats: SeatRoster, i: nat)
    requires HasRoom(kept, |seats|) && i < |seats| && Attempts(kept, seats, i) && seats[i].NpcSeat?
    ensures WillBuild(room, kept, seats, i) <==> CanBeBuilt(room, seats[i].Declaration(), i)
  {
    hide Attempts, RegistryAdmits, ProfileKnown, CanBeBuilt, ValidControllerKind, ValidDisplayName, DisplayName;
    var d := seats[i].Declaration();
    RegistryBuildsThem(room, d, i);
    CountsAreBounded(room, kept, seats, d.kind, i);
    assert OrdinalOf(kept.ordinals, d.kind) + |seats| < 18_446_744_073_709_551_616;
    if CanBeBuilt(room, d, i) {
      KindsAreShort(room, d, i);
      ShortKindIsNamed(d.kind, OrdinalOf(kept.ordinals, d.kind) + AttemptCount(kept, seats, d.kind, i) + 1);
    }
  }

  /** A seat that declares an NPC, shows nobody, has nobody on the way and no failure of that declaration:
      with room for every seat of the roster, one pass gives it a bot of exactly its declaration if it can be
      built, and a record of its failure if not. */
  lemma EachDeclaredSeatGetsItsBot(room: Room, st: ReconcilerState, seats: SeatRoster, observed: nat, i: nat)
    requires Inv(st) && HasRoom(st, |seats|) && i < |seats| && seats[i].NpcSeat? && seats[i].bot == None
    requires forall c :: c in st.bots ==> st.bots[c].seatIndex != i
    requires i in st.failed ==> st.failed[i] != NpcDeclaration(seats[i].kind, seats[i].profileName)
    ensures var st', d := Reconcile(room, st, seats, observed, false),
                          NpcDeclaration(seats[i].kind, seats[i].profileName);
      if CanBeBuilt(room, d, i) then
        exists c :: c in st'.bots && c >= st.sink.nextControllerId && st'.bots[c] == HostedBot(d, i, Some(observed))
      else i in st'.failed && st'.failed[i] == d && forall c :: c in st'.bots ==> st'.bots[c].seatIndex != i
  {
    hide ValidSink, ValidHost, Ids, LeavesOf, Retire, ForeignSessions, FillSeats, CanBeBuilt, WillBuild, AllTracked,
      DistinctSeats, HasRoom;
    var kept := Retire(st, seats, observed, false);
    RetireIsExact(st, seats, observed, false);
    SurvivorsAreTracked(st, seats, observed);
    RetiringMakesRoom(st, seats, observed, |seats|);
    assert Attempts(kept, seats, i);
    AttemptedSeatIsBuilt(room, kept, seats, i);
    AttemptFailsExactlyWhen(room, kept, seats, observed, |seats|, i);
    PassServesTheRoster(room, st, seats, observed);
    PassKeeps(room, st, seats, observed, false);
    var st' := Reconcile(room, st, seats, observed, false);
    ServedSeat(st', seats, observed, i);
    if i !in st'.failed {
      var c :| c in st'.bots && st'.bots[c].seatIndex == i && st'.bots[c].declaration == seats[i].Declaration();
      assert c !in st.bots by { if c in st.bots { KeptBotKeepsItsSeat(room, st, seats, observed, c); } }
      NewBotIsDated(room, st, seats, observed, false, c);
    }
  }

  lemma ServedSeat(st: ReconcilerState, seats: SeatRoster, observed: nat, i: nat)
    requires Inv(st) && Quiet(st, seats, observed) && i < |seats| && Unfilled(seats[i])
    ensures i in st.failed ==>
      st.failed[i] == seats[i].Declaration() && forall c :: c in st.bots ==> st.bots[c].seatIndex != i
    ensures i !in st.failed ==>
      exists c :: c in st.bots && st.bots[c].seatIndex == i && st.bots[c].declaration == seats[i].Declaration()
  {
    hide ValidSink, ValidHost, Ids;
    assert SeatServed(st, seats, i);
  }

  lemma KeptBotKeepsItsSeat(room: Room, st: ReconcilerState, seats: SeatRoster, observed: nat, c: ControllerId)
    requires Inv(st) && c in st.bots && c in Reconcile(room, st, seats, observed, false).bots
    ensures Reconcile(room, st, seats, observed, false).bots[c].seatIndex == st.bots[c].seatIndex
  {
    hide ValidSink, ValidHost, LeavesOf, Retire, ForeignSessions, FillSeats, AllTracked, SeatServed;
    var kept := Retire(st, seats, observed, false);
    RetireIsExact(st, seats, observed, false);
    SurvivorsAreTracked(st, seats, observed);
    FillSeatsKeep(room, kept, seats, |seats|, observed);
    if c !in kept.bots {
      NewBotIsDatedWhileFilling(room, kept, seats, |seats|, observed, c);
      IssuedBefore(st);
    }
  }
}
