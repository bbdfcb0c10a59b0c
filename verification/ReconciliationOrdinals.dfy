/** Which attempts of a pass will fail, told from what the pass starts from, and so when the display
    ordinals count the bots. */
module ReconciliationOrdinals {
  import opened Wrappers
  import opened SeatRosters
  import opened CommandSinks
  import opened ControllerHosts
  import opened Reconciliation
  import opened ReconciliationPass
  import opened ReconciliationRuns
  import opened ReconciliationRetries

  // ---------------------------------------------------------------- what each attempt will meet

  /** The name the attempt at this seat will ask for: every earlier attempt of its kind takes a number. */
  ghost function NameAt(kept: ReconcilerState, seats: SeatRoster, i: nat): string
    requires i < |seats| && Attempts(kept, seats, i)
  {
    var kind := seats[i].kind;
    DisplayName(kind, OrdinalOf(kept.ordinals, kind) + AttemptCount(kept, seats, kind, i) + 1)
  }

  /** The attempt at this seat asks the sink for a session with a presentation the sink admits. */
  ghost predicate Opens(room: Room, kept: ReconcilerState, seats: SeatRoster, i: nat)
    requires i < |seats|
  {
    && Attempts(kept, seats, i) && ProfileKnown(room, seats[i].Declaration())
    && ValidControllerKind(seats[i].kind) && ValidDisplayName(NameAt(kept, seats, i))
  }

  /** And the registry has a controller to host under that session. */
  ghost predicate Hostable(room: Room, kept: ReconcilerState, seats: SeatRoster, i: nat)
    requires i < |seats|
  {
    Opens(room, kept, seats, i) && RegistryAdmits(room, seats[i].Declaration(), i)
  }

  /** How many of the first seats ask for an identity. */
  ghost function OpenCount(room: Room, kept: ReconcilerState, seats: SeatRoster, count: nat): nat
    requires count <= |seats|
  {
    if count == 0 then 0
    else OpenCount(room, kept, seats, count - 1) + if Opens(room, kept, seats, count - 1) then 1 else 0
  }

  /** How many of the first seats ask to keep a directory entry. */
  ghost function HostableCount(room: Room, kept: ReconcilerState, seats: SeatRoster, count: nat): nat
    requires count <= |seats|
  {
    if count == 0 then 0
    else HostableCount(room, kept, seats, count - 1) + if Hostable(room, kept, seats, count - 1) then 1 else 0
  }

  /** The attempt at this seat will build a bot: its declaration allows one, and neither the identities nor
      the directory run out on the attempts before it. */
  ghost predicate WillBuild(room: Room, kept: ReconcilerState, seats: SeatRoster, i: nat)
    requires i < |seats|
  {
    && Hostable(room, kept, seats, i)
    && kept.sink.nextControllerId + OpenCount(room, kept, seats, i) <= MAXIMUM_CONTROLLER_ID
    && |kept.sink.directory| + HostableCount(room, kept, seats, i) < MAXIMUM_DIRECTORY_ENTRY_COUNT
  }

  // ---------------------------------------------------------------- what one attempt uses

  lemma DirectoryIsForeignAndBots(st: ReconcilerState)
    requires st.bots.Keys <= st.sink.directory.Keys
    ensures |st.sink.directory| == |ForeignSessions(st)| + |st.bots|
  {
    var foreign := ForeignSessions(st);
    assert foreign.Keys == st.sink.directory.Keys - st.bots.Keys;
    assert |st.sink.directory.Keys| == |foreign.Keys| + |st.bots.Keys|;
    assert |st.sink.directory| == |st.sink.directory.Keys| && |foreign| == |foreign.Keys|;
    assert |st.bots| == |st.bots.Keys|;
  }

  /** An attempt keeps a directory entry exactly when it succeeds. */
  lemma CreationUsesAnEntry(room: Room, st: ReconcilerState, d: NpcDeclaration, seat: nat, observed: nat)
    requires Inv(st)
    ensures |CreateBot(room, st, d, seat, observed).sink.directory| ==
      |st.sink.directory| + if CreationSucceeds(room, st, d, seat) then 1 else 0
  {
    hide ValidSink, ValidHost, Ids, ForeignSessions, CreateBot, CreationSucceeds, DistinctSeats, NoFailedSeatIsHosted;
    var st' := CreateBot(room, st, d, seat, observed);
    CreationIsExact(room, st, d, seat, observed);
    if CreationSucceeds(room, st, d, seat) {
      DirectoryIsForeignAndBots(st);
      DirectoryIsForeignAndBots(st');
      assert st'.bots.Keys == st.bots.Keys + {st.sink.nextControllerId};
      assert |st.bots| == |st.bots.Keys| && |st'.bots| == |st'.bots.Keys|;
    }
  }

  /** An attempt uses up an identity exactly when there is one and its presentation is admitted, whatever
      becomes of the session. */
  lemma CreationUsesAnIdentity(room: Room, st: ReconcilerState, d: NpcDeclaration, seat: nat, observed: nat)
    ensures var admitted := ProfileKnown(room, d) && ValidControllerKind(d.kind) &&
        ValidDisplayName(DisplayName(d.kind, NextOrdinal(st.ordinals, d.kind)));
      CreateBot(room, st, d, seat, observed).sink.nextControllerId == st.sink.nextControllerId +
        if admitted && st.sink.nextControllerId <= MAXIMUM_CONTROLLER_ID then 1 else 0
  {
    hide ProfileKnown, ValidControllerKind, ValidDisplayName, DisplayName, RegistryAdmits, Add, OpenSession,
      CloseSession;
    OpeningUsesAnIdentity(st.sink, d.kind, DisplayName(d.kind, NextOrdinal(st.ordinals, d.kind)));
    ClosingUsesNone(OpenSession(st.sink, d.kind, DisplayName(d.kind, NextOrdinal(st.ordinals, d.kind))).0,
                    st.sink.nextControllerId);
  }

  lemma OpeningUsesAnIdentity(s: SinkState, kind: string, name: string)
    ensures var (s', session) := OpenSession(s, kind, name);
      && s'.nextControllerId == s.nextControllerId +
           (if ValidControllerKind(kind) && ValidDisplayName(name) && s.nextControllerId <= MAXIMUM_CONTROLLER_ID then 1
            else 0)
      && (session.Success? ==> session.value == s.nextControllerId)
  {
    hide ValidControllerKind, ValidDisplayName;
  }

  lemma ClosingUsesNone(s: SinkState, c: ControllerId)
    ensures CloseSession(s, c).0.nextControllerId == s.nextControllerId
  {
  }

  // ---------------------------------------------------------------- what a pass has used so far

  function Least(a: nat, b: nat): nat {
    if a <= b then a else b
  }

  /** What the attempts at the first seats have used of the sink. */
  ghost predicate UsedSoFar(room: Room, kept: ReconcilerState, before: ReconcilerState, seats: SeatRoster, count: nat)
    requires count <= |seats|
  {
    var asked := kept.sink.nextControllerId + OpenCount(room, kept, seats, count);
    if asked <= MAXIMUM_CONTROLLER_ID + 1 then
      && before.sink.nextControllerId == asked
      && |before.sink.directory| ==
         Least(|kept.sink.directory| + HostableCount(room, kept, seats, count), MAXIMUM_DIRECTORY_ENTRY_COUNT)
    else
      before.sink.nextControllerId > MAXIMUM_CONTROLLER_ID
  }

  /** When its turn comes, a seat is attempted with exactly the name foreseen for it. */
  lemma TurnIsForeseen(room: Room, kept: ReconcilerState, seats: SeatRoster, observed: nat, i: nat)
    requires Inv(kept) && AllTracked(kept, seats, observed) && i < |seats|
    ensures var before := FillSeats(room, kept, seats, i, observed);
      && (Attempts(before, seats, i) <==> Attempts(kept, seats, i))
      && (Attempts(kept, seats, i) ==>
            DisplayName(seats[i].kind, NextOrdinal(before.ordinals, seats[i].kind)) == NameAt(kept, seats, i))
  {
    hide Inv, AllTracked, FillSeats, AttemptCount, DisplayName, JoinPendingAt;
    LaterSeatsWait(room, kept, seats, i, observed, i);
    if Attempts(kept, seats, i) { AttemptsAreNumbered(room, kept, seats, i, observed, seats[i].kind); }
  }

  /** So it succeeds exactly when it is hostable and the sink still has room, and uses what that says. */
  lemma TurnUses(room: Room, kept: ReconcilerState, seats: SeatRoster, observed: nat, i: nat)
    requires Inv(kept) && AllTracked(kept, seats, observed) && i < |seats|
    ensures var before := FillSeats(room, kept, seats, i, observed);
      var after := FillSeat(room, before, seats, i, observed);
      var roomLeft := before.sink.nextControllerId <= MAXIMUM_CONTROLLER_ID;
      var builds := Hostable(room, kept, seats, i) && roomLeft &&
        |before.sink.directory| < MAXIMUM_DIRECTORY_ENTRY_COUNT;
      && after.sink.nextControllerId ==
         before.sink.nextControllerId + (if Opens(room, kept, seats, i) && roomLeft then 1 else 0)
      && |after.sink.directory| == |before.sink.directory| + (if builds then 1 else 0)
      && (Attempts(kept, seats, i) ==> (i in after.failed <==> !builds))
  {
    hide Inv, AllTracked, FillSeats, CreateBot, NameAt, DisplayName, JoinPendingAt, ForeignSessions, SeatServed,
      Consistent, RegistryAdmits, ProfileKnown, ValidControllerKind, ValidDisplayName, NextOrdinal;
    var before := FillSeats(room, kept, seats, i, observed);
    FillSeatsKeep(room, kept, seats, i, observed);
    TurnIsForeseen(room, kept, seats, observed, i);
    if Attempts(kept, seats, i) {
      var d := seats[i].Declaration();
      CreationIsExact(room, before, d, i, observed);
      CreationUsesAnEntry(room, before, d, i, observed);
      CreationUsesAnIdentity(room, before, d, i, observed);
    }
  }

  lemma {:induction false} PassUses(room: Room, kept: ReconcilerState, seats: SeatRoster, observed: nat, count: nat)
    requires Inv(kept) && AllTracked(kept, seats, observed) && count <= |seats|
    ensures UsedSoFar(room, kept, FillSeats(room, kept, seats, count, observed), seats, count)
  {
    hide Inv, AllTracked, FillSeat, Opens, Hostable, Attempts;
    if count > 0 {
      PassUses(room, kept, seats, observed, count - 1);
      TurnUses(room, kept, seats, observed, count - 1);
      HostableOpens(room, kept, seats, count - 1);
    } else {
      DirectoryIsBounded(kept);
    }
  }

  lemma HostableOpens(room: Room, kept: ReconcilerState, seats: SeatRoster, i: nat)
    requires i < |seats|
    ensures Hostable(room, kept, seats, i) ==> Opens(room, kept, seats, i)
  {
  }

  lemma DirectoryIsBounded(st: ReconcilerState)
    requires Inv(st)
    ensures |st.sink.directory| <= MAXIMUM_DIRECTORY_ENTRY_COUNT
  {
    assert |st.sink.directory| == |st.sink.directory.Keys|;
  }

  /** An attempted seat has its failure recorded exactly when it was not going to be built. */
  lemma {:induction false} AttemptFailsExactlyWhen(room: Room, kept: ReconcilerState, seats: SeatRoster, observed: nat,
                                                   count: nat, i: nat)
    requires Inv(kept) && AllTracked(kept, seats, observed) && i < count <= |seats| && Attempts(kept, seats, i)
    ensures i in FillSeats(room, kept, seats, count, observed).failed <==> !WillBuild(room, kept, seats, i)
  {
    hide Inv, AllTracked, FillSeat, Attempts, Opens, Hostable, OpenCount, HostableCount, SeatServed, ForeignSessions,
      JoinPendingAt;
    var before := FillSeats(room, kept, seats, count - 1, observed);
    if count - 1 == i {
      PassUses(room, kept, seats, observed, i);
      TurnUses(room, kept, seats, observed, i);
    } else {
      AttemptFailsExactlyWhen(room, kept, seats, observed, count - 1, i);
      FillSeatsKeep(room, kept, seats, count - 1, observed);
      OtherSeatsWait(room, before, seats, count - 1, observed, i);
    }
  }

  // ---------------------------------------------------------------- the bots a pass built

  /** The bots of this kind that were not there before. */
  ghost function NewBots(st: ReconcilerState, st': ReconcilerState, kind: string): set<ControllerId> {
    set c | c in st'.bots && c !in st.bots && st'.bots[c].declaration.kind == kind
  }

  ghost function NewBotsBelow(st: ReconcilerState, st': ReconcilerState, kind: string, count: nat): set<ControllerId> {
    set c | c in NewBots(st, st', kind) && st'.bots[c].seatIndex < count
  }

  lemma {:induction false} NewBotsSeatWasAttempted(room: Room, kept: ReconcilerState, seats: SeatRoster, observed: nat,
                                                   count: nat, c: ControllerId)
    requires Inv(kept) && AllTracked(kept, seats, observed) && count <= |seats|
    requires c !in kept.bots && c in FillSeats(room, kept, seats, count, observed).bots
    ensures var i := FillSeats(room, kept, seats, count, observed).bots[c].seatIndex;
      i < |seats| && Attempts(kept, seats, i)
    decreases count
  {
    hide Inv, AllTracked, FillSeat, Attempts, SeatServed, ForeignSessions;
    var before := FillSeats(room, kept, seats, count - 1, observed);
    FillSeatsKeep(room, kept, seats, count - 1, observed);
    FillSeatKeeps(room, before, seats, count - 1, observed);
    if c in before.bots {
      NewBotsSeatWasAttempted(room, kept, seats, observed, count - 1, c);
    } else {
      NewBotIsOfThisSeat(room, before, seats, count - 1, observed, c);
      TurnIsForeseen(room, kept, seats, observed, count - 1);
    }
  }

  lemma NewBotIsOfThisSeat(room: Room, st: ReconcilerState, seats: SeatRoster, seat: nat, observed: nat,
                           c: ControllerId)
    requires Inv(st) && seat < |seats|
    requires c !in st.bots && c in FillSeat(room, st, seats, seat, observed).bots
    ensures FillSeat(room, st, seats, seat, observed).bots[c].seatIndex == seat && Attempts(st, seats, seat)
  {
    hide Inv, ForeignSessions, Consistent, CreateBot, CreationSucceeds, JoinPendingAt;
    CreationIsExact(room, st, seats[seat].Declaration(), seat, observed);
  }

  /** A seat about to be attempted has no bot at all. */
  lemma AttemptedSeatIsFree(kept: ReconcilerState, seats: SeatRoster, observed: nat, i: nat)
    requires AllTracked(kept, seats, observed) && i < |seats| && Attempts(kept, seats, i)
    ensures NoBotAt(kept.bots, i)
  {
    forall c | c in kept.bots ensures kept.bots[c].seatIndex != i {
      assert Tracked(c, kept.bots[c], seats, observed);
    }
  }

  /** What a pass over a room in use leaves at seat `i`: a new bot of its kind, or none but old ones. */
  ghost predicate SeatCounts(st: ReconcilerState, kept: ReconcilerState, st': ReconcilerState, seats: SeatRoster,
                             i: nat)
    requires i < |seats|
  {
    forall c :: c in st'.bots && st'.bots[c].seatIndex == i ==>
      (c !in st.bots <==> Attempts(kept, seats, i)) && SameDeclaration(seats, i, st'.bots[c].declaration)
  }

  lemma EverySeatCounts(room: Room, st: ReconcilerState, seats: SeatRoster, observed: nat, i: nat)
    requires Inv(st) && i < |seats|
    ensures SeatCounts(st, Retire(st, seats, observed, false), Reconcile(room, st, seats, observed, false), seats, i)
  {
    hide Inv, AllTracked, FillSeats, Retire, Attempts, SeatServed, ForeignSessions, LeavesOf;
    var kept, st' := Retire(st, seats, observed, false), Reconcile(room, st, seats, observed, false);
    RetireIsExact(st, seats, observed, false);
    SurvivorsAreTracked(st, seats, observed);
    FillSeatsKeep(room, kept, seats, |seats|, observed);
    forall c | c in st'.bots && st'.bots[c].seatIndex == i
      ensures (c !in st.bots <==> Attempts(kept, seats, i)) && SameDeclaration(seats, i, st'.bots[c].declaration)
    {
      TrackedIsDeclared(st', seats, observed, c);
      if c in kept.bots {
        if Attempts(kept, seats, i) { AttemptedSeatIsFree(kept, seats, observed, i); }
      } else {
        NewBotsSeatWasAttempted(room, kept, seats, observed, |seats|, c);
        NewBotIsDatedWhileFilling(room, kept, seats, |seats|, observed, c);
        IssuedBefore(st);
      }
    }
  }

  lemma TrackedIsDeclared(st: ReconcilerState, seats: SeatRoster, observed: nat, c: ControllerId)
    requires AllTracked(st, seats, observed) && c in st.bots
    ensures SameDeclaration(seats, st.bots[c].seatIndex, st.bots[c].declaration)
  {
    assert Tracked(c, st.bots[c], seats, observed);
  }

  lemma IssuedBefore(st: ReconcilerState)
    requires Inv(st)
    ensures forall c :: c in st.bots ==> c < st.sink.nextControllerId
  {
  }

  lemma {:induction false} NewBotsAreCounted(st: ReconcilerState, kept: ReconcilerState, st': ReconcilerState,
                                             seats: SeatRoster, kind: string, count: nat)
    requires Inv(st') && count <= |seats|
    requires forall i :: 0 <= i < |seats| ==> SeatCounts(st, kept, st', seats, i)
    ensures |NewBotsBelow(st, st', kind, count)| == BuiltCount(kept, st', seats, kind, count)
  {
    hide Attempts, ValidSink, ValidHost, Ids;
    if count > 0 {
      var i := count - 1;
      NewBotsAreCounted(st, kept, st', seats, kind, i);
      assert SeatCounts(st, kept, st', seats, i);
      OneSeatMore(st, kept, st', seats, kind, i);
    }
  }

  lemma OneSeatMore(st: ReconcilerState, kept: ReconcilerState, st': ReconcilerState, seats: SeatRoster, kind: string,
                    i: nat)
    requires Inv(st') && i < |seats| && SeatCounts(st, kept, st', seats, i)
    ensures |NewBotsBelow(st, st', kind, i + 1)| == |NewBotsBelow(st, st', kind, i)| +
      if Attempts(kept, seats, i) && seats[i].kind == kind && !NoBotAt(st'.bots, i) then 1 else 0
  {
    hide Attempts, ValidSink, ValidHost, Ids, JoinPendingAt;
    var below, upTo := NewBotsBelow(st, st', kind, i), NewBotsBelow(st, st', kind, i + 1);
    if Attempts(kept, seats, i) && seats[i].NpcSeat? && seats[i].kind == kind && !NoBotAt(st'.bots, i) {
      var c :| c in st'.bots && st'.bots[c].seatIndex == i;
      assert upTo == below + {c};
    } else {
      assert upTo == below;
    }
  }

  /** The bots a pass over a room in use built, by kind, are the seats it attempted that got one. */
  lemma NewBotsAreBuilt(room: Room, st: ReconcilerState, seats: SeatRoster, observed: nat, kind: string)
    requires Inv(st)
    ensures var kept, st' := Retire(st, seats, observed, false), Reconcile(room, st, seats, observed, false);
      |NewBots(st, st', kind)| == BuiltCount(kept, st', seats, kind, |seats|)
  {
    hide Inv, AllTracked, Reconcile, Retire, Attempts, SeatServed, SeatCounts, BuiltCount;
    var kept, st' := Retire(st, seats, observed, false), Reconcile(room, st, seats, observed, false);
    PassKeeps(room, st, seats, observed, false);
    PassServesTheRoster(room, st, seats, observed);
    forall i | 0 <= i < |seats| ensures SeatCounts(st, kept, st', seats, i) {
      EverySeatCounts(room, st, seats, observed, i);
    }
    NewBotsAreCounted(st, kept, st', seats, kind, |seats|);
    forall c | c in NewBots(st, st', kind) ensures st'.bots[c].seatIndex < |seats| {
      TrackedIsDeclared(st', seats, observed, c);
    }
    assert NewBotsBelow(st, st', kind, |seats|) == NewBots(st, st', kind);
  }

  // ---------------------------------------------------------------- when the ordinals count the bots

  /** Every seat the pass attempts for this kind will get its bot. */
  ghost predicate AllWillBuild(room: Room, kept: ReconcilerState, seats: SeatRoster, kind: string) {
    forall i :: 0 <= i < |seats| && Attempts(kept, seats, i) && seats[i].kind == kind ==>
      WillBuild(room, kept, seats, i)
  }

  /** A pass over a room in use moves a kind's ordinal by at least the bots it builds, and by exactly those
      when, and only when, every seat it attempts for the kind was going to be built. */
  lemma OrdinalsCountBotsExactlyWhen(room: Room, st: ReconcilerState, seats: SeatRoster, observed: nat, kind: string)
    requires Inv(st)
    ensures var kept, st' := Retire(st, seats, observed, false), Reconcile(room, st, seats, observed, false);
      && OrdinalOf(st'.ordinals, kind) >= OrdinalOf(st.ordinals, kind) + |NewBots(st, st', kind)|
      && (OrdinalOf(st'.ordinals, kind) == OrdinalOf(st.ordinals, kind) + |NewBots(st, st', kind)| <==>
            AllWillBuild(room, kept, seats, kind))
  {
    hide Inv, AllTracked, FillSeats, Attempts, WillBuild, Retire, LeavesOf, ForeignSessions, SurvivingBots, NewBots,
      BuiltCount, AttemptCount;
    RetireIsExact(st, seats, observed, false);
    SurvivorsAreTracked(st, seats, observed);
    OrdinalsNumberAttempts(room, st, seats, observed, kind);
    NewBotsAreBuilt(room, st, seats, observed, kind);
    var kept, st' := Retire(st, seats, observed, false), Reconcile(room, st, seats, observed, false);
    forall i | 0 <= i < |seats| && Attempts(kept, seats, i)
      ensures seats[i].NpcSeat? && (i in st'.failed <==> !WillBuild(room, kept, seats, i))
    {
      UnfilledIsDeclared(kept, seats, i);
      AttemptFailsExactlyWhen(room, kept, seats, observed, |seats|, i);
    }
  }

  lemma UnfilledIsDeclared(st: ReconcilerState, seats: SeatRoster, i: nat)
    requires i < |seats| && Attempts(st, seats, i)
    ensures seats[i].NpcSeat?
  {
  }

  // ---------------------------------------------------------------- over a whole run

  /** What a poll promises this kind: the pass is over an abandoned room, or builds all it attempts. */
  ghost predicate PollNumbersBots(room: Room, st: ReconcilerState, poll: Poll, kind: string) {
    || poll.abandoned
    || AllWillBuild(room, Retire(st.(sink := poll.sink), poll.seats, poll.observed, false), poll.seats, kind)
  }

  /** The bots of this kind that the first passes of the run built. */
  ghost function TotalBuilt(states: seq<ReconcilerState>, kind: string, count: nat): nat
    requires count < |states|
  {
    if count == 0 then 0
    else TotalBuilt(states, kind, count - 1) + |NewBots(states[count - 1], states[count], kind)|
  }

  lemma PollCountsBots(room: Room, st: ReconcilerState, poll: Poll, kind: string)
    requires Inv(st) && OthersActed(st, poll.sink)
    ensures var st' := AfterPoll(room, st, poll);
      && OrdinalOf(st'.ordinals, kind) >= OrdinalOf(st.ordinals, kind) + |NewBots(st, st', kind)|
      && (OrdinalOf(st'.ordinals, kind) == OrdinalOf(st.ordinals, kind) + |NewBots(st, st', kind)| <==>
            PollNumbersBots(room, st, poll, kind))
  {
    hide ValidSink, ValidHost, Ids, Retire, FillSeats, AllWillBuild;
    var now := st.(sink := poll.sink);
    if poll.abandoned {
      AbandonedPassEmptiesTheRoom(room, now, poll.seats, poll.observed);
      assert NewBots(st, AfterPoll(room, st, poll), kind) == {};
      AbandonedPassAttemptsNothing(room, now, poll.seats, poll.observed);
    } else {
      OrdinalsCountBotsExactlyWhen(room, now, poll.seats, poll.observed, kind);
    }
  }

  lemma AbandonedPassAttemptsNothing(room: Room, st: ReconcilerState, seats: SeatRoster, observed: nat)
    ensures Reconcile(room, st, seats, observed, true).ordinals == st.ordinals
  {
    hide SettleInOrder;
  }

  /** Over a whole run, in which anything may be shown and other sessions may do anything, a kind's ordinal
      has moved by at least the bots of that kind ever built, and counts them exactly when, and only when,
      every pass was going to build whatever it attempted for the kind. */
  lemma {:induction false} RunOrdinalsCountBotsExactlyWhen(room: Room, states: seq<ReconcilerState>, polls: seq<Poll>,
                                                           kind: string, count: nat)
    requires IsRun(room, states, polls) && count < |states|
    ensures OrdinalOf(states[count].ordinals, kind) >=
      OrdinalOf(states[0].ordinals, kind) + TotalBuilt(states, kind, count)
    ensures
      (OrdinalOf(states[count].ordinals, kind) == OrdinalOf(states[0].ordinals, kind) + TotalBuilt(states, kind, count))
      <==> forall j :: 0 <= j < count ==> PollNumbersBots(room, states[j], polls[j], kind)
    decreases count
  {
    hide Inv, OthersActed, AfterPoll, PollNumbersBots, OrdinalOf, NewBots;
    if count > 0 {
      RunOrdinalsCountBotsExactlyWhen(room, states, polls, kind, count - 1);
      RunKeepsInvariant(room, states, polls, count - 1);
      PollCountsBots(room, states[count - 1], polls[count - 1], kind);
      assert states[count] == AfterPoll(room, states[count - 1], polls[count - 1]);
    }
  }
}
