/** Rounds of passes and ticks that start with joins still in flight: some lost, some landing late. */
module ReconciliationConvergence {
  import opened Wrappers
  import opened AscendingKeys
  import opened SeatRosters
  import opened SeatBatches
  import opened Decimals
  import opened CommandSinks
  import opened ControllerHosts
  import opened Reconciliation
  import opened ReconciliationPass
  import opened ReconciliationRuns
  import opened ReconciliationRounds

  // ---------------------------------------------------------------- what a pass hands over

  /** The join of a bot that is hosted here, to its own seat. */
  ghost predicate OwnJoin(bots: map<ControllerId, HostedBot>, c: LobbyCommand) {
    && c.JoinCommand? && c.joining in bots
    && bots[c.joining].seatIndex == c.seatIndex && bots[c.joining].declaration == c.expectedNpc
  }

  ghost predicate AllOwnJoins(bots: map<ControllerId, HostedBot>, commands: seq<LobbyCommand>) {
    forall k :: 0 <= k < |commands| ==> OwnJoin(bots, commands[k])
  }

  /** A pass hands over the joins of bots it created and the leaves of bots it retired or never hosted. */
  ghost predicate WellIssued(st: ReconcilerState, st': ReconcilerState, c: LobbyCommand) {
    match c
    case JoinCommand(_, _, _) => OwnJoin(st'.bots, c) && c.joining !in st.bots && c.joining >= st.sink.nextControllerId
    case LeaveCommand(leaving) => leaving !in st'.bots && (leaving in st.bots || leaving >= st.sink.nextControllerId)
  }

  ghost predicate AllWellIssued(st: ReconcilerState, st': ReconcilerState, commands: seq<LobbyCommand>) {
    forall k :: 0 <= k < |commands| ==> WellIssued(st, st', commands[k])
  }

  ghost predicate JoinOf(c: ControllerId, command: LobbyCommand) {
    command.JoinCommand? && command.joining == c
  }

  ghost predicate HasJoin(commands: seq<LobbyCommand>, c: ControllerId) {
    exists k :: 0 <= k < |commands| && JoinOf(c, commands[k])
  }

  ghost predicate HasLeave(commands: seq<LobbyCommand>, c: ControllerId) {
    LeaveCommand(c) in commands
  }

  /** While the seats are filled: identities only grow, every new bot's join is there, and nobody leaves who
      is hosted. */
  ghost predicate FillingIssues(start: ReconcilerState, st: ReconcilerState, issued: seq<LobbyCommand>) {
    && AllWellIssued(start, st, issued)
    && (forall k :: 0 <= k < |issued| && issued[k].LeaveCommand? ==>
          start.sink.nextControllerId <= issued[k].leaving < st.sink.nextControllerId)
    && (forall c :: c in start.bots ==> c in st.bots && st.bots[c] == start.bots[c])
    && (forall c :: c in st.bots && c !in start.bots ==>
          start.sink.nextControllerId <= c < st.sink.nextControllerId && HasJoin(issued, c))
  }

  lemma OneSeatIssues(start: ReconcilerState, st: ReconcilerState, st': ReconcilerState, issued: seq<LobbyCommand>,
                      d: NpcDeclaration, seat: nat, observed: nat)
    requires FillingIssues(start, st, issued) && start.sink.nextControllerId <= st.sink.nextControllerId
    requires Created(st, st', d, seat, observed) && st.sink.nextControllerId !in start.bots
    ensures FillingIssues(start, st', issued + [JoinCommand(st.sink.nextControllerId, seat, d)])
  {
    var join := JoinCommand(st.sink.nextControllerId, seat, d);
    var grown := issued + [join];
    forall k | 0 <= k < |grown| ensures WellIssued(start, st', grown[k]) {
      if k < |issued| { assert WellIssued(start, st, issued[k]); }
    }
    forall c | c in st'.bots && c !in start.bots ensures HasJoin(grown, c) {
      if c == join.joining {
        assert JoinOf(c, grown[|issued|]);
      } else {
        var k :| 0 <= k < |issued| && JoinOf(c, issued[k]);
        assert JoinOf(c, grown[k]);
      }
    }
  }

  lemma NoBotIssues(start: ReconcilerState, st: ReconcilerState, st': ReconcilerState, issued: seq<LobbyCommand>,
                    extra: seq<LobbyCommand>)
    requires FillingIssues(start, st, issued) && st'.bots == st.bots
    requires start.sink.nextControllerId <= st.sink.nextControllerId <= st'.sink.nextControllerId
    requires forall c :: c in st.bots ==> c < st.sink.nextControllerId
    requires extra == [] ||
      (extra == [LeaveCommand(st.sink.nextControllerId)] && st.sink.nextControllerId < st'.sink.nextControllerId)
    ensures FillingIssues(start, st', issued + extra)
  {
    var grown := issued + extra;
    forall k | 0 <= k < |grown| ensures WellIssued(start, st', grown[k]) {
      if k < |issued| { assert WellIssued(start, st, issued[k]); }
    }
    forall c | c in st'.bots && c !in start.bots ensures HasJoin(grown, c) {
      var k :| 0 <= k < |issued| && JoinOf(c, issued[k]);
      assert JoinOf(c, grown[k]);
    }
  }

  lemma {:induction false} FillingIssuesJoins(room: Room, start: ReconcilerState, seats: SeatRoster, count: nat,
                                              observed: nat)
    requires Inv(start) && AllTracked(start, seats, observed) && count <= |seats| <= MAXIMUM_LOBBY_SEAT_COUNT
    ensures var st := FillSeats(room, start, seats, count, observed);
      && start.sink.submitted <= st.sink.submitted && start.sink.nextControllerId <= st.sink.nextControllerId
      && FillingIssues(start, st, Issued(start, st))
  {
    hide Inv, AllTracked, FillingIssues, FillSeat, ForeignSessions, Created, SeatServed;
    if count == 0 {
      assert Issued(start, start) == [];
      NothingIsIssued(start);
    } else {
      FillingIssuesJoins(room, start, seats, count - 1, observed);
      var seat := count - 1;
      var st := FillSeats(room, start, seats, seat, observed);
      FillSeatsKeep(room, start, seats, seat, observed);
      SubmittedGrows(room, st, seats, seat, observed);
      var st' := FillSeat(room, st, seats, seat, observed);
      var issued := Issued(start, st);
      assert Issued(start, st') == issued + Issued(st, st');
      if Unfilled(seats[seat]) && Created(st, st', seats[seat].Declaration(), seat, observed) {
        KnownIdentities(start);
        OneSeatIssues(start, st, st', issued, seats[seat].Declaration(), seat, observed);
      } else {
        NoBotIssues(start, st, st', issued, Issued(st, st'));
      }
    }
  }

  lemma NothingIsIssued(start: ReconcilerState)
    ensures FillingIssues(start, start, [])
  {
  }

  ghost predicate RetiredLeave(bots: map<ControllerId, HostedBot>, seats: SeatRoster, observed: nat, c: LobbyCommand) {
    c.LeaveCommand? && Retires(bots, c.leaving, seats, observed, false)
  }

  ghost predicate AllRetiredLeaves(bots: map<ControllerId, HostedBot>, seats: SeatRoster, observed: nat,
                                   leaves: seq<LobbyCommand>)
  {
    forall k :: 0 <= k < |leaves| ==> RetiredLeave(bots, seats, observed, leaves[k])
  }

  lemma {:induction false} LeavesAreRetired(bots: map<ControllerId, HostedBot>, order: seq<ControllerId>,
                                            seats: SeatRoster, observed: nat)
    ensures AllRetiredLeaves(bots, seats, observed, LeavesOf(bots, order, seats, observed, false))
    decreases |order|
  {
    if order != [] {
      LeavesAreRetired(bots, order[1..], seats, observed);
      if Retires(bots, order[0], seats, observed, false) {
        assert RetiredLeave(bots, seats, observed, LeaveCommand(order[0]));
      }
    }
  }

  lemma {:induction false} RetiredLeaveIsThere(bots: map<ControllerId, HostedBot>, order: seq<ControllerId>,
                                               seats: SeatRoster, observed: nat, c: ControllerId)
    requires c in order && Retires(bots, c, seats, observed, false)
    ensures HasLeave(LeavesOf(bots, order, seats, observed, false), c)
    decreases |order|
  {
    if order[0] != c { RetiredLeaveIsThere(bots, order[1..], seats, observed, c); }
  }

  /** Everything one pass hands over: the join of every bot it created, the leave of every bot it retired,
      and beside these only leaves of identities that never hosted a bot. */
  lemma PassIssues(room: Room, st: ReconcilerState, seats: SeatRoster, observed: nat)
    requires Inv(st) && |seats| <= MAXIMUM_LOBBY_SEAT_COUNT
    ensures var st' := Reconcile(room, st, seats, observed, false);
      && st.sink.submitted <= st'.sink.submitted && st.sink.nextControllerId <= st'.sink.nextControllerId
      && AllWellIssued(st, st', Issued(st, st'))
      && (forall c :: c in st'.bots && c !in st.bots ==> HasJoin(Issued(st, st'), c))
      && (forall c :: c in st.bots && c !in st'.bots ==> HasLeave(Issued(st, st'), c))
      && (forall c :: c in st.bots ==> (c in st'.bots <==> !Retires(st.bots, c, seats, observed, false)))
      && (forall c :: c in st.bots && c in st'.bots ==>
            st'.bots[c] == Settle(st.bots[c], FateOf(c, st.bots[c], seats, observed)))
  {
    hide Inv, FillingIssues, ForeignSessions, FillSeats, Retire, LeavesOf, AllTracked, Ascending, AllWellIssued,
      WellIssued, HasJoin, HasLeave, AllRetiredLeaves, Retires, FateOf;
    var start := Retire(st, seats, observed, false);
    KnownIdentities(st);
    RetireIsExact(st, seats, observed, false);
    SurvivorsAreTracked(st, seats, observed);
    FillingIssuesJoins(room, start, seats, |seats|, observed);
    var order := Ascending(st.bots.Keys);
    AscendingIsAscending(st.bots.Keys);
    LeavesAreRetired(st.bots, order, seats, observed);
    forall c | c in st.bots && Retires(st.bots, c, seats, observed, false)
      ensures HasLeave(LeavesOf(st.bots, order, seats, observed, false), c)
    {
      RetiredLeaveIsThere(st.bots, order, seats, observed, c);
    }
    var st' := Reconcile(room, st, seats, observed, false);
    var leaves, filled := LeavesOf(st.bots, order, seats, observed, false), Issued(start, st');
    assert Issued(st, st') == leaves + filled;
    IssuedTogether(st, start, st', seats, observed, leaves, filled);
  }

  lemma IssuedTogether(st: ReconcilerState, start: ReconcilerState, st': ReconcilerState, seats: SeatRoster,
                       observed: nat, leaves: seq<LobbyCommand>, filled: seq<LobbyCommand>)
    requires FillingIssues(start, st', filled) && start.sink.nextControllerId == st.sink.nextControllerId
    requires start.bots == SurvivingBots(st.bots, seats, observed, false)
    requires forall c :: c in st.bots ==> c < st.sink.nextControllerId
    requires AllRetiredLeaves(st.bots, seats, observed, leaves)
    requires forall c :: c in st.bots && Retires(st.bots, c, seats, observed, false) ==> HasLeave(leaves, c)
    ensures AllWellIssued(st, st', leaves + filled)
    ensures forall c :: c in st'.bots && c !in st.bots ==> HasJoin(leaves + filled, c)
    ensures forall c :: c in st.bots && c !in st'.bots ==> HasLeave(leaves + filled, c)
    ensures forall c :: c in st.bots ==> (c in st'.bots <==> !Retires(st.bots, c, seats, observed, false))
    ensures forall c :: c in st.bots && c in st'.bots ==>
      st'.bots[c] == Settle(st.bots[c], FateOf(c, st.bots[c], seats, observed))
  {
    var all := leaves + filled;
    forall c | c in st.bots
      ensures c in st'.bots <==> !Retires(st.bots, c, seats, observed, false)
      ensures c in st'.bots ==> st'.bots[c] == Settle(st.bots[c], FateOf(c, st.bots[c], seats, observed))
    {
      assert c in start.bots <==> !Retires(st.bots, c, seats, observed, false);
    }
    forall k | 0 <= k < |all| ensures WellIssued(st, st', all[k]) {
      if k >= |leaves| {
        assert WellIssued(start, st', filled[k - |leaves|]);
      } else {
        assert RetiredLeave(st.bots, seats, observed, leaves[k]);
      }
    }
    forall c | c in st'.bots && c !in st.bots ensures HasJoin(all, c) {
      var k :| 0 <= k < |filled| && JoinOf(c, filled[k]);
      assert JoinOf(c, all[|leaves| + k]);
    }
  }

  // ---------------------------------------------------------------- one seat through one round

  ghost function HomesOf(bots: map<ControllerId, HostedBot>): map<ControllerId, Home> {
    map c | c in bots :: Home(bots[c].seatIndex, bots[c].declaration)
  }

  /** The bots of both ends of a round. */
  ghost function Homes(st: ReconcilerState, st': ReconcilerState): map<ControllerId, Home> {
    HomesOf(st.bots) + HomesOf(st'.bots)
  }

  /** What a pass did, as far as its seats care. */
  ghost predicate Passed(st: ReconcilerState, st': ReconcilerState, seats: SeatRoster, observed: nat,
                         issued: seq<LobbyCommand>)
  {
    && Inv(st) && Inv(st') && RosterAgrees(st, seats) && Quiet(st', seats, observed)
    && st.sink.nextControllerId <= st'.sink.nextControllerId && AllWellIssued(st, st', issued)
    && (forall c :: c in st'.bots && c !in st.bots ==> HasJoin(issued, c))
    && (forall c :: c in st.bots && c !in st'.bots ==> HasLeave(issued, c))
    && (forall c :: c in st.bots ==> (c in st'.bots <==> !Retires(st.bots, c, seats, observed, false)))
    && (forall c :: c in st.bots && c in st'.bots ==>
          st'.bots[c] == Settle(st.bots[c], FateOf(c, st.bots[c], seats, observed)))
  }

  lemma PassPasses(room: Room, st: ReconcilerState, seats: SeatRoster, observed: nat)
    requires Inv(st) && |seats| <= MAXIMUM_LOBBY_SEAT_COUNT && RosterAgrees(st, seats)
    ensures var st' := Reconcile(room, st, seats, observed, false);
      st.sink.submitted <= st'.sink.submitted && Passed(st, st', seats, observed, Issued(st, st'))
  {
    hide Inv, RosterAgrees, Quiet, Reconcile, AllWellIssued, HasJoin, HasLeave, Retires, FateOf;
    PassIssues(room, st, seats, observed);
    PassKeeps(room, st, seats, observed, false);
    PassServesTheRoster(room, st, seats, observed);
  }

  lemma RoundGoesHome(st: ReconcilerState, st': ReconcilerState, seats: SeatRoster, observed: nat,
                      late: seq<LobbyCommand>, issued: seq<LobbyCommand>)
    requires Passed(st, st', seats, observed, issued)
    requires forall k :: 0 <= k < |late| ==> OwnJoin(st.bots, late[k]) || OwnJoin(st'.bots, late[k])
    ensures AllGoHome(Homes(st, st'), late + issued) && AllSitAtHome(Homes(st, st'), seats)
  {
    hide Inv, Quiet, HasJoin, HasLeave, Retires, FateOf;
    var homes, all := Homes(st, st'), late + issued;
    forall k | 0 <= k < |all| ensures GoesHome(homes, all[k]) {
      if k < |late| {
        LateGoesHome(st, st', seats, observed, issued, late[k]);
      } else {
        assert WellIssued(st, st', issued[k - |late|]);
      }
    }
    KnownIdentities(st);
    forall i: nat, c | i < |seats| && c in homes && seats[i].HeldBy(c) ensures homes[c].seat == i && seats[i].NpcSeat? {
      assert HolderAgrees(st, seats[i], i, c);
      HolderHasHome(st, st', seats, observed, issued, i, c);
    }
  }

  lemma LateGoesHome(st: ReconcilerState, st': ReconcilerState, seats: SeatRoster, observed: nat,
                     issued: seq<LobbyCommand>, c: LobbyCommand)
    requires Passed(st, st', seats, observed, issued) && (OwnJoin(st.bots, c) || OwnJoin(st'.bots, c))
    ensures GoesHome(Homes(st, st'), c)
  {
    hide Inv, Quiet, HasJoin, HasLeave, Retires, FateOf, RosterAgrees, AllWellIssued;
  }

  /** New identities sit nowhere yet, and a known one that is hosted sits where it is hosted. */
  lemma HolderHasHome(st: ReconcilerState, st': ReconcilerState, seats: SeatRoster, observed: nat,
                      issued: seq<LobbyCommand>, i: nat, c: ControllerId)
    requires Passed(st, st', seats, observed, issued) && i < |seats| && seats[i].HeldBy(c)
    requires c in st.bots || c in st'.bots
    ensures c in st.bots && c in st'.bots && seats[i].NpcSeat?
    ensures st.bots[c].seatIndex == st'.bots[c].seatIndex == i
    ensures st.bots[c].declaration == st'.bots[c].declaration == seats[i].Declaration()
  {
    hide Inv, Quiet, HasLeave;
    assert HolderAgrees(st, seats[i], i, c);
    if c !in st.bots { NewIsUnknown(st, st', issued, c); }
  }

  lemma NewIsUnknown(st: ReconcilerState, st': ReconcilerState, issued: seq<LobbyCommand>, c: ControllerId)
    requires AllWellIssued(st, st', issued) && HasJoin(issued, c)
    ensures c >= st.sink.nextControllerId && c in st'.bots && c !in st.bots
  {
    var k :| 0 <= k < |issued| && JoinOf(c, issued[k]);
    assert WellIssued(st, st', issued[k]);
  }

  /** Nobody who holds a seat of the snapshot leaves it. */
  lemma NobodySeatedLeaves(st: ReconcilerState, st': ReconcilerState, seats: SeatRoster, observed: nat,
                           issued: seq<LobbyCommand>, i: nat)
    requires Passed(st, st', seats, observed, issued) && i < |seats|
    ensures !IsLeft(issued, seats[i])
  {
    hide Inv, Quiet, HasLeave, HasJoin;
    forall k | 0 <= k < |issued| && issued[k].LeaveCommand? ensures !seats[i].HeldBy(issued[k].leaving) {
      assert WellIssued(st, st', issued[k]);
      var c := issued[k].leaving;
      if seats[i].HeldBy(c) {
        assert HolderAgrees(st, seats[i], i, c);
        HolderHasHome(st, st', seats, observed, issued, i, c);
      }
    }
  }

  ghost predicate FromEitherEnd(st: ReconcilerState, st': ReconcilerState, late: seq<LobbyCommand>) {
    forall k :: 0 <= k < |late| ==> OwnJoin(st.bots, late[k]) || OwnJoin(st'.bots, late[k])
  }

  /** Whose join took this seat: of a bot hosted for it before or after the pass. */
  lemma JoinerIsHosted(st: ReconcilerState, st': ReconcilerState, seats: SeatRoster, observed: nat,
                       late: seq<LobbyCommand>, issued: seq<LobbyCommand>, i: nat)
    requires Passed(st, st', seats, observed, issued) && FromEitherEnd(st, st', late) && i < |seats|
    requires FirstJoin(late + issued, seats[i], i).Some?
    ensures Unfilled(seats[i])
    ensures var c, home := FirstJoin(late + issued, seats[i], i).value, Home(i, seats[i].Declaration());
      && (c in st.bots || c in st'.bots)
      && (c in st'.bots ==> st'.bots[c].seatIndex == i && st'.bots[c].declaration == seats[i].Declaration())
  {
    hide Inv, Quiet, HasLeave, HasJoin, RosterAgrees, Retires;
    RoundGoesHome(st, st', seats, observed, late, issued);
    FirstJoinFills(late + issued, seats[i], i);
    var c := FirstJoin(late + issued, seats[i], i).value;
    var k :| 0 <= k < |late + issued| && Fills((late + issued)[k], seats[i], i) && (late + issued)[k].joining == c;
    assert GoesHome(Homes(st, st'), (late + issued)[k]);
  }

  /** What a round makes of one seat: a filled one stays as it is; an empty one is held by the first bot
      whose join reaches it, unless that bot was retired in the same pass and leaves again. */
  lemma SeatOutcome(st: ReconcilerState, st': ReconcilerState, seats: SeatRoster, observed: nat,
                    late: seq<LobbyCommand>, issued: seq<LobbyCommand>, i: nat)
    requires Passed(st, st', seats, observed, issued) && FromEitherEnd(st, st', late) && i < |seats|
    ensures var joiner, after := FirstJoin(late + issued, seats[i], i), ApplyBatch(seats, late + issued)[i];
      after == if joiner.Some? && joiner.value in st'.bots then seats[i].(bot := joiner) else seats[i]
  {
    hide Inv, Quiet, HasJoin, RosterAgrees, Retires, Passed, HasLeave;
    RoundGoesHome(st, st', seats, observed, late, issued);
    BatchIsSeatwise(Homes(st, st'), seats, late + issued, i);
    var joined := Joined(late + issued, seats[i], i);
    OnlyIssuedLeave(st, st', late, issued, joined);
    match FirstJoin(late + issued, seats[i], i)
    case None => NobodySeatedLeaves(st, st', seats, observed, issued, i);
    case Some(c) =>
      JoinerIsHosted(st, st', seats, observed, late, issued, i);
      JoinerLeaves(st, st', seats, observed, issued, joined, c);
  }

  lemma OnlyIssuedLeave(st: ReconcilerState, st': ReconcilerState, late: seq<LobbyCommand>,
                        issued: seq<LobbyCommand>, seat: Seat)
    requires FromEitherEnd(st, st', late)
    ensures IsLeft(late + issued, seat) <==> IsLeft(issued, seat)
  {
    var all := late + issued;
    if IsLeft(all, seat) {
      var k :| 0 <= k < |all| && all[k].LeaveCommand? && seat.HeldBy(all[k].leaving);
      assert k >= |late|;
      assert all[k] == issued[k - |late|];
    }
    if IsLeft(issued, seat) {
      var k :| 0 <= k < |issued| && issued[k].LeaveCommand? && seat.HeldBy(issued[k].leaving);
      assert all[|late| + k] == issued[k];
    }
  }

  lemma JoinerLeaves(st: ReconcilerState, st': ReconcilerState, seats: SeatRoster, observed: nat,
                     issued: seq<LobbyCommand>, seat: Seat, c: ControllerId)
    requires Passed(st, st', seats, observed, issued) && (c in st.bots || c in st'.bots)
    requires seat.NpcSeat? && seat.bot == Some(c)
    ensures IsLeft(issued, seat) <==> c !in st'.bots
  {
    hide Inv, Quiet, HasJoin, RosterAgrees, Retires;
    if c !in st'.bots {
      assert LeaveCommand(c) in issued;
      var k :| 0 <= k < |issued| && issued[k] == LeaveCommand(c);
      assert seat.HeldBy(issued[k].leaving);
    }
    forall k | 0 <= k < |issued| && issued[k].LeaveCommand? && seat.HeldBy(issued[k].leaving) ensures c !in st'.bots {
      assert WellIssued(st, st', issued[k]);
    }
  }

  /** A bot a pass creates finds its seat declared for it, and empty, and its own join is the first in what
      the pass hands over to reach it. */
  lemma NewBotFindsItsSeat(st: ReconcilerState, st': ReconcilerState, seats: SeatRoster, observed: nat,
                           issued: seq<LobbyCommand>, c: ControllerId)
    requires Passed(st, st', seats, observed, issued) && c in st'.bots && c !in st.bots
    ensures var bot := st'.bots[c];
      && SameDeclaration(seats, bot.seatIndex, bot.declaration) && Unfilled(seats[bot.seatIndex])
      && FirstJoin(issued, seats[bot.seatIndex], bot.seatIndex) == Some(c)
  {
    hide HasLeave, Retires, ValidSink, NoFailedSeatIsHosted, SeatServed, RosterAgrees, HasJoin;
    var i := st'.bots[c].seatIndex;
    assert Tracked(c, st'.bots[c], seats, observed);
    if seats[i].bot.Some? {
      var x := seats[i].bot.value;
      HolderIsKept(st, st', seats, observed, issued, i, x);
      assert false;
    }
    OwnJoinIsFirst(st, st', seats, observed, issued, c);
  }

  lemma HolderIsKept(st: ReconcilerState, st': ReconcilerState, seats: SeatRoster, observed: nat,
                     issued: seq<LobbyCommand>, i: nat, x: ControllerId)
    requires Passed(st, st', seats, observed, issued) && i < |seats| && seats[i].NpcSeat? && seats[i].bot == Some(x)
    ensures x in st.bots && x in st'.bots && st'.bots[x].seatIndex == i
  {
    hide Inv, Quiet, HasLeave, HasJoin, Retires;
    assert HolderAgrees(st, seats[i], i, x);
    HolderHasHome(st, st', seats, observed, issued, i, x);
  }

  lemma OwnJoinIsFirst(st: ReconcilerState, st': ReconcilerState, seats: SeatRoster, observed: nat,
                       issued: seq<LobbyCommand>, c: ControllerId)
    requires Passed(st, st', seats, observed, issued) && c in st'.bots && c !in st.bots
    requires var bot := st'.bots[c];
      SameDeclaration(seats, bot.seatIndex, bot.declaration) && Unfilled(seats[bot.seatIndex])
    ensures FirstJoin(issued, seats[st'.bots[c].seatIndex], st'.bots[c].seatIndex) == Some(c)
  {
    hide HasLeave, Retires, ValidSink, NoFailedSeatIsHosted, Quiet, RosterAgrees;
    var i := st'.bots[c].seatIndex;
    var k :| 0 <= k < |issued| && JoinOf(c, issued[k]);
    assert WellIssued(st, st', issued[k]);
    assert Fills(issued[k], seats[i], i);
    FirstJoinFills(issued, seats[i], i);
    var x := FirstJoin(issued, seats[i], i).value;
    var j :| 0 <= j < |issued| && Fills(issued[j], seats[i], i) && issued[j].joining == x;
    assert WellIssued(st, st', issued[j]);
    assert x == c;
  }

  // ---------------------------------------------------------------- where the successor misses its seat

  /** A late join fills this seat of the snapshot. */
  ghost predicate LateFor(late: seq<LobbyCommand>, seats: SeatRoster, i: nat)
    requires i < |seats|
  {
    exists k :: 0 <= k < |late| && Fills(late[k], seats[i], i)
  }

  /** A bot a pass creates is seated by the tick after it exactly when that tick brings no late join of the
      bot it succeeds; with one, the old bot's join comes first, its leave then vacates the seat, and the
      seat is left as it was. */
  lemma SuccessorIsSeatedExactlyWhen(room: Room, st: ReconcilerState, seats: SeatRoster, observed: nat,
                                     late: seq<LobbyCommand>, c: ControllerId)
    requires Inv(st) && |seats| <= MAXIMUM_LOBBY_SEAT_COUNT && RosterAgrees(st, seats) && AllOwnJoins(st.bots, late)
    requires c in Reconcile(room, st, seats, observed, false).bots && c !in st.bots
    ensures var st' := Reconcile(room, st, seats, observed, false);
      && st.sink.submitted <= st'.sink.submitted
      && var i, after := st'.bots[c].seatIndex, ApplyBatch(seats, late + Issued(st, st'));
         && i < |seats| && (after[i].HeldBy(c) <==> !LateFor(late, seats, i))
         && (LateFor(late, seats, i) ==> after[i] == seats[i])
  {
    hide RosterAgrees, Reconcile, Passed, Quiet, ApplyBatch;
    PassPasses(room, st, seats, observed);
    var st' := Reconcile(room, st, seats, observed, false);
    SuccessorsSeat(st, st', seats, observed, late, Issued(st, st'), c);
  }

  lemma SuccessorsSeat(st: ReconcilerState, st': ReconcilerState, seats: SeatRoster, observed: nat,
                       late: seq<LobbyCommand>, issued: seq<LobbyCommand>, c: ControllerId)
    requires Passed(st, st', seats, observed, issued) && AllOwnJoins(st.bots, late) && c in st'.bots && c !in st.bots
    ensures var i, after := st'.bots[c].seatIndex, ApplyBatch(seats, late + issued);
      && i < |seats| && (after[i].HeldBy(c) <==> !LateFor(late, seats, i))
      && (LateFor(late, seats, i) ==> after[i] == seats[i])
  {
    hide RosterAgrees, Quiet, ApplyBatch, HasJoin, HasLeave, Retires, ValidSink, AllWellIssued;
    var i := st'.bots[c].seatIndex;
    NewBotFindsItsSeat(st, st', seats, observed, issued, c);
    SeatOutcome(st, st', seats, observed, late, issued, i);
    FirstJoinOfBoth(late, issued, seats[i], i);
    FirstJoinFills(late, seats[i], i);
    if LateFor(late, seats, i) {
      var earlier := FirstJoin(late, seats[i], i).value;
      var k :| 0 <= k < |late| && Fills(late[k], seats[i], i) && late[k].joining == earlier;
      assert OwnJoin(st.bots, late[k]);
      JoinerIsHosted(st, st', seats, observed, late, issued, i);
      assert earlier !in st'.bots;
    }
  }

  const WANDERER := NpcDeclaration("wanderer", None)
  const WANDERER_SEAT: SeatRoster := [NpcSeat("wanderer", None, None)]
  const WANDERERS_JOIN := JoinCommand(1, 0, WANDERER)

  /** One wanderer, whose join was handed over at tick 0 and has not landed. */
  ghost function OneWaits(): ReconcilerState {
    ReconcilerState(
      map[1 := HostedBot(WANDERER, 0, Some(0))], map["wanderer" := 1], map[],
      SinkState(2, map[1 := Presentation("wanderer", "wanderer 1")], {1}, [WANDERERS_JOIN]),
      [HostedController(1, "wanderer")])
  }

  lemma OneWaitsIsConsistent()
    ensures Inv(OneWaits()) && RosterAgrees(OneWaits(), WANDERER_SEAT)
    ensures AllOwnJoins(OneWaits().bots, [WANDERERS_JOIN])
  {
    assert OneWaits().hosted[0].controller == 1;
  }

  lemma TheWandererIsRetired()
    ensures var kept := Retire(OneWaits(), WANDERER_SEAT, JOIN_OBSERVATION_BUDGET_TICKS, false);
      && Inv(kept) && kept.bots == map[] && kept.failed == map[] && kept.ordinals == OneWaits().ordinals
      && kept.sink.nextControllerId == 2 && kept.sink.directory == map[]
  {
    hide Inv, Retire, LeavesOf, ForeignSessions;
    var st, observed := OneWaits(), JOIN_OBSERVATION_BUDGET_TICKS;
    OneWaitsIsConsistent();
    RetireIsExact(st, WANDERER_SEAT, observed, false);
    RetireKeepsOrdinals(st, WANDERER_SEAT, observed);
    NothingIsOpen(Retire(st, WANDERER_SEAT, observed, false));
  }

  lemma TheWandererIsReplaced(room: Room)
    ensures var st' := Reconcile(room, OneWaits(), WANDERER_SEAT, JOIN_OBSERVATION_BUDGET_TICKS, false);
      st'.bots.Keys == {2} && st'.bots[2].seatIndex == 0
  {
    hide Inv, Retire, CreateBot, DisplayName, ValidDisplayName, ValidControllerKind, Consistent, ForeignSessions;
    var kept := Retire(OneWaits(), WANDERER_SEAT, JOIN_OBSERVATION_BUDGET_TICKS, false);
    TheWandererIsRetired();
    NameOfTheNextWanderer();
    assert NextOrdinal(kept.ordinals, "wanderer") == 2;
    CreationIsExact(room, kept, WANDERER, 0, JOIN_OBSERVATION_BUDGET_TICKS);
    assert FillSeats(room, kept, WANDERER_SEAT, 0, JOIN_OBSERVATION_BUDGET_TICKS) == kept;
  }

  lemma RetireKeepsOrdinals(st: ReconcilerState, seats: SeatRoster, observed: nat)
    ensures Retire(st, seats, observed, false).ordinals == st.ordinals
  {
    hide SettleInOrder;
  }

  lemma NothingIsOpen(kept: ReconcilerState)
    requires kept.bots == map[] && ForeignSessions(kept) == ForeignSessions(OneWaits())
    ensures kept.sink.directory == map[]
  {
    assert kept.sink.directory == ForeignSessions(kept);
  }

  lemma NameOfTheNextWanderer()
    ensures ValidDisplayName(DisplayName("wanderer", 2)) && ValidControllerKind("wanderer")
  {
    assert PrintDecimal(2) == "2";
  }

  /** So a round cannot promise a seat to a bot whose predecessor's late join lands with its leave: after
      this one the seat is still empty. */
  lemma LateJoinCanUnseatTheSuccessor(room: Room)
    ensures var st' := Reconcile(room, OneWaits(), WANDERER_SEAT, JOIN_OBSERVATION_BUDGET_TICKS, false);
      && st'.bots.Keys == {2} && |OneWaits().sink.submitted| <= |st'.sink.submitted|
      && ApplyBatch(WANDERER_SEAT, [WANDERERS_JOIN] + Issued(OneWaits(), st')) == WANDERER_SEAT
  {
    hide Inv, Reconcile, ApplyBatch, RosterAgrees, OneWaits;
    OneWaitsIsConsistent();
    TheWandererIsReplaced(room);
    assert OneWaits().bots.Keys == {1} by { OneIsHosted(); }
    assert Fills([WANDERERS_JOIN][0], WANDERER_SEAT[0], 0);
    SuccessorIsSeatedExactlyWhen(room, OneWaits(), WANDERER_SEAT, JOIN_OBSERVATION_BUDGET_TICKS, [WANDERERS_JOIN], 2);
  }

  lemma OneIsHosted()
    ensures OneWaits().bots.Keys == {1}
  {
  }

  // ---------------------------------------------------------------- late joins of bots still hosted

  /** The roster shows this bot in the seat it is hosted for. */
  ghost predicate IsSeated(c: ControllerId, bot: HostedBot, seats: SeatRoster) {
    SameDeclaration(seats, bot.seatIndex, bot.declaration) && seats[bot.seatIndex].bot == Some(c)
  }

  /** Every bot is seated, or has been waiting since this tick or longer. */
  ghost predicate WaitingSince(st: ReconcilerState, seats: SeatRoster, since: nat) {
    forall c :: c in st.bots ==>
      IsSeated(c, st.bots[c], seats) || (st.bots[c].joinSubmittedAt.Some? ==> st.bots[c].joinSubmittedAt.value <= since)
  }

  /** A round with such late joins seats every bot it creates and unseats none it keeps, so only bots that
      were already waiting wait on. */
  lemma RoundAddsNoWaiting(room: Room, st: ReconcilerState, seats: SeatRoster, observed: nat,
                           late: seq<LobbyCommand>, since: nat)
    requires Inv(st) && |seats| <= MAXIMUM_LOBBY_SEAT_COUNT && RosterAgrees(st, seats) && WaitingSince(st, seats, since)
    requires AllOwnJoins(Reconcile(room, st, seats, observed, false).bots, late)
    ensures var st' := Reconcile(room, st, seats, observed, false);
      && Inv(st') && st.sink.submitted <= st'.sink.submitted
      && var after := ApplyBatch(seats, late + Issued(st, st'));
         RosterAgrees(st', after) && WaitingSince(st', after, since)
  {
    hide Inv, RosterAgrees, Reconcile, Passed, Quiet, ApplyBatch, WaitingSince, AllOwnJoins;
    PassPasses(room, st, seats, observed);
    PassKeeps(room, st, seats, observed, false);
    var st' := Reconcile(room, st, seats, observed, false);
    RosterStillAgrees(st, st', seats, observed, late, Issued(st, st'));
    WaitersStillWait(st, st', seats, observed, late, Issued(st, st'), since);
  }

  lemma RosterStillAgrees(st: ReconcilerState, st': ReconcilerState, seats: SeatRoster, observed: nat,
                          late: seq<LobbyCommand>, issued: seq<LobbyCommand>)
    requires Passed(st, st', seats, observed, issued) && AllOwnJoins(st'.bots, late)
    ensures RosterAgrees(st', ApplyBatch(seats, late + issued))
  {
    hide Passed, HolderAgrees, ApplyBatch;
    var after := ApplyBatch(seats, late + issued);
    forall i: nat, c: ControllerId | i < |after| ensures HolderAgrees(st', after[i], i, c) {
      SeatOutcome(st, st', seats, observed, late, issued, i);
      if FirstJoin(late + issued, seats[i], i).Some? { JoinerIsHosted(st, st', seats, observed, late, issued, i); }
      SeatStillAgrees(st, st', seats, observed, issued, after[i], i, c);
    }
  }

  lemma SeatStillAgrees(st: ReconcilerState, st': ReconcilerState, seats: SeatRoster, observed: nat,
                        issued: seq<LobbyCommand>, after: Seat, i: nat, c: ControllerId)
    requires Passed(st, st', seats, observed, issued) && i < |seats|
    requires after == seats[i] ||
      (&& Unfilled(seats[i]) && after.NpcSeat? && after.bot.Some? && after == seats[i].(bot := after.bot)
       && after.bot.value in st'.bots && st'.bots[after.bot.value].seatIndex == i
       && st'.bots[after.bot.value].declaration == seats[i].Declaration())
    ensures HolderAgrees(st', after, i, c)
  {
    hide Quiet, HasLeave, Retires, DistinctSeats, NoFailedSeatIsHosted, AllWellIssued;
    KnownIdentities(st');
    if after == seats[i] && after.HeldBy(c) {
      assert HolderAgrees(st, seats[i], i, c);
      if c in st.bots || c in st'.bots { HolderHasHome(st, st', seats, observed, issued, i, c); }
    }
  }

  lemma WaitersStillWait(st: ReconcilerState, st': ReconcilerState, seats: SeatRoster, observed: nat,
                         late: seq<LobbyCommand>, issued: seq<LobbyCommand>, since: nat)
    requires Passed(st, st', seats, observed, issued) && AllOwnJoins(st'.bots, late) && WaitingSince(st, seats, since)
    ensures WaitingSince(st', ApplyBatch(seats, late + issued), since)
  {
    hide RosterAgrees, Quiet, ApplyBatch, HasJoin, HasLeave, Retires, ValidSink, AllWellIssued, Inv;
    var after := ApplyBatch(seats, late + issued);
    forall c | c in st'.bots
      ensures IsSeated(c, st'.bots[c], after) ||
        (st'.bots[c].joinSubmittedAt.Some? ==> st'.bots[c].joinSubmittedAt.value <= since)
    {
      if c !in st.bots {
        NewBotIsSeated(st, st', seats, observed, late, issued, c);
      } else if IsSeated(c, st.bots[c], seats) {
        SeatOutcome(st, st', seats, observed, late, issued, st.bots[c].seatIndex);
      }
    }
  }

  lemma NewBotIsSeated(st: ReconcilerState, st': ReconcilerState, seats: SeatRoster, observed: nat,
                       late: seq<LobbyCommand>, issued: seq<LobbyCommand>, c: ControllerId)
    requires Passed(st, st', seats, observed, issued) && AllOwnJoins(st'.bots, late) && c in st'.bots && c !in st.bots
    ensures FirstJoin(late + issued, seats[st'.bots[c].seatIndex], st'.bots[c].seatIndex) == Some(c)
    ensures IsSeated(c, st'.bots[c], ApplyBatch(seats, late + issued))
  {
    hide RosterAgrees, Quiet, ApplyBatch, HasJoin, HasLeave, Retires, ValidSink, AllWellIssued;
    var i := st'.bots[c].seatIndex;
    NewBotFindsItsSeat(st, st', seats, observed, issued, c);
    SeatOutcome(st, st', seats, observed, late, issued, i);
    FirstJoinOfBoth(late, issued, seats[i], i);
    FirstJoinFills(late, seats[i], i);
    if FirstJoin(late, seats[i], i).Some? { JoinerIsHosted(st, st', seats, observed, late, issued, i); }
  }

  /** When nobody is waiting any more, late joins change nothing. */
  lemma LateJoinsAddNothing(room: Room, st: ReconcilerState, seats: SeatRoster, observed: nat, late: seq<LobbyCommand>)
    requires Inv(st) && |seats| <= MAXIMUM_LOBBY_SEAT_COUNT && RosterAgrees(st, seats)
    requires NoJoinInFlight(st, seats, observed)
    requires AllOwnJoins(Reconcile(room, st, seats, observed, false).bots, late)
    ensures var st' := Reconcile(room, st, seats, observed, false);
      st.sink.submitted <= st'.sink.submitted &&
      ApplyBatch(seats, late + Issued(st, st')) == ApplyBatch(seats, Issued(st, st'))
  {
    hide Inv, RosterAgrees, Reconcile, Passed, Quiet, ApplyBatch, AllOwnJoins, NoJoinInFlight;
    PassPasses(room, st, seats, observed);
    var st' := Reconcile(room, st, seats, observed, false);
    var issued := Issued(st, st');
    assert [] + issued == issued;
    forall i | 0 <= i < |seats| ensures ApplyBatch(seats, late + issued)[i] == ApplyBatch(seats, issued)[i] {
      FromHosted(st, st', late);
      SeatOutcome(st, st', seats, observed, late, issued, i);
      SeatOutcome(st, st', seats, observed, [], issued, i);
      LateJoinIsNew(st, st', seats, observed, late, issued, i);
    }
  }

  lemma FromHosted(st: ReconcilerState, st': ReconcilerState, late: seq<LobbyCommand>)
    requires AllOwnJoins(st'.bots, late)
    ensures FromEitherEnd(st, st', late)
  {
  }

  lemma LateJoinIsNew(st: ReconcilerState, st': ReconcilerState, seats: SeatRoster, observed: nat,
                      late: seq<LobbyCommand>, issued: seq<LobbyCommand>, i: nat)
    requires Passed(st, st', seats, observed, issued) && AllOwnJoins(st'.bots, late) && i < |seats|
    requires NoJoinInFlight(st, seats, observed)
    ensures FirstJoin(late + issued, seats[i], i) == FirstJoin(issued, seats[i], i)
  {
    hide RosterAgrees, Quiet, HasJoin, HasLeave, ValidSink, AllWellIssued, Inv;
    FirstJoinOfBoth(late, issued, seats[i], i);
    FirstJoinFills(late, seats[i], i);
    if FirstJoin(late, seats[i], i).Some? {
      var c := FirstJoin(late, seats[i], i).value;
      var k :| 0 <= k < |late| && Fills(late[k], seats[i], i) && late[k].joining == c;
      assert OwnJoin(st'.bots, late[k]);
      if c in st.bots { assert false; }
      NewBotFindsItsSeat(st, st', seats, observed, issued, c);
    }
  }

  // ---------------------------------------------------------------- round after round

  /** Once a join budget has gone by, nobody is waiting any more. */
  lemma BudgetEndsTheWait(st: ReconcilerState, seats: SeatRoster, since: nat, observed: nat)
    requires WaitingSince(st, seats, since) && since + JOIN_OBSERVATION_BUDGET_TICKS <= observed
    ensures NoJoinInFlight(st, seats, observed)
  {
  }

  /** One pass, and one tick over what it handed over and any late joins of the bots it left hosted. */
  ghost predicate IsRound(room: Room, st: ReconcilerState, seats: SeatRoster, observed: nat, late: seq<LobbyCommand>,
                          st': ReconcilerState, after: SeatRoster)
  {
    && st' == Reconcile(room, st, seats, observed, false) && |st.sink.submitted| <= |st'.sink.submitted|
    && AllOwnJoins(st'.bots, late) && after == ApplyBatch(seats, late + Issued(st, st'))
  }

  /** Rounds one after another with nothing else changing the roster. */
  ghost predicate AreRounds(room: Room, states: seq<ReconcilerState>, rosters: seq<SeatRoster>, ticks: seq<nat>,
                            lates: seq<seq<LobbyCommand>>)
  {
    && |states| == |rosters| == |ticks| + 1 && |lates| == |ticks|
    && forall k :: 0 <= k < |ticks| ==>
         IsRound(room, states[k], rosters[k], ticks[k], lates[k], states[k + 1], rosters[k + 1])
  }

  /** A state any joins may be in flight from, all of them submitted by then. */
  ghost predicate MayHaveJoinsInFlight(st: ReconcilerState, seats: SeatRoster, since: nat) {
    && Inv(st) && |seats| <= MAXIMUM_LOBBY_SEAT_COUNT && RosterAgrees(st, seats) && WaitingSince(st, seats, since)
  }

  lemma {:induction false} RoundsKeepWaiting(room: Room, states: seq<ReconcilerState>, rosters: seq<SeatRoster>,
                                             ticks: seq<nat>, lates: seq<seq<LobbyCommand>>, since: nat, k: nat)
    requires AreRounds(room, states, rosters, ticks, lates) && k <= |ticks|
    requires MayHaveJoinsInFlight(states[0], rosters[0], since)
    ensures MayHaveJoinsInFlight(states[k], rosters[k], since)
  {
    hide Inv, RosterAgrees, WaitingSince, Reconcile, ApplyBatch, AllOwnJoins;
    if k > 0 {
      RoundsKeepWaiting(room, states, rosters, ticks, lates, since, k - 1);
      assert IsRound(room, states[k - 1], rosters[k - 1], ticks[k - 1], lates[k - 1], states[k], rosters[k]);
      RoundAddsNoWaiting(room, states[k - 1], rosters[k - 1], ticks[k - 1], lates[k - 1], since);
    }
  }

  /** Whatever joins were in flight at the start, and whichever of them are lost, land late, or land again,
      as long as none lands in the tick of its own bot's leave: the first round a join budget later seats
      every bot, and from then on the rounds change neither the roster nor, once the landings are noted,
      anything else. */
  lemma RoundsConverge(room: Room, states: seq<ReconcilerState>, rosters: seq<SeatRoster>, ticks: seq<nat>,
                       lates: seq<seq<LobbyCommand>>, since: nat, k: nat)
    requires AreRounds(room, states, rosters, ticks, lates) && k < |ticks|
    requires MayHaveJoinsInFlight(states[0], rosters[0], since) && since + 400 <= ticks[k]
    ensures AllSeated(states[k + 1], rosters[k + 1])
    ensures |rosters[k + 1]| == |rosters[k]|
    ensures forall i :: 0 <= i < |rosters[k]| ==> SeatAfterRound(states[k + 1], rosters[k][i], rosters[k + 1][i], i)
    ensures k + 1 < |ticks| ==>
      states[k + 2] == states[k + 1].(bots := Landed(states[k + 1].bots)) && rosters[k + 2] == rosters[k + 1]
  {
    hide Inv, RosterAgrees, WaitingSince, Reconcile, ApplyBatch, SeatAfterRound, AllSeated, AllOwnJoins, NoJoinInFlight;
    RoundsKeepWaiting(room, states, rosters, ticks, lates, since, k);
    assert IsRound(room, states[k], rosters[k], ticks[k], lates[k], states[k + 1], rosters[k + 1]);
    BudgetEndsTheWait(states[k], rosters[k], since, ticks[k]);
    LateJoinsAddNothing(room, states[k], rosters[k], ticks[k], lates[k]);
    RoundSeatsEveryBot(room, states[k], rosters[k], ticks[k]);
    if k + 1 < |ticks| {
      RoundsKeepWaiting(room, states, rosters, ticks, lates, since, k + 1);
      assert IsRound(room, states[k + 1], rosters[k + 1], ticks[k + 1], lates[k + 1], states[k + 2], rosters[k + 2]);
      SeatedMeansNoneInFlight(states[k + 1], rosters[k + 1], ticks[k + 1]);
      LateJoinsAddNothing(room, states[k + 1], rosters[k + 1], ticks[k + 1], lates[k + 1]);
      RoundIsFollowedByQuiet(room, states[k], rosters[k], ticks[k], ticks[k + 1]);
      assert Issued(states[k + 1], states[k + 2]) == [];
      NothingChangesNothing(rosters[k + 1]);
    }
  }

  lemma SeatedMeansNoneInFlight(st: ReconcilerState, seats: SeatRoster, observed: nat)
    requires AllSeated(st, seats)
    ensures NoJoinInFlight(st, seats, observed)
  {
  }

  lemma NothingChangesNothing(seats: SeatRoster)
    ensures ApplyBatch(seats, []) == seats
  {
  }
}
