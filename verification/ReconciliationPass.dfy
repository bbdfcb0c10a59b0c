/** What every single reconciliation pass keeps and establishes. */
module ReconciliationPass {
  import opened Wrappers
  import opened AscendingKeys
  import opened SeatRosters
  import opened CommandSinks
  import opened ControllerHosts
  import opened Reconciliation

  // ---------------------------------------------------------------- the invariant between passes

  ghost predicate DistinctSeats(bots: map<ControllerId, HostedBot>) {
    forall c, d :: c in bots && d in bots && c != d ==> bots[c].seatIndex != bots[d].seatIndex
  }

  ghost predicate NoFailedSeatIsHosted(st: ReconcilerState) {
    forall c :: c in st.bots ==> st.bots[c].seatIndex !in st.failed
  }

  /** Every hosted bot is one host entry and one open session; no seat is served twice. */
  ghost predicate Inv(st: ReconcilerState) {
    && ValidSink(st.sink) && ValidHost(st.hosted)
    && Ids(st.hosted) == st.bots.Keys
    && st.bots.Keys <= st.sink.directory.Keys
    && DistinctSeats(st.bots) && NoFailedSeatIsHosted(st)
  }

  /** The sessions that are not this reconciler's bots. */
  ghost function ForeignSessions(st: ReconcilerState): map<ControllerId, Presentation> {
    st.sink.directory - st.bots.Keys
  }

  // ---------------------------------------------------------------- retirement

  /** What becomes of a bot in a room in use, and the reason it is retired for: by the seat it was made for,
      who is shown in it, and how long ago its join was handed over. */
  lemma FateIsExact(c: ControllerId, bot: HostedBot, seats: SeatRoster, observed: nat)
    ensures var fate, i, submitted := FateOf(c, bot, seats, observed), bot.seatIndex, bot.joinSubmittedAt;
      var npc := i < |seats| && seats[i].NpcSeat?;
      var declared := npc && NpcDeclaration(seats[i].kind, seats[i].profileName) == bot.declaration;
      var shown := declared && seats[i].bot == Some(c);
      var waits := submitted.Some? && observed < submitted.value + 400;
      && (fate == Seated <==> shown)
      && (fate == JoinInFlight <==> declared && !shown && waits)
      && (fate == Retired(DeclarationChanged) <==> npc && !declared)
      && (fate == Retired(JoinRefused) <==> declared && !shown && submitted.Some? && !waits)
      && (fate == Retired(SeatLost) <==> !npc || (declared && !shown && submitted.None?))
  {
  }

  ghost predicate Retires(bots: map<ControllerId, HostedBot>, c: ControllerId, seats: SeatRoster, observed: nat,
                          abandoned: bool)
  {
    c in bots && PassFate(c, bots[c], seats, observed, abandoned).Retired?
  }

  /** The leaves a walk enqueues, in walk order. */
  ghost function LeavesOf(bots: map<ControllerId, HostedBot>, order: seq<ControllerId>, seats: SeatRoster,
                          observed: nat, abandoned: bool): seq<LobbyCommand>
    decreases |order|
  {
    if order == [] then []
    else (if Retires(bots, order[0], seats, observed, abandoned) then [LeaveCommand(order[0])] else []) +
         LeavesOf(bots, order[1..], seats, observed, abandoned)
  }

  ghost predicate WalkInv(w: Walk) {
    ValidSink(w.sink) && ValidHost(w.hosted) && Ids(w.hosted) == w.bots.Keys && w.bots.Keys <= w.sink.directory.Keys
  }

  lemma SettleOneKeeps(w: Walk, c: ControllerId, seats: SeatRoster, observed: nat, abandoned: bool)
    requires WalkInv(w) && c in w.bots
    ensures var w' := SettleOne(w, c, seats, observed, abandoned);
      var gone := if Retires(w.bots, c, seats, observed, abandoned) then {c} else {};
      && WalkInv(w')
      && w'.bots.Keys == w.bots.Keys - gone
      && w'.sink.directory == w.sink.directory - gone
      && w'.sink.nextControllerId == w.sink.nextControllerId
      && w'.sink.submitted == w.sink.submitted + if gone == {} then [] else [LeaveCommand(c)]
  {
    CloseIsExact(w.sink, c);
    RemoveIsExact(w.hosted, c);
    assert w.sink.directory - {} == w.sink.directory;
  }

  ghost function Fated(c: ControllerId, bot: HostedBot, order: seq<ControllerId>, seats: SeatRoster, observed: nat,
                       abandoned: bool): HostedBot
  {
    if c in order then Settle(bot, PassFate(c, bot, seats, observed, abandoned)) else bot
  }

  ghost predicate Walkable(w: Walk, order: seq<ControllerId>) {
    StrictlyAscending(order) && forall c :: c in order ==> c in w.bots
  }

  lemma RestIsUntouched(w: Walk, order: seq<ControllerId>, seats: SeatRoster, observed: nat, abandoned: bool)
    requires Walkable(w, order) && order != []
    ensures var next := SettleOne(w, order[0], seats, observed, abandoned);
      && Walkable(next, order[1..])
      && (forall d :: d in w.bots && d != order[0] ==> d in next.bots && next.bots[d] == w.bots[d])
      && order[0] !in order[1..]
  {
  }

  lemma {:induction false} WalkAt(w: Walk, order: seq<ControllerId>, seats: SeatRoster, observed: nat, abandoned: bool,
                                  k: ControllerId)
    requires Walkable(w, order)
    ensures var after := SettleInOrder(w, order, seats, observed, abandoned).bots;
      && (k in after <==> k in w.bots && !(k in order && Retires(w.bots, k, seats, observed, abandoned)))
      && (k in after ==> after[k] == Fated(k, w.bots[k], order, seats, observed, abandoned))
    decreases |order|
  {
    if order != [] {
      RestIsUntouched(w, order, seats, observed, abandoned);
      assert order == [order[0]] + order[1..];
      WalkAt(SettleOne(w, order[0], seats, observed, abandoned), order[1..], seats, observed, abandoned, k);
    }
  }

  lemma {:induction false} WalkDirectoryAt(w: Walk, order: seq<ControllerId>, seats: SeatRoster, observed: nat,
                                           abandoned: bool, k: ControllerId)
    requires WalkInv(w) && Walkable(w, order)
    ensures var after := SettleInOrder(w, order, seats, observed, abandoned).sink.directory;
      && (k in after <==> k in w.sink.directory && !(k in order && Retires(w.bots, k, seats, observed, abandoned)))
      && (k in after ==> after[k] == w.sink.directory[k])
    decreases |order|
  {
    hide ValidSink, ValidHost, Ids, CloseSession, Remove, SettleOne;
    if order != [] {
      RestIsUntouched(w, order, seats, observed, abandoned);
      SettleOneKeeps(w, order[0], seats, observed, abandoned);
      assert order == [order[0]] + order[1..];
      WalkDirectoryAt(SettleOne(w, order[0], seats, observed, abandoned), order[1..], seats, observed, abandoned, k);
    }
  }

  lemma {:induction false} WalkSink(w: Walk, order: seq<ControllerId>, seats: SeatRoster, observed: nat,
                                    abandoned: bool)
    requires WalkInv(w) && Walkable(w, order)
    ensures var after := SettleInOrder(w, order, seats, observed, abandoned);
      && WalkInv(after)
      && after.sink.nextControllerId == w.sink.nextControllerId
      && after.sink.submitted == w.sink.submitted + LeavesOf(w.bots, order, seats, observed, abandoned)
    decreases |order|
  {
    hide ValidSink, ValidHost, Ids, CloseSession, Remove, SettleOne, Retires;
    if order != [] {
      var next := SettleOne(w, order[0], seats, observed, abandoned);
      RestIsUntouched(w, order, seats, observed, abandoned);
      SettleOneKeeps(w, order[0], seats, observed, abandoned);
      WalkSink(next, order[1..], seats, observed, abandoned);
      SameLeaves(w.bots, next.bots, order[1..], seats, observed, abandoned);
    }
  }

  lemma {:induction false} SameLeaves(a: map<ControllerId, HostedBot>, b: map<ControllerId, HostedBot>,
                                      order: seq<ControllerId>, seats: SeatRoster, observed: nat, abandoned: bool)
    requires forall c :: c in order ==> c in a && c in b && a[c] == b[c]
    ensures LeavesOf(a, order, seats, observed, abandoned) == LeavesOf(b, order, seats, observed, abandoned)
    decreases |order|
  {
    if order != [] {
      assert forall c :: c in order[1..] ==> c in order;
      SameLeaves(a, b, order[1..], seats, observed, abandoned);
    }
  }

  lemma RetireWalk(st: ReconcilerState, seats: SeatRoster, observed: nat, abandoned: bool)
    requires Inv(st)
    ensures var st' := Retire(st, seats, observed, abandoned);
      && WalkInv(Walk(st'.bots, st'.sink, st'.hosted))
      && st'.bots == SurvivingBots(st.bots, seats, observed, abandoned)
      && st'.sink.nextControllerId == st.sink.nextControllerId
      && st'.sink.submitted ==
         st.sink.submitted + LeavesOf(st.bots, Ascending(st.bots.Keys), seats, observed, abandoned)
      && (forall k :: k in st'.sink.directory <==>
            k in st.sink.directory && !Retires(st.bots, k, seats, observed, abandoned))
      && (forall k :: k in st'.sink.directory ==> st'.sink.directory[k] == st.sink.directory[k])
      && st'.failed == RememberedFailures(st.failed, seats)
  {
    hide SettleInOrder, LeavesOf, ValidSink, ValidHost, Ids, Ascending, StrictlyAscending;
    var order := Ascending(st.bots.Keys);
    AscendingIsAscending(st.bots.Keys);
    var w := Walk(st.bots, st.sink, st.hosted);
    var st' := Retire(st, seats, observed, abandoned);
    WalkSink(w, order, seats, observed, abandoned);
    forall k ensures k in st'.bots <==> k in st.bots && !Retires(st.bots, k, seats, observed, abandoned)
      ensures k in st'.bots ==> st'.bots[k] == Settle(st.bots[k], PassFate(k, st.bots[k], seats, observed, abandoned))
    {
      WalkAt(w, order, seats, observed, abandoned, k);
    }
    forall k
      ensures k in st'.sink.directory <==> k in st.sink.directory && !Retires(st.bots, k, seats, observed, abandoned)
      ensures k in st'.sink.directory ==> st'.sink.directory[k] == st.sink.directory[k]
    {
      WalkDirectoryAt(w, order, seats, observed, abandoned, k);
    }
    assert st'.bots == SurvivingBots(st.bots, seats, observed, abandoned);
  }

  /** Retirement keeps exactly the bots whose fate is not to go, closes exactly the others' sessions,
      and issues their leaves in ascending identity order. */
  lemma RetireIsExact(st: ReconcilerState, seats: SeatRoster, observed: nat, abandoned: bool)
    requires Inv(st)
    ensures var st' := Retire(st, seats, observed, abandoned);
      && Inv(st')
      && st'.bots == SurvivingBots(st.bots, seats, observed, abandoned)
      && st'.failed == RememberedFailures(st.failed, seats)
      && ForeignSessions(st') == ForeignSessions(st)
      && st'.sink.nextControllerId == st.sink.nextControllerId
      && st'.sink.submitted ==
         st.sink.submitted + LeavesOf(st.bots, Ascending(st.bots.Keys), seats, observed, abandoned)
      && (forall c :: c in st.bots && c !in st'.bots ==> c !in st'.sink.directory)
  {
    hide SettleInOrder, LeavesOf, ValidSink, ValidHost, Ids, Ascending, Retire;
    RetireWalk(st, seats, observed, abandoned);
    var st' := Retire(st, seats, observed, abandoned);
    assert ForeignSessions(st') == ForeignSessions(st);
    forall c | c in st'.bots ensures st'.bots[c].seatIndex !in st'.failed {
      assert st'.bots[c].seatIndex == st.bots[c].seatIndex;
    }
  }

  // ---------------------------------------------------------------- creation

  /** When an attempt at a bot succeeds, in terms of what can be read before it is made. */
  ghost predicate CreationSucceeds(room: Room, st: ReconcilerState, d: NpcDeclaration, seat: nat) {
    && ProfileKnown(room, d) && RegistryAdmits(room, d, seat)
    && ValidControllerKind(d.kind) && ValidDisplayName(DisplayName(d.kind, NextOrdinal(st.ordinals, d.kind)))
    && st.sink.nextControllerId <= MAXIMUM_CONTROLLER_ID
    && |st.sink.directory| < MAXIMUM_DIRECTORY_ENTRY_COUNT
  }

  /** Hosted controllers are open sessions, so a directory with room implies a host with room. */
  lemma HostNeverFillsFirst(st: ReconcilerState)
    requires Inv(st)
    ensures |st.hosted| <= |st.sink.directory|
  {
    HostedCount(st.hosted);
    CardinalityOfSubset(Ids(st.hosted), st.sink.directory.Keys);
    assert |st.sink.directory| == |st.sink.directory.Keys|;
  }

  lemma {:induction false} HostedCount(s: Hosted)
    requires ValidHost(s)
    ensures |Ids(s)| == |s|
  {
    if s != [] {
      var front := s[..|s| - 1];
      HostedCount(front);
      assert Ids(s) == Ids(front) + {s[|s| - 1].controller} by {
        forall c | c in Ids(s) ensures c in Ids(front) + {s[|s| - 1].controller} {
          var i :| 0 <= i < |s| && s[i].controller == c;
          if i < |front| { assert front[i].controller == c; }
        }
        assert forall i :: 0 <= i < |front| ==> front[i] == s[i];
      }
      assert s[|s| - 1].controller !in Ids(front);
    }
  }

  ghost predicate NoBotAt(bots: map<ControllerId, HostedBot>, seat: nat) {
    forall c :: c in bots ==> bots[c].seatIndex != seat
  }

  ghost predicate Created(st: ReconcilerState, st': ReconcilerState, d: NpcDeclaration, seat: nat, observed: nat) {
    var c := st.sink.nextControllerId;
    && c !in st.bots && st'.bots == st.bots[c := HostedBot(d, seat, Some(observed))]
    && st'.failed == st.failed - {seat}
    && st'.sink.nextControllerId == c + 1
    && st'.sink.submitted == st.sink.submitted +
      if seat < MAXIMUM_LOBBY_SEAT_COUNT then [JoinCommand(c, seat, d)] else []
  }

  /** A failed attempt leaves no session, no host entry and no bot, and is remembered for the seat. */
  ghost predicate Refused(st: ReconcilerState, st': ReconcilerState, d: NpcDeclaration, seat: nat) {
    && st'.bots == st.bots && st'.hosted == st.hosted && st'.failed == st.failed[seat := d]
    && st'.sink.directory == st.sink.directory
    && st.sink.nextControllerId <= st'.sink.nextControllerId <= st.sink.nextControllerId + 1
    && (|| st'.sink.submitted == st.sink.submitted
        || (&& st'.sink.submitted == st.sink.submitted + [LeaveCommand(st.sink.nextControllerId)]
            && st'.sink.nextControllerId == st.sink.nextControllerId + 1))
  }

  /** An attempt succeeds exactly when the declaration and the sink allow it; then the seat gets one
      new bot with a fresh identity and an outstanding join. A failed attempt leaves the bots, the
      host, the directory and every other session as they were. */
  lemma CreationIsExact(room: Room, st: ReconcilerState, d: NpcDeclaration, seat: nat, observed: nat)
    requires Inv(st)
    ensures var st' := CreateBot(room, st, d, seat, observed);
      && Consistent(st')
      && ForeignSessions(st') == ForeignSessions(st)
      && if CreationSucceeds(room, st, d, seat) then Created(st, st', d, seat, observed) else Refused(st, st', d, seat)
  {
    hide ValidSink, ValidHost, Ids, RegistryAdmits, DisplayName, Consistent, Created, Refused, OpenSession;
    HostNeverFillsFirst(st);
    SameSize(st.sink);
    if CreationSucceeds(room, st, d, seat) {
      CreatedPath(room, st, d, seat, observed);
    } else {
      RefusedPath(room, st, d, seat, observed);
    }
  }

  ghost predicate Consistent(st: ReconcilerState) {
    && ValidSink(st.sink) && ValidHost(st.hosted) && Ids(st.hosted) == st.bots.Keys
    && st.bots.Keys <= st.sink.directory.Keys
  }

  lemma CreatedPath(room: Room, st: ReconcilerState, d: NpcDeclaration, seat: nat, observed: nat)
    requires Inv(st) && CreationSucceeds(room, st, d, seat)
    ensures var st' := CreateBot(room, st, d, seat, observed);
      Consistent(st') && ForeignSessions(st') == ForeignSessions(st) && Created(st, st', d, seat, observed)
  {
    hide ValidSink, ValidHost, Ids, CreateBot, OpenSession, Add, BoundedPrintable, Consistent, Created, ForeignSessions,
      Submit, DistinctSeats, NoFailedSeatIsHosted;
    var c := st.sink.nextControllerId;
    var name := DisplayName(d.kind, NextOrdinal(st.ordinals, d.kind));
    SessionOpens(st.sink, d.kind, name);
    HostNeverFillsFirst(st);
    SameSize(st.sink);
    AddIsExact(st.hosted, HostedController(c, d.kind));
    CreatedValue(room, st, d, seat, observed);
    var sink := OpenSession(st.sink, d.kind, name).0;
    SubmitKeepsValid(sink, c, JoinCommand(c, seat, d));
    BotJoinIsAccepted(sink, c, seat, d);
    CreatedPieces(st, CreateBot(room, st, d, seat, observed), Presentation(d.kind, name), d, seat, observed);
  }

  lemma BotJoinIsAccepted(s: SinkState, c: ControllerId, seat: nat, d: NpcDeclaration)
    requires c in s.directory && d.kind != ""
    ensures Submit(s, c, JoinCommand(c, seat, d)).0 == s.(submitted := s.submitted +
                                                          if seat < MAXIMUM_LOBBY_SEAT_COUNT
                                                          then [JoinCommand(c, seat, d)] else [])
  {
    assert s.submitted + [] == s.submitted;
  }

  lemma CreatedPieces(st: ReconcilerState, st': ReconcilerState, presentation: Presentation, d: NpcDeclaration,
                      seat: nat, observed: nat)
    requires var c := st.sink.nextControllerId;
      && Ids(st.hosted) == st.bots.Keys && st.bots.Keys <= st.sink.directory.Keys && c !in st.sink.directory
      && st'.bots == st.bots[c := HostedBot(d, seat, Some(observed))] && st'.failed == st.failed - {seat}
      && ValidSink(st'.sink) && st'.sink.directory == st.sink.directory[c := presentation]
      && st'.sink.nextControllerId == c + 1
      && st'.sink.submitted ==
         st.sink.submitted + (if seat < MAXIMUM_LOBBY_SEAT_COUNT then [JoinCommand(c, seat, d)] else [])
      && ValidHost(st'.hosted) && Ids(st'.hosted) == Ids(st.hosted) + {c}
    ensures Consistent(st') && ForeignSessions(st') == ForeignSessions(st) && Created(st, st', d, seat, observed)
  {
    hide ValidSink, ValidHost, Ids;
    var c := st.sink.nextControllerId;
    NewBotIsNotForeign(st.sink.directory, st.bots, c, presentation, HostedBot(d, seat, Some(observed)));
  }

  lemma SessionOpens(s: SinkState, kind: string, name: string)
    requires ValidSink(s) && ValidControllerKind(kind) && ValidDisplayName(name)
    requires s.nextControllerId <= MAXIMUM_CONTROLLER_ID && |s.directory| < MAXIMUM_DIRECTORY_ENTRY_COUNT
    ensures var (s', r) := OpenSession(s, kind, name);
      && ValidSink(s') && r == Success(s.nextControllerId)
      && s' == SinkState(s.nextControllerId + 1, s.directory[s.nextControllerId := Presentation(kind, name)],
                         s.exchanges + {s.nextControllerId}, s.submitted)
  {
    hide BoundedPrintable;
    OpenIsExact(s, kind, name);
    SameSize(s);
  }

  lemma CreatedValue(room: Room, st: ReconcilerState, d: NpcDeclaration, seat: nat, observed: nat)
    requires var c := st.sink.nextControllerId;
      && ProfileKnown(room, d) && RegistryAdmits(room, d, seat)
      && OpenSession(st.sink, d.kind, DisplayName(d.kind, NextOrdinal(st.ordinals, d.kind))).1 == Success(c)
      && Add(st.hosted, HostedController(c, d.kind)).Success?
    ensures var c := st.sink.nextControllerId;
      CreateBot(room, st, d, seat, observed) == ReconcilerState(
        st.bots[c := HostedBot(d, seat, Some(observed))],
        st.ordinals[d.kind := NextOrdinal(st.ordinals, d.kind)],
        st.failed - {seat},
        Submit(OpenSession(st.sink, d.kind, DisplayName(d.kind, NextOrdinal(st.ordinals, d.kind))).0, c,
               JoinCommand(c, seat, d)).0,
        Add(st.hosted, HostedController(c, d.kind)).value)
  {
    hide OpenSession, Add, Submit, RegistryAdmits, ProfileKnown;
  }

  lemma NewBotIsNotForeign(directory: map<ControllerId, Presentation>, bots: map<ControllerId, HostedBot>,
                           c: ControllerId, presentation: Presentation, bot: HostedBot)
    requires c !in directory && bots.Keys <= directory.Keys
    ensures c !in bots && bots[c := bot].Keys == bots.Keys + {c}
    ensures bots[c := bot].Keys <= directory[c := presentation].Keys
    ensures directory[c := presentation] - bots[c := bot].Keys == directory - bots.Keys
  {
    assert bots[c := bot].Keys == bots.Keys + {c};
  }

  lemma RefusedPath(room: Room, st: ReconcilerState, d: NpcDeclaration, seat: nat, observed: nat)
    requires Inv(st) && !CreationSucceeds(room, st, d, seat)
    ensures var st' := CreateBot(room, st, d, seat, observed);
      Consistent(st') && ForeignSessions(st') == ForeignSessions(st) && Refused(st, st', d, seat)
  {
    hide ValidSink, ValidHost, Ids, RegistryAdmits, DisplayName, NextOrdinal, Add, CloseSession, OpenSession,
      Consistent, ForeignSessions,
      DistinctSeats, NoFailedSeatIsHosted;
    var name := DisplayName(d.kind, NextOrdinal(st.ordinals, d.kind));
    var (sink, session) := OpenSession(st.sink, d.kind, name);
    OpenIsExact(st.sink, d.kind, name);
    SameSize(st.sink);
    if ProfileKnown(room, d) && session.Success? {
      OpenNeedsRoom(st.sink, d.kind, name);
      CloseIsExact(sink, session.value);
      InsertedIsErased(st.sink.directory, session.value, Presentation(d.kind, name));
    }
    var st' := CreateBot(room, st, d, seat, observed);
    assert ValidSink(st'.sink);
    assert Refused(st, st', d, seat);
    RefusedPieces(st, st', d, seat);
  }

  lemma OpenNeedsRoom(s: SinkState, kind: string, name: string)
    requires OpenSession(s, kind, name).1.Success?
    ensures ValidControllerKind(kind) && ValidDisplayName(name)
    ensures s.nextControllerId <= MAXIMUM_CONTROLLER_ID && |s.directory| < MAXIMUM_DIRECTORY_ENTRY_COUNT
  {
    hide ValidControllerKind, ValidDisplayName;
  }

  lemma InsertedIsErased(m: map<ControllerId, Presentation>, k: ControllerId, v: Presentation)
    requires k !in m
    ensures m[k := v] - {k} == m && k in m[k := v]
  {
  }

  lemma RefusedPieces(st: ReconcilerState, st': ReconcilerState, d: NpcDeclaration, seat: nat)
    requires ValidHost(st.hosted) && Ids(st.hosted) == st.bots.Keys && st.bots.Keys <= st.sink.directory.Keys
    requires Refused(st, st', d, seat) && ValidSink(st'.sink)
    ensures Consistent(st') && ForeignSessions(st') == ForeignSessions(st)
  {
    hide ValidSink, ValidHost, Ids;
  }

  lemma SameSize(s: SinkState)
    requires ValidSink(s)
    ensures |s.directory| == |s.exchanges|
    ensures s.nextControllerId !in s.directory && s.nextControllerId !in s.exchanges
  {
    assert |s.directory| == |s.directory.Keys|;
  }

  lemma SubmitKeepsValid(s: SinkState, c: ControllerId, join: LobbyCommand)
    requires ValidSink(s) && join.JoinCommand?
    ensures ValidSink(Submit(s, c, join).0)
  {
  }

  // ---------------------------------------------------------------- filling the seats

  /** A bot the roster still accounts for: its seat declares it, and either holds it or may still. */
  ghost predicate Tracked(c: ControllerId, bot: HostedBot, seats: SeatRoster, observed: nat) {
    && SameDeclaration(seats, bot.seatIndex, bot.declaration)
    && if seats[bot.seatIndex].bot == Some(c) then bot.joinSubmittedAt.None?
       else bot.joinSubmittedAt.Some? && observed < bot.joinSubmittedAt.value + 400
  }

  ghost predicate AllTracked(st: ReconcilerState, seats: SeatRoster, observed: nat) {
    && (forall c :: c in st.bots ==> Tracked(c, st.bots[c], seats, observed))
    && (forall i :: i in st.failed ==> SameDeclaration(seats, i, st.failed[i]))
  }

  ghost predicate InFlightFor(bots: map<ControllerId, HostedBot>, seat: nat, d: NpcDeclaration) {
    exists c :: c in bots && bots[c].seatIndex == seat && bots[c].declaration == d && bots[c].joinSubmittedAt.Some?
  }

  /** An unfilled NPC seat is served by exactly one of an in-flight bot of exactly its declaration or
      a failure record of exactly its declaration; any other seat has no failure record. */
  ghost predicate SeatServed(st: ReconcilerState, seats: SeatRoster, seat: nat)
    requires seat < |seats|
  {
    if Unfilled(seats[seat]) then
      var d := seats[seat].Declaration();
      InFlightFor(st.bots, seat, d) != (seat in st.failed && st.failed[seat] == d)
    else seat !in st.failed
  }

  ghost predicate SeatsServed(st: ReconcilerState, seats: SeatRoster, count: nat)
    requires count <= |seats|
  {
    forall i :: 0 <= i < count ==> SeatServed(st, seats, i)
  }

  lemma FillSeatKeeps(room: Room, st: ReconcilerState, seats: SeatRoster, seat: nat, observed: nat)
    requires Inv(st) && AllTracked(st, seats, observed) && seat < |seats|
    ensures var st' := FillSeat(room, st, seats, seat, observed);
      && Inv(st') && AllTracked(st', seats, observed) && ForeignSessions(st') == ForeignSessions(st)
      && SeatServed(st', seats, seat)
      && (forall i :: 0 <= i < |seats| && i != seat && SeatServed(st, seats, i) ==> SeatServed(st', seats, i))
      && (forall c :: c in st.bots ==> c in st'.bots && st'.bots[c] == st.bots[c])
      && st.sink.nextControllerId <= st'.sink.nextControllerId
  {
    hide ValidSink, ValidHost, Ids, CreateBot, ForeignSessions, CreationSucceeds;
    var st' := FillSeat(room, st, seats, seat, observed);
    if Unfilled(seats[seat]) {
      var d := seats[seat].Declaration();
      assert forall c :: c in st.bots && st.bots[c].seatIndex == seat ==> st.bots[c].joinSubmittedAt.Some?;
      if !(seat in st.failed && st.failed[seat] == d) && !JoinPendingAt(st.bots, seat) {
        assert NoBotAt(st.bots, seat);
        CreationIsExact(room, st, d, seat, observed);
        CreatedBotServes(room, st, seats, seat, observed);
      } else if JoinPendingAt(st.bots, seat) {
        var c :| c in st.bots && st.bots[c].seatIndex == seat && st.bots[c].joinSubmittedAt.Some?;
        assert Tracked(c, st.bots[c], seats, observed);
        assert InFlightFor(st.bots, seat, d);
      }
    } else {
      OnlyFailuresChange(st, seat);
    }
  }

  lemma OnlyFailuresChange(st: ReconcilerState, seat: nat)
    ensures ForeignSessions(st.(failed := st.failed - {seat})) == ForeignSessions(st)
  {
  }

  lemma CreatedBotServes(room: Room, st: ReconcilerState, seats: SeatRoster, seat: nat, observed: nat)
    requires Inv(st) && AllTracked(st, seats, observed) && seat < |seats| && Unfilled(seats[seat])
    requires NoBotAt(st.bots, seat)
    ensures var d := seats[seat].Declaration();
      var st' := CreateBot(room, st, d, seat, observed);
      && Inv(st') && AllTracked(st', seats, observed) && SeatServed(st', seats, seat)
      && (forall i :: 0 <= i < |seats| && i != seat && SeatServed(st, seats, i) ==> SeatServed(st', seats, i))
      && (forall c :: c in st.bots ==> c in st'.bots && st'.bots[c] == st.bots[c])
  {
    hide ValidSink, ValidHost, Ids, CreateBot, ForeignSessions, CreationSucceeds, SeatServed, Consistent;
    var d := seats[seat].Declaration();
    var st' := CreateBot(room, st, d, seat, observed);
    CreationIsExact(room, st, d, seat, observed);
    SameSize(st.sink);
    OtherSeatsKeepService(st, st', seats, seat, observed, st.sink.nextControllerId);
    SeatGetsService(st, st', seats, seat, observed);
    NewBotIsTracked(st, st', seats, seat, observed);
  }

  lemma NewBotIsTracked(st: ReconcilerState, st': ReconcilerState, seats: SeatRoster, seat: nat, observed: nat)
    requires Inv(st) && Consistent(st') && AllTracked(st, seats, observed) && seat < |seats| && Unfilled(seats[seat])
    requires NoBotAt(st.bots, seat)
    requires var d := seats[seat].Declaration(); Created(st, st', d, seat, observed) || Refused(st, st', d, seat)
    ensures Inv(st') && AllTracked(st', seats, observed)
  {
    hide ValidSink, ValidHost, Ids;
  }

  lemma SeatGetsService(st: ReconcilerState, st': ReconcilerState, seats: SeatRoster, seat: nat, observed: nat)
    requires seat < |seats| && Unfilled(seats[seat]) && NoBotAt(st.bots, seat)
    requires var d := seats[seat].Declaration(); Created(st, st', d, seat, observed) || Refused(st, st', d, seat)
    ensures SeatServed(st', seats, seat)
  {
    var d := seats[seat].Declaration();
    if Created(st, st', d, seat, observed) {
      var c := st.sink.nextControllerId;
      assert c in st'.bots && st'.bots[c].seatIndex == seat;
      assert InFlightFor(st'.bots, seat, d);
    } else {
      assert !InFlightFor(st'.bots, seat, d);
    }
  }

  lemma OtherSeatsKeepService(st: ReconcilerState, st': ReconcilerState, seats: SeatRoster, seat: nat, observed: nat,
                              c: ControllerId)
    requires seat < |seats| && Unfilled(seats[seat]) && c == st.sink.nextControllerId && c !in st.bots
    requires var d := seats[seat].Declaration(); Created(st, st', d, seat, observed) || Refused(st, st', d, seat)
    ensures forall i :: 0 <= i < |seats| && i != seat && SeatServed(st, seats, i) ==> SeatServed(st', seats, i)
  {
    forall i | 0 <= i < |seats| && i != seat && SeatServed(st, seats, i) ensures SeatServed(st', seats, i) {
      if Unfilled(seats[i]) {
        InFlightElsewhere(st.bots, st'.bots, c, seat, i, seats[i].Declaration());
      }
    }
  }

  lemma InFlightElsewhere(bots: map<ControllerId, HostedBot>, bots': map<ControllerId, HostedBot>, c: ControllerId,
                          seat: nat, other: nat, d: NpcDeclaration)
    requires other != seat && c !in bots
    requires forall k :: k in bots ==> k in bots' && bots'[k] == bots[k]
    requires forall k :: k in bots' && k !in bots ==> k == c && bots'[k].seatIndex == seat
    ensures InFlightFor(bots', other, d) <==> InFlightFor(bots, other, d)
  {
    if InFlightFor(bots, other, d) {
      var k :| k in bots && bots[k].seatIndex == other && bots[k].declaration == d && bots[k].joinSubmittedAt.Some?;
      assert k in bots' && bots'[k].seatIndex == other && bots'[k].declaration == d && bots'[k].joinSubmittedAt.Some?;
    }
  }

  // ---------------------------------------------------------------- whole passes

  lemma {:induction false} FillSeatsKeep(room: Room, st: ReconcilerState, seats: SeatRoster, count: nat, observed: nat)
    requires Inv(st) && AllTracked(st, seats, observed) && count <= |seats|
    ensures var st' := FillSeats(room, st, seats, count, observed);
      && Inv(st') && AllTracked(st', seats, observed) && ForeignSessions(st') == ForeignSessions(st)
      && SeatsServed(st', seats, count)
      && (forall c :: c in st.bots ==> c in st'.bots && st'.bots[c] == st.bots[c])
      && st.sink.nextControllerId <= st'.sink.nextControllerId
  {
    hide Inv, AllTracked, ForeignSessions, SeatServed, FillSeat;
    if count > 0 {
      FillSeatsKeep(room, st, seats, count - 1, observed);
      FillSeatKeeps(room, FillSeats(room, st, seats, count - 1, observed), seats, count - 1, observed);
    }
  }

  lemma SurvivorsAreTracked(st: ReconcilerState, seats: SeatRoster, observed: nat)
    requires Inv(st)
    ensures AllTracked(Retire(st, seats, observed, false), seats, observed)
  {
    hide Inv, LeavesOf, Retire, ForeignSessions;
    RetireIsExact(st, seats, observed, false);
  }

  /** Every pass keeps the invariant and every session that is not one of the reconciler's own. */
  lemma PassKeeps(room: Room, st: ReconcilerState, seats: SeatRoster, observed: nat, abandoned: bool)
    requires Inv(st)
    ensures var st' := Reconcile(room, st, seats, observed, abandoned);
      Inv(st') && ForeignSessions(st') == ForeignSessions(st)
  {
    hide Inv, AllTracked, ForeignSessions, SeatServed, FillSeats, Retire;
    RetireIsExact(st, seats, observed, abandoned);
    if !abandoned {
      SurvivorsAreTracked(st, seats, observed);
      FillSeatsKeep(room, Retire(st, seats, observed, abandoned), seats, |seats|, observed);
    }
  }

  /** What a roster and its bots look like when there is nothing to do. */
  ghost predicate Quiet(st: ReconcilerState, seats: SeatRoster, observed: nat) {
    AllTracked(st, seats, observed) && SeatsServed(st, seats, |seats|)
  }

  /** After a pass over a room in use, the bots and the failure records answer the roster exactly. */
  lemma PassServesTheRoster(room: Room, st: ReconcilerState, seats: SeatRoster, observed: nat)
    requires Inv(st)
    ensures Quiet(Reconcile(room, st, seats, observed, false), seats, observed)
  {
    hide Inv, AllTracked, SeatServed, FillSeats, Retire;
    RetireIsExact(st, seats, observed, false);
    SurvivorsAreTracked(st, seats, observed);
    FillSeatsKeep(room, Retire(st, seats, observed, false), seats, |seats|, observed);
  }

  /** After a pass over an abandoned room no bot is left anywhere. */
  lemma AbandonedPassEmptiesTheRoom(room: Room, st: ReconcilerState, seats: SeatRoster, observed: nat)
    requires Inv(st)
    ensures var st' := Reconcile(room, st, seats, observed, true);
      st'.bots == map[] && st'.hosted == [] && st'.sink.directory == ForeignSessions(st)
  {
    hide Inv, Retire, ForeignSessions, LeavesOf, SurvivingBots;
    RetireIsExact(st, seats, observed, true);
    NobodySurvivesAbandonment(st.bots, seats, observed);
    NoBotsNoHosts(Retire(st, seats, observed, true));
  }

  lemma NobodySurvivesAbandonment(bots: map<ControllerId, HostedBot>, seats: SeatRoster, observed: nat)
    ensures SurvivingBots(bots, seats, observed, true) == map[]
  {
  }

  lemma NoBotsNoHosts(st: ReconcilerState)
    requires Inv(st) && st.bots == map[]
    ensures st.hosted == [] && ForeignSessions(st) == st.sink.directory
  {
    hide ValidSink;
    HostedCount(st.hosted);
    assert st.sink.directory - st.bots.Keys == st.sink.directory;
  }

  /** No room ever hosts more bots than the roster it last served has seats. */
  lemma NoMoreBotsThanSeats(room: Room, st: ReconcilerState, seats: SeatRoster, observed: nat)
    requires Inv(st)
    ensures |Reconcile(room, st, seats, observed, false).bots| <= |seats|
  {
    PassKeeps(room, st, seats, observed, false);
    PassServesTheRoster(room, st, seats, observed);
    var st' := Reconcile(room, st, seats, observed, false);
    DistinctSeatsBound(st'.bots, st'.bots.Keys, |seats|);
    assert |st'.bots| == |st'.bots.Keys|;
  }

  lemma {:induction false} DistinctSeatsBound(bots: map<ControllerId, HostedBot>, some: set<ControllerId>, n: nat)
    requires some <= bots.Keys && DistinctSeats(bots)
    requires forall c :: c in some ==> bots[c].seatIndex < n
    ensures |some| <= n
    decreases n
  {
    if n == 0 {
      assert some == {};
    } else if exists c :: c in some && bots[c].seatIndex == n - 1 {
      var c :| c in some && bots[c].seatIndex == n - 1;
      DistinctSeatsBound(bots, some - {c}, n - 1);
      assert |some| == |some - {c}| + 1;
    } else {
      DistinctSeatsBound(bots, some, n - 1);
    }
  }

  // ---------------------------------------------------------------- passes that do nothing

  lemma {:induction false} QuietWalk(w: Walk, order: seq<ControllerId>, seats: SeatRoster, observed: nat)
    requires forall c :: c in order && c in w.bots ==> Tracked(c, w.bots[c], seats, observed)
    ensures SettleInOrder(w, order, seats, observed, false) == w
    decreases |order|
  {
    if order != [] {
      if order[0] in w.bots {
        assert Tracked(order[0], w.bots[order[0]], seats, observed);
        assert w.bots[order[0] := w.bots[order[0]]] == w.bots;
      }
      assert forall c :: c in order[1..] ==> c in order;
      QuietWalk(w, order[1..], seats, observed);
    }
  }

  lemma QuietSeat(room: Room, st: ReconcilerState, seats: SeatRoster, seat: nat, observed: nat)
    requires seat < |seats| && SeatServed(st, seats, seat)
    ensures FillSeat(room, st, seats, seat, observed) == st
  {
    hide CreateBot;
    if Unfilled(seats[seat]) {
      var d := seats[seat].Declaration();
      if InFlightFor(st.bots, seat, d) {
        var c :| c in st.bots && st.bots[c].seatIndex == seat && st.bots[c].declaration == d
          && st.bots[c].joinSubmittedAt.Some?;
        assert JoinPendingAt(st.bots, seat);
      }
    } else {
      assert st.failed - {seat} == st.failed;
    }
  }

  lemma {:induction false} QuietFill(room: Room, st: ReconcilerState, seats: SeatRoster, count: nat, observed: nat)
    requires SeatsServed(st, seats, |seats|) && count <= |seats|
    ensures FillSeats(room, st, seats, count, observed) == st
  {
    hide SeatServed, FillSeat;
    if count > 0 {
      QuietFill(room, st, seats, count - 1, observed);
      QuietSeat(room, st, seats, count - 1, observed);
    }
  }

  /** A pass over a room in use changes nothing whatsoever, here or in the sink or in the host,
      exactly when the roster is already answered. */
  lemma PassIsIdentityExactlyWhenQuiet(room: Room, st: ReconcilerState, seats: SeatRoster, observed: nat)
    requires Inv(st)
    ensures Reconcile(room, st, seats, observed, false) == st <==> Quiet(st, seats, observed)
  {
    if Quiet(st, seats, observed) {
      QuietWalk(Walk(st.bots, st.sink, st.hosted), Ascending(st.bots.Keys), seats, observed);
      assert RememberedFailures(st.failed, seats) == st.failed;
      QuietFill(room, st, seats, |seats|, observed);
    }
    PassServesTheRoster(room, st, seats, observed);
  }

  /** Reconciliation is idempotent: a second pass over the same snapshot opens, closes and submits
      nothing, and leaves every map as it was. */
  lemma ReconcileIsIdempotent(room: Room, st: ReconcilerState, seats: SeatRoster, observed: nat, abandoned: bool)
    requires Inv(st)
    ensures var once := Reconcile(room, st, seats, observed, abandoned);
      Reconcile(room, once, seats, observed, abandoned) == once
  {
    hide Inv, Quiet;
    var once := Reconcile(room, st, seats, observed, abandoned);
    PassKeeps(room, st, seats, observed, abandoned);
    if abandoned {
      AbandonedPassEmptiesTheRoom(room, st, seats, observed);
      assert Ascending(once.bots.Keys) == [];
      assert RememberedFailures(once.failed, seats) == once.failed;
    } else {
      PassServesTheRoster(room, st, seats, observed);
      PassIsIdentityExactlyWhenQuiet(room, once, seats, observed);
    }
  }
}
