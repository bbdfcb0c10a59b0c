/** Reconciliation over whole runs: any snapshots, any abandonment, any other session in between. */
module ReconciliationRuns {
  import opened Wrappers
  import opened AscendingKeys
  import opened SeatRosters
  import opened CommandSinks
  import opened ControllerHosts
  import opened Reconciliation
  import opened ReconciliationPass

  /** One control poll: the published roster and tick, the control loop's verdict on the room, and the
      sink as every other session has left it. */
  datatype Poll = Poll(seats: SeatRoster, observed: nat, abandoned: bool, sink: SinkState)

  /** Other sessions may open and close their own sessions and enqueue anything. They are issued new
      identities only, and cannot close a bot's session. */
  ghost predicate OthersActed(st: ReconcilerState, sink: SinkState) {
    && ValidSink(sink) && st.sink.nextControllerId <= sink.nextControllerId
    && (forall c :: c in st.bots ==> c in sink.directory)
    && (forall c :: c in sink.directory && c !in st.sink.directory ==> st.sink.nextControllerId <= c)
  }

  ghost function AfterPoll(room: Room, st: ReconcilerState, poll: Poll): ReconcilerState {
    Reconcile(room, st.(sink := poll.sink), poll.seats, poll.observed, poll.abandoned)
  }

  ghost predicate IsRun(room: Room, states: seq<ReconcilerState>, polls: seq<Poll>) {
    && |states| == |polls| + 1
    && Inv(states[0])
    && forall i :: 0 <= i < |polls| ==>
      OthersActed(states[i], polls[i].sink) && states[i + 1] == AfterPoll(room, states[i], polls[i])
  }

  /** What a reconciler just constructed over a host of its own holds. */
  function Unused(sink: SinkState): ReconcilerState {
    ReconcilerState(map[], map[], map[], sink, [])
  }

  lemma UnusedIsConsistent(sink: SinkState)
    requires ValidSink(sink)
    ensures Inv(Unused(sink))
  {
    assert Ids([]) == {};
  }

  /** In every run, between any two passes, the invariant holds: the hosted bots are exactly the host's
      controllers and have open sessions, no two bots share a seat, no failed seat has a bot. */
  lemma {:induction false} RunKeepsInvariant(room: Room, states: seq<ReconcilerState>, polls: seq<Poll>, i: nat)
    requires IsRun(room, states, polls) && i < |states|
    ensures Inv(states[i])
  {
    hide ValidHost, Ids, Reconcile;
    if i > 0 {
      RunKeepsInvariant(room, states, polls, i - 1);
      var poll := polls[i - 1];
      assert states[i] == AfterPoll(room, states[i - 1], poll) && OthersActed(states[i - 1], poll.sink);
      PassKeeps(room, states[i - 1].(sink := poll.sink), poll.seats, poll.observed, poll.abandoned);
    }
  }

  /** Whatever rosters, ticks and verdicts a new reconciler is shown, there is a run over them. */
  lemma {:induction false} EverySnapshotSequenceIsARun(room: Room, sink: SinkState, shown: seq<(SeatRoster, nat, bool)>)
    returns (states: seq<ReconcilerState>, polls: seq<Poll>)
    requires ValidSink(sink)
    ensures IsRun(room, states, polls) && states[0] == Unused(sink) && |polls| == |shown|
    ensures forall i :: 0 <= i < |shown| ==> (polls[i].seats, polls[i].observed, polls[i].abandoned) == shown[i]
    decreases |shown|
  {
    hide ValidHost, Ids, Reconcile, ValidSink, DistinctSeats, NoFailedSeatIsHosted;
    UnusedIsConsistent(sink);
    states, polls := [Unused(sink)], [];
    if shown != [] {
      var n := |shown| - 1;
      var earlier, before := EverySnapshotSequenceIsARun(room, sink, shown[..n]);
      RunKeepsInvariant(room, earlier, before, n);
      var poll := Poll(shown[n].0, shown[n].1, shown[n].2, earlier[n].sink);
      states, polls := earlier + [AfterPoll(room, earlier[n], poll)], before + [poll];
      assert forall i :: 0 <= i < n ==> polls[i] == before[i] && shown[..n][i] == shown[i];
      assert forall i :: 0 <= i <= n ==> states[i] == earlier[i];
    }
  }

  /** No pass of any run touches a session that is not a bot's: what the others hold before a poll
      they hold after it, whatever failed in between. */
  lemma RunLeaksNoSession(room: Room, states: seq<ReconcilerState>, polls: seq<Poll>, i: nat)
    requires IsRun(room, states, polls) && i < |polls|
    ensures states[i + 1].sink.directory - states[i + 1].bots.Keys == polls[i].sink.directory - states[i].bots.Keys
    ensures states[i + 1].bots.Keys <= states[i + 1].sink.directory.Keys
    ensures Ids(states[i + 1].hosted) == states[i + 1].bots.Keys
  {
    hide ValidHost, Ids, Reconcile;
    RunKeepsInvariant(room, states, polls, i);
    RunKeepsInvariant(room, states, polls, i + 1);
    var poll := polls[i];
    assert states[i + 1] == AfterPoll(room, states[i], poll) && OthersActed(states[i], poll.sink);
    PassKeeps(room, states[i].(sink := poll.sink), poll.seats, poll.observed, poll.abandoned);
  }

  // ---------------------------------------------------------------- the join budget

  /** Pass `i` of the run created bot `c` for this seat. */
  ghost predicate CreatedAt(states: seq<ReconcilerState>, i: nat, seat: nat, c: ControllerId)
    requires i + 1 < |states|
  {
    c !in states[i].bots && c in states[i + 1].bots && states[i + 1].bots[c].seatIndex == seat
  }

  /** A bot whose seat still declares it and whose join is inside its budget outlives the pass. */
  lemma InFlightBotSurvives(room: Room, st: ReconcilerState, seats: SeatRoster, observed: nat, c: ControllerId)
    requires Inv(st) && c in st.bots && FateOf(c, st.bots[c], seats, observed).JoinInFlight?
    ensures var st' := Reconcile(room, st, seats, observed, false);
      c in st'.bots && st'.bots[c] == st.bots[c]
  {
    hide Inv, AllTracked, ForeignSessions, SeatServed, FillSeats, Retire, LeavesOf;
    RetireIsExact(st, seats, observed, false);
    SurvivorsAreTracked(st, seats, observed);
    FillSeatsKeep(room, Retire(st, seats, observed, false), seats, |seats|, observed);
  }

  /** A bot a pass creates was given its seat's current declaration and a join dated by that pass. */
  lemma NewBotIsDated(room: Room, st: ReconcilerState, seats: SeatRoster, observed: nat, abandoned: bool,
                      c: ControllerId)
    requires Inv(st)
    requires c !in st.bots && c in Reconcile(room, st, seats, observed, abandoned).bots
    ensures var bot := Reconcile(room, st, seats, observed, abandoned).bots[c];
      && !abandoned && st.sink.nextControllerId <= c
      && SameDeclaration(seats, bot.seatIndex, bot.declaration) && bot.joinSubmittedAt == Some(observed)
  {
    hide Inv, LeavesOf, Retire, ForeignSessions, FillSeats, SeatServed;
    RetireIsExact(st, seats, observed, abandoned);
    if !abandoned {
      SurvivorsAreTracked(st, seats, observed);
      NewBotIsDatedWhileFilling(room, Retire(st, seats, observed, false), seats, |seats|, observed, c);
    }
  }

  ghost predicate Dated(bot: HostedBot, seats: SeatRoster, observed: nat) {
    SameDeclaration(seats, bot.seatIndex, bot.declaration) && bot.joinSubmittedAt == Some(observed)
  }

  lemma NewBotOfSeatIsDated(room: Room, st: ReconcilerState, seats: SeatRoster, seat: nat, observed: nat,
                            c: ControllerId)
    requires Inv(st) && seat < |seats|
    requires c !in st.bots && c in FillSeat(room, st, seats, seat, observed).bots
    ensures st.sink.nextControllerId <= c && Dated(FillSeat(room, st, seats, seat, observed).bots[c], seats, observed)
  {
    hide Inv, ForeignSessions, Consistent, CreateBot, CreationSucceeds;
    CreationIsExact(room, st, seats[seat].Declaration(), seat, observed);
  }

  lemma {:induction false} NewBotIsDatedWhileFilling(room: Room, st: ReconcilerState, seats: SeatRoster, count: nat,
                                                     observed: nat, c: ControllerId)
    requires Inv(st) && AllTracked(st, seats, observed) && count <= |seats|
    requires c !in st.bots && c in FillSeats(room, st, seats, count, observed).bots
    ensures st.sink.nextControllerId <= c && Dated(FillSeats(room, st, seats, count, observed).bots[c], seats, observed)
    decreases count
  {
    hide Inv, AllTracked, ForeignSessions, SeatServed, FillSeat, Dated;
    var before := FillSeats(room, st, seats, count - 1, observed);
    FillSeatsKeep(room, st, seats, count - 1, observed);
    FillSeatKeeps(room, before, seats, count - 1, observed);
    if c in before.bots {
      NewBotIsDatedWhileFilling(room, st, seats, count - 1, observed, c);
    } else {
      NewBotOfSeatIsDated(room, before, seats, count - 1, observed, c);
    }
  }

  /** The circumstances under which a seat's join budget is measured: the room stays in use, ticks do
      not run backwards, the declaration stays, and the seat never shows the bot created for it. */
  ghost predicate SeatWaits(polls: seq<Poll>, i: nat, j: nat, seat: nat, d: NpcDeclaration, c: ControllerId)
    requires i <= j < |polls|
  {
    && (forall k :: i <= k <= j ==> !polls[k].abandoned && SameDeclaration(polls[k].seats, seat, d))
    && (forall k :: i <= k <= j ==> polls[i].observed <= polls[k].observed <= polls[j].observed)
    && (forall k :: i < k <= j ==> polls[k].seats[seat].bot != Some(c))
  }

  lemma {:induction false} BotWaitsOutItsBudget(room: Room, states: seq<ReconcilerState>, polls: seq<Poll>, i: nat,
                                                j: nat, k: nat, seat: nat, d: NpcDeclaration, c: ControllerId)
    requires IsRun(room, states, polls) && i < k <= j + 1 && j < |polls|
    requires SeatWaits(polls, i, j, seat, d, c)
    requires CreatedAt(states, i, seat, c) && states[i + 1].bots[c].declaration == d
    requires polls[j].observed < polls[i].observed + JOIN_OBSERVATION_BUDGET_TICKS
    ensures c in states[k].bots && states[k].bots[c] == HostedBot(d, seat, Some(polls[i].observed))
    decreases k
  {
    hide ValidHost, Ids, Reconcile, ValidSink;
    RunKeepsInvariant(room, states, polls, k - 1);
    var poll := polls[k - 1];
    var st := states[k - 1].(sink := poll.sink);
    assert states[k] == AfterPoll(room, states[k - 1], poll) && OthersActed(states[k - 1], poll.sink);
    if k == i + 1 {
      NewBotIsDated(room, st, poll.seats, poll.observed, poll.abandoned, c);
    } else {
      BotWaitsOutItsBudget(room, states, polls, i, j, k - 1, seat, d, c);
      InFlightBotSurvives(room, st, poll.seats, poll.observed, c);
    }
  }

  /** Two successful creations for one waiting seat are at least one join budget apart. */
  lemma CreationsAreSpaced(room: Room, states: seq<ReconcilerState>, polls: seq<Poll>, i: nat, j: nat, seat: nat,
                           c: ControllerId, later: ControllerId)
    requires IsRun(room, states, polls) && i < j < |polls|
    requires CreatedAt(states, i, seat, c) && CreatedAt(states, j, seat, later)
    requires SeatWaits(polls, i, j, seat, states[i + 1].bots[c].declaration, c)
    ensures polls[i].observed + 400 <= polls[j].observed
  {
    hide ValidHost, Ids, Reconcile, ValidSink;
    if polls[j].observed < polls[i].observed + JOIN_OBSERVATION_BUDGET_TICKS {
      var d := states[i + 1].bots[c].declaration;
      BotWaitsOutItsBudget(room, states, polls, i, j, j, seat, d, c);
      BotWaitsOutItsBudget(room, states, polls, i, j, j + 1, seat, d, c);
      RunKeepsInvariant(room, states, polls, j + 1);
    }
  }

  // ---------------------------------------------------------------- failures are not retried

  lemma {:induction false} FailureOutlivesFilling(room: Room, st: ReconcilerState, seats: SeatRoster, count: nat,
                                                  observed: nat, seat: nat)
    requires Inv(st) && AllTracked(st, seats, observed) && count <= |seats| && seat < |seats|
    requires Unfilled(seats[seat]) && seat in st.failed
    ensures var st' := FillSeats(room, st, seats, count, observed);
      seat in st'.failed && st'.failed[seat] == st.failed[seat]
    decreases count
  {
    hide Inv, ForeignSessions, SeatServed, CreateBot, CreationSucceeds, Consistent;
    if count > 0 {
      var before := FillSeats(room, st, seats, count - 1, observed);
      FailureOutlivesFilling(room, st, seats, count - 1, observed, seat);
      FillSeatsKeep(room, st, seats, count - 1, observed);
      if Unfilled(seats[count - 1]) {
        CreationIsExact(room, before, seats[count - 1].Declaration(), count - 1, observed);
      }
    }
  }

  /** Once a creation failed, the seat is not tried again while the roster keeps showing the same
      unfilled declaration, however many passes, abandoned or not, go by. */
  lemma {:induction false} FailedSeatIsNotRetried(room: Room, states: seq<ReconcilerState>, polls: seq<Poll>, i: nat,
                                                  j: nat, seat: nat, d: NpcDeclaration)
    requires IsRun(room, states, polls) && i <= j < |states|
    requires seat in states[i].failed && states[i].failed[seat] == d
    requires forall k :: i <= k < j ==> SameDeclaration(polls[k].seats, seat, d) && Unfilled(polls[k].seats[seat])
    ensures seat in states[j].failed && states[j].failed[seat] == d
    ensures NoBotAt(states[j].bots, seat)
    decreases j
  {
    hide ValidHost, Ids, ValidSink, Retire, FillSeats, LeavesOf, ForeignSessions;
    RunKeepsInvariant(room, states, polls, j);
    if i < j {
      FailedSeatIsNotRetried(room, states, polls, i, j - 1, seat, d);
      RunKeepsInvariant(room, states, polls, j - 1);
      var poll := polls[j - 1];
      var st := states[j - 1].(sink := poll.sink);
      assert states[j] == AfterPoll(room, states[j - 1], poll) && OthersActed(states[j - 1], poll.sink);
      RetireIsExact(st, poll.seats, poll.observed, poll.abandoned);
      if !poll.abandoned {
        SurvivorsAreTracked(st, poll.seats, poll.observed);
        FailureOutlivesFilling(room, Retire(st, poll.seats, poll.observed, false), poll.seats, |poll.seats|,
                               poll.observed, seat);
      }
    }
  }

  // ---------------------------------------------------------------- quiescence

  /** Every join has landed: each bot is shown by the seat that declares it. */
  ghost predicate AllSeated(st: ReconcilerState, seats: SeatRoster) {
    forall c :: c in st.bots ==>
      && SameDeclaration(seats, st.bots[c].seatIndex, st.bots[c].declaration)
      && seats[st.bots[c].seatIndex].bot == Some(c)
  }

  ghost predicate FailuresCurrent(st: ReconcilerState, seats: SeatRoster) {
    forall i :: i in st.failed ==> SameDeclaration(seats, i, st.failed[i])
  }

  /** Whether two states agree on everything the reconciler and its host hold. */
  ghost predicate SameBooks(a: ReconcilerState, b: ReconcilerState) {
    a.bots == b.bots && a.failed == b.failed && a.ordinals == b.ordinals && a.hosted == b.hosted
  }

  /** Once every join is seen to have landed and every seat is served, no later pass over that roster,
      at any tick whatever, opens, closes, submits, creates or retires anything. */
  lemma {:induction false} SettledRunStaysSettled(room: Room, states: seq<ReconcilerState>, polls: seq<Poll>, i: nat)
    requires IsRun(room, states, polls) && 0 < |polls| && i < |polls|
    requires forall k :: 0 <= k < |polls| ==> !polls[k].abandoned && polls[k].seats == polls[0].seats
    requires Quiet(states[0], polls[0].seats, polls[0].observed) && AllSeated(states[0], polls[0].seats)
    ensures SameBooks(states[i], states[0])
    ensures SameBooks(states[i + 1], states[0]) && states[i + 1].sink == polls[i].sink
  {
    hide ValidHost, Ids, ValidSink, Reconcile, SeatServed;
    var seats := polls[0].seats;
    if i > 0 { SettledRunStaysSettled(room, states, polls, i - 1); }
    RunKeepsInvariant(room, states, polls, i);
    var st := states[i].(sink := polls[i].sink);
    assert states[i + 1] == AfterPoll(room, states[i], polls[i]) && OthersActed(states[i], polls[i].sink);
    assert Quiet(st, seats, polls[i].observed) by {
      SameServiceForSameBooks(states[0], st, seats);
    }
    PassIsIdentityExactlyWhenQuiet(room, st, seats, polls[i].observed);
  }

  lemma SameServiceForSameBooks(a: ReconcilerState, b: ReconcilerState, seats: SeatRoster)
    requires SameBooks(a, b) && SeatsServed(a, seats, |seats|)
    ensures SeatsServed(b, seats, |seats|)
  {
    forall i | 0 <= i < |seats| ensures SeatServed(b, seats, i) {
      assert SeatServed(a, seats, i);
    }
  }
}
