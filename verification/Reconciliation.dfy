/** Seat-bot reconciliation: what one pass over one published snapshot does to the hosted bots, the
    failure records, the shared command sink and the controller host. */
module Reconciliation {
  import opened Wrappers
  import opened AscendingKeys
  import opened Decimals
  import opened SeatRosters
  import opened CommandSinks
  import opened ControllerHosts

  /** One second of committed ticks for a submitted join to become visible. */
  const JOIN_OBSERVATION_BUDGET_TICKS: nat := 400
  const MAXIMUM_LOBBY_ID: nat := 9_007_199_254_740_991

  datatype HostedBot = HostedBot(declaration: NpcDeclaration, seatIndex: nat, joinSubmittedAt: Option<nat>)

  /** What a reconciler is constructed with: the authored profiles and the room it serves. */
  datatype Room = Room(profiles: set<string>, lobbyId: nat)

  datatype ReconcilerState = ReconcilerState(
    bots: map<ControllerId, HostedBot>,
    ordinals: map<string, nat>,
    failed: map<nat, NpcDeclaration>,
    sink: SinkState,
    hosted: Hosted)

  datatype RetireReason = RoomAbandoned | SeatLost | DeclarationChanged | JoinRefused

  datatype Fate = Seated | JoinInFlight | Retired(reason: RetireReason)

  function FateOf(c: ControllerId, bot: HostedBot, seats: SeatRoster, observed: nat): Fate {
    if !SameDeclaration(seats, bot.seatIndex, bot.declaration) then
      Retired(if bot.seatIndex < |seats| && seats[bot.seatIndex].NpcSeat? then DeclarationChanged else SeatLost)
    else if seats[bot.seatIndex].bot == Some(c) then Seated
    else if bot.joinSubmittedAt.Some? && observed < bot.joinSubmittedAt.value + JOIN_OBSERVATION_BUDGET_TICKS
    then JoinInFlight
    else Retired(if bot.joinSubmittedAt.Some? then JoinRefused else SeatLost)
  }

  /** The fate of a bot in this pass, given what the control loop said about the room. */
  function PassFate(c: ControllerId, bot: HostedBot, seats: SeatRoster, observed: nat, abandoned: bool): Fate {
    if abandoned then Retired(RoomAbandoned) else FateOf(c, bot, seats, observed)
  }

  function Settle(bot: HostedBot, fate: Fate): HostedBot {
    if fate.Seated? then bot.(joinSubmittedAt := None) else bot
  }

  function SurvivingBots(bots: map<ControllerId, HostedBot>, seats: SeatRoster, observed: nat,
                         abandoned: bool): map<ControllerId, HostedBot>
  {
    map c | c in bots && !PassFate(c, bots[c], seats, observed, abandoned).Retired? ::
      Settle(bots[c], PassFate(c, bots[c], seats, observed, abandoned))
  }

  /** Removal, replacement and resize forget a failure record. */
  function RememberedFailures(failed: map<nat, NpcDeclaration>, seats: SeatRoster): map<nat, NpcDeclaration> {
    map i | i in failed && SameDeclaration(seats, i, failed[i]) :: failed[i]
  }

  /** What the walk over the hosted bots has built so far. */
  datatype Walk = Walk(bots: map<ControllerId, HostedBot>, sink: SinkState, hosted: Hosted)

  /** What the pass does with the bot its iterator stands on. */
  function SettleOne(w: Walk, c: ControllerId, seats: SeatRoster, observed: nat, abandoned: bool): Walk
    requires c in w.bots
  {
    var fate := PassFate(c, w.bots[c], seats, observed, abandoned);
    if fate.Retired? then Walk(w.bots - {c}, CloseSession(w.sink, c).0, Remove(w.hosted, c).0)
    else w.(bots := w.bots[c := Settle(w.bots[c], fate)])
  }

  /** The walk in the order given: every listed bot meets its fate in turn. */
  function SettleInOrder(w: Walk, order: seq<ControllerId>, seats: SeatRoster, observed: nat, abandoned: bool): Walk
    decreases |order|
  {
    if order == [] then w
    else
      var next := if order[0] in w.bots then SettleOne(w, order[0], seats, observed, abandoned) else w;
      SettleInOrder(next, order[1..], seats, observed, abandoned)
  }

  lemma SettleStep(w: Walk, c: ControllerId, rest: seq<ControllerId>, seats: SeatRoster, observed: nat, abandoned: bool)
    requires c in w.bots
    ensures SettleInOrder(w, [c] + rest, seats, observed, abandoned) ==
            SettleInOrder(SettleOne(w, c, seats, observed, abandoned), rest, seats, observed, abandoned)
  {
    assert ([c] + rest)[1..] == rest;
  }

  function DisplayName(kind: string, ordinal: nat): string {
    kind + " " + PrintDecimal(ordinal)
  }

  const PLAIN_KINDS := {"wanderer", "chaser", "hill_seeker", "racer"}

  /** The closed controller table: four plain kinds and one that needs a profile and an identity. */
  predicate RegistryAdmits(room: Room, d: NpcDeclaration, seat: nat) {
    || (d.kind in PLAIN_KINDS && d.profileName.None?)
    || (d.kind == "tactical" && d.profileName.Some? && 0 < room.lobbyId <= MAXIMUM_LOBBY_ID
        && seat < MAXIMUM_LOBBY_SEAT_COUNT)
  }

  predicate ProfileKnown(room: Room, d: NpcDeclaration) {
    d.profileName.Some? ==> d.profileName.value in room.profiles
  }

  function NextOrdinal(ordinals: map<string, nat>, kind: string): nat {
    (if kind in ordinals then ordinals[kind] else 0) + 1
  }

  /** One attempt at a bot. Every failure closes whatever it used and is remembered for the seat. */
  function CreateBot(room: Room, st: ReconcilerState, d: NpcDeclaration, seat: nat, observed: nat): ReconcilerState {
    var ordinal := NextOrdinal(st.ordinals, d.kind);
    var refused := st.(ordinals := st.ordinals[d.kind := ordinal], failed := st.failed[seat := d]);
    if !ProfileKnown(room, d) then refused
    else
      var (used, session) := OpenSession(st.sink, d.kind, DisplayName(d.kind, ordinal));
      if session.Failure? then refused.(sink := used)
      else
        var c := session.value;
        var added := Add(st.hosted, HostedController(c, d.kind));
        if !RegistryAdmits(room, d, seat) || added.Failure? then refused.(sink := CloseSession(used, c).0)
        else ReconcilerState(
          st.bots[c := HostedBot(d, seat, Some(observed))],
          refused.ordinals,
          st.failed - {seat},
          Submit(used, c, JoinCommand(c, seat, d)).0,
          added.value)
  }

  predicate JoinPendingAt(bots: map<ControllerId, HostedBot>, seat: nat) {
    exists c :: c in bots && bots[c].seatIndex == seat && bots[c].joinSubmittedAt.Some?
  }

  function FillSeat(room: Room, st: ReconcilerState, seats: SeatRoster, seat: nat, observed: nat): ReconcilerState
    requires seat < |seats|
  {
    if !Unfilled(seats[seat]) then st.(failed := st.failed - {seat})
    else
      var d := seats[seat].Declaration();
      if seat in st.failed && st.failed[seat] == d then st
      else if JoinPendingAt(st.bots, seat) then st
      else CreateBot(room, st, d, seat, observed)
  }

  /** The first `count` seats, in index order. */
  function FillSeats(room: Room, st: ReconcilerState, seats: SeatRoster, count: nat, observed: nat): ReconcilerState
    requires count <= |seats|
  {
    if count == 0 then st
    else FillSeat(room, FillSeats(room, st, seats, count - 1, observed), seats, count - 1, observed)
  }

  ghost function Retire(st: ReconcilerState, seats: SeatRoster, observed: nat, abandoned: bool): ReconcilerState {
    var walk := SettleInOrder(Walk(st.bots, st.sink, st.hosted), Ascending(st.bots.Keys), seats, observed, abandoned);
    ReconcilerState(walk.bots, st.ordinals, RememberedFailures(st.failed, seats), walk.sink, walk.hosted)
  }

  /** One whole pass. */
  ghost function Reconcile(room: Room, st: ReconcilerState, seats: SeatRoster, observed: nat,
                           abandoned: bool): ReconcilerState
  {
    var retired := Retire(st, seats, observed, abandoned);
    if abandoned then retired else FillSeats(room, retired, seats, |seats|, observed)
  }

  class SeatBotReconciler {
    const room: Room
    const sink: CommandSink
    const host: ControllerHost
    var bots: map<ControllerId, HostedBot>
    var displayOrdinals: map<string, nat>
    var failedDeclarations: map<nat, NpcDeclaration>

    constructor (room: Room, sink: CommandSink, host: ControllerHost)
      ensures this.room == room && this.sink == sink && this.host == host
      ensures bots == map[] && displayOrdinals == map[] && failedDeclarations == map[]
    {
      this.room, this.sink, this.host := room, sink, host;
      bots, displayOrdinals, failedDeclarations := map[], map[], map[];
    }

    function State(): ReconcilerState
      reads this, sink, host
    {
      ReconcilerState(bots, displayOrdinals, failedDeclarations, sink.State(), host.controllers)
    }

    /** The control loop's poll: retire what the roster no longer holds, then fill what it declares. */
    method ReconcilePass(seats: SeatRoster, observed: nat, abandoned: bool)
      modifies this, sink, host`controllers
      ensures State() == Reconcile(room, old(State()), seats, observed, abandoned)
    {
      ForgetFailures(seats);
      RetireBots(seats, observed, abandoned);
      if abandoned { return; }
      for index := 0 to |seats|
        invariant State() == FillSeats(room, Retire(old(State()), seats, observed, abandoned), seats, index, observed)
      {
        if !Unfilled(seats[index]) {
          failedDeclarations := failedDeclarations - {index};
        } else {
          var declaration := seats[index].Declaration();
          if !(index in failedDeclarations && failedDeclarations[index] == declaration) {
            var pending := FindPendingJoin(index);
            if !pending { TryCreateBot(declaration, index, observed); }
          }
        }
      }
    }

    method ForgetFailures(seats: SeatRoster)
      modifies `failedDeclarations
      ensures failedDeclarations == RememberedFailures(old(failedDeclarations), seats)
    {
      var todo := failedDeclarations.Keys;
      while todo != {}
        invariant todo <= failedDeclarations.Keys <= old(failedDeclarations).Keys
        invariant forall i :: i in failedDeclarations ==> failedDeclarations[i] == old(failedDeclarations)[i]
        invariant forall i :: i in failedDeclarations && i !in todo ==> SameDeclaration(seats, i, failedDeclarations[i])
        invariant forall i :: i in old(failedDeclarations) && i !in failedDeclarations ==>
          !SameDeclaration(seats, i, old(failedDeclarations)[i])
        decreases todo
      {
        var i :| i in todo;
        todo := todo - {i};
        if !SameDeclaration(seats, i, failedDeclarations[i]) {
          failedDeclarations := failedDeclarations - {i};
        }
      }
    }

    function WalkState(): Walk
      reads this, sink, host
    {
      Walk(bots, sink.State(), host.controllers)
    }

    method RetireBots(seats: SeatRoster, observed: nat, abandoned: bool)
      modifies `bots, sink, host`controllers
      ensures WalkState() == SettleInOrder(old(WalkState()), Ascending(old(bots).Keys), seats, observed, abandoned)
    {
      ghost var settled := SettleInOrder(WalkState(), Ascending(bots.Keys), seats, observed, abandoned);
      var waiting := bots.Keys;
      while waiting != {}
        invariant SettleInOrder(WalkState(), Ascending(waiting), seats, observed, abandoned) == settled
        invariant waiting <= bots.Keys
        decreases waiting
      {
        var c := LeastOf(waiting);
        waiting := waiting - {c};
        SettleStep(WalkState(), c, Ascending(waiting), seats, observed, abandoned);
        SettleHosted(c, seats, observed, abandoned);
      }
    }

    method SettleHosted(c: ControllerId, seats: SeatRoster, observed: nat, abandoned: bool)
      requires c in bots
      modifies `bots, sink, host`controllers
      ensures WalkState() == SettleOne(old(WalkState()), c, seats, observed, abandoned)
      ensures old(bots).Keys - {c} <= bots.Keys
    {
      match PassFate(c, bots[c], seats, observed, abandoned) {
        case Seated => bots := bots[c := bots[c].(joinSubmittedAt := None)];
        case JoinInFlight => assert bots[c := bots[c]] == bots;
        case Retired(_) =>
          var _ := sink.Close(c);
          var _ := host.RemoveController(c);
          bots := bots - {c};
      }
    }

    method FindPendingJoin(seat: nat) returns (pending: bool)
      ensures pending <==> JoinPendingAt(bots, seat)
    {
      var todo := bots.Keys;
      while todo != {}
        invariant todo <= bots.Keys
        invariant forall c :: c in bots && c !in todo ==> !(bots[c].seatIndex == seat && bots[c].joinSubmittedAt.Some?)
        decreases todo
      {
        var c :| c in todo;
        if bots[c].seatIndex == seat && bots[c].joinSubmittedAt.Some? { return true; }
        todo := todo - {c};
      }
      return false;
    }

    method TryCreateBot(declaration: NpcDeclaration, seat: nat, observed: nat)
      modifies this, sink, host`controllers
      ensures State() == CreateBot(room, old(State()), declaration, seat, observed)
    {
      var ordinal := NextOrdinal(displayOrdinals, declaration.kind);
      displayOrdinals := displayOrdinals[declaration.kind := ordinal];
      var displayName := DisplayName(declaration.kind, ordinal);
      if !ProfileKnown(room, declaration) {
        failedDeclarations := failedDeclarations[seat := declaration];
        return;
      }
      var session := sink.Open(declaration.kind, displayName);
      if session.Failure? {
        failedDeclarations := failedDeclarations[seat := declaration];
        return;
      }
      var controller := session.value;
      var hosted := RegistryAdmits(room, declaration, seat);
      if hosted {
        var refusal := host.AddController(HostedController(controller, declaration.kind));
        hosted := refusal.None?;
      }
      if !hosted {
        // Nothing is hosted under this identity, so its session must not outlive the attempt.
        var _ := sink.Close(controller);
        failedDeclarations := failedDeclarations[seat := declaration];
        return;
      }
      var _ := sink.SubmitJoin(controller, JoinCommand(controller, seat, declaration));
      bots := bots[controller := HostedBot(declaration, seat, Some(observed))];
      failedDeclarations := failedDeclarations - {seat};
    }
  }
}
