/** The write capability shared by every session: identities, the controller directory, the bounded
    tuning exchange, and the lobby commands handed to the mailbox. */
module CommandSinks {
  import opened Wrappers
  import opened SeatRosters

  const MAXIMUM_CONTROLLER_ID: nat := 9_007_199_254_740_991
  const MAXIMUM_DIRECTORY_ENTRY_COUNT: nat := 4096
  const MAXIMUM_CONTROLLER_KIND_LENGTH: nat := 64
  const MAXIMUM_DISPLAY_NAME_LENGTH: nat := 64

  datatype Presentation = Presentation(controllerKind: string, displayName: string)

  datatype SinkError = KindRejected | DisplayNameRejected | ControllerIdExhausted | DirectoryFull

  datatype SubmissionResult =
    | Accepted | SessionNotOpen | ForeignController | JoinDeclarationInvalid | SeatIndexOutOfRange

  /** Everything the sink holds that a caller can observe. */
  datatype SinkState = SinkState(
    nextControllerId: nat,
    directory: map<ControllerId, Presentation>,
    exchanges: set<ControllerId>,
    submitted: seq<LobbyCommand>)

  predicate BoundedPrintable(value: string, maximum: nat) {
    |value| <= maximum && forall i :: 0 <= i < |value| ==> value[i] >= ' ' && value[i] as int != 0x7f
  }

  predicate ValidControllerKind(kind: string) {
    kind != "" && BoundedPrintable(kind, MAXIMUM_CONTROLLER_KIND_LENGTH)
  }

  predicate ValidDisplayName(name: string) {
    BoundedPrintable(name, MAXIMUM_DISPLAY_NAME_LENGTH)
  }

  /** Issued identities only, and one exchange slot per directory entry. */
  ghost predicate ValidSink(s: SinkState) {
    && s.directory.Keys == s.exchanges
    && |s.exchanges| <= MAXIMUM_DIRECTORY_ENTRY_COUNT
    && forall c :: c in s.exchanges ==> c < s.nextControllerId
  }

  /** Opening consumes an identity whether or not the directory then accepts it. */
  function OpenSession(s: SinkState, kind: string, name: string): (SinkState, Result<ControllerId, SinkError>) {
    if !ValidControllerKind(kind) then (s, Failure(KindRejected))
    else if !ValidDisplayName(name) then (s, Failure(DisplayNameRejected))
    else if s.nextControllerId > MAXIMUM_CONTROLLER_ID then (s, Failure(ControllerIdExhausted))
    else
      var issued := s.nextControllerId;
      var consumed := s.(nextControllerId := issued + 1);
      if issued in s.directory || |s.directory| >= MAXIMUM_DIRECTORY_ENTRY_COUNT then
        (consumed, Failure(DirectoryFull))
      else if issued in s.exchanges || |s.exchanges| == MAXIMUM_DIRECTORY_ENTRY_COUNT then
        (consumed, Failure(DirectoryFull))
      else
        (consumed.(directory := s.directory[issued := Presentation(kind, name)],
                   exchanges := s.exchanges + {issued}),
         Success(issued))
  }

  /** A refused open leaves no directory entry and no exchange behind; an accepted one adds exactly
      the identity it returns, which was never issued before. */
  lemma OpenIsExact(s: SinkState, kind: string, name: string)
    requires ValidSink(s)
    ensures var (s', r) := OpenSession(s, kind, name);
      && ValidSink(s') && s'.submitted == s.submitted
      && s.nextControllerId <= s'.nextControllerId <= s.nextControllerId + 1
      && (r.Failure? ==> s'.directory == s.directory && s'.exchanges == s.exchanges)
      && (r.Success? ==>
           && r.value == s.nextControllerId && r.value !in s.directory
           && s'.nextControllerId == s.nextControllerId + 1
           && s'.directory == s.directory[r.value := Presentation(kind, name)]
           && s'.exchanges == s.exchanges + {r.value})
  {
    hide ValidControllerKind, ValidDisplayName;
    var (s', r) := OpenSession(s, kind, name);
    if r.Success? {
      assert s'.directory.Keys == s.directory.Keys + {r.value};
    }
    assert |s.directory| == |s.directory.Keys|;
  }

  /** At most this many characters, none of them a control. */
  predicate IsShortText(text: string, most: nat) {
    |text| <= most && forall c :: c in text ==> 0x20 <= c as int && c as int != 0x7f
  }

  /** Each way an open can end, in the order the sink looks: a kind that is no short text or none at all, a
      name that is none, no identity left, no room in the directory; and otherwise a session. */
  lemma OpenEndsExactly(s: SinkState, kind: string, name: string)
    requires ValidSink(s)
    ensures var r := OpenSession(s, kind, name).1;
      var named := kind != "" && IsShortText(kind, 64);
      var presented := named && IsShortText(name, 64);
      var identified := presented && s.nextControllerId <= 9_007_199_254_740_991;
      && (r == Failure(KindRejected) <==> !named)
      && (r == Failure(DisplayNameRejected) <==> named && !presented)
      && (r == Failure(ControllerIdExhausted) <==> presented && !identified)
      && (r == Failure(DirectoryFull) <==> identified && |s.directory| == 4096)
      && (r == Success(s.nextControllerId) <==> identified && |s.directory| < 4096)
      && (OpenSession(s, kind, name).0.nextControllerId == s.nextControllerId + if identified then 1 else 0)
  {
    hide BoundedPrintable, IsShortText;
    ShortTextIsPrintable(kind, 64);
    ShortTextIsPrintable(name, 64);
    assert |s.directory| == |s.directory.Keys|;
  }

  lemma ShortTextIsPrintable(text: string, most: nat)
    ensures BoundedPrintable(text, most) <==> IsShortText(text, most)
  {
    if IsShortText(text, most) {
      forall i | 0 <= i < |text| ensures text[i] >= ' ' && text[i] as int != 0x7f { assert text[i] in text; }
    }
  }

  /** Closing retires the exchange slot, enqueues the leave and drops the directory entry. */
  function CloseSession(s: SinkState, c: ControllerId): (SinkState, bool) {
    if c !in s.exchanges then (s, false)
    else
      (s.(exchanges := s.exchanges - {c}, directory := s.directory - {c}, submitted := s.submitted + [LeaveCommand(c)]),
       true)
  }

  lemma CloseIsExact(s: SinkState, c: ControllerId)
    requires ValidSink(s)
    ensures var (s', closed) := CloseSession(s, c);
      && ValidSink(s') && (closed <==> c in s.directory)
      && s'.nextControllerId == s.nextControllerId
      && s'.directory == s.directory - {c} && s'.exchanges == s.exchanges - {c}
      && s'.submitted == if closed then s.submitted + [LeaveCommand(c)] else s.submitted
  {
    assert (s.directory - {c}).Keys == s.directory.Keys - {c};
    if c !in s.exchanges { assert s.directory - {c} == s.directory; }
    assert s.exchanges - {c} <= s.exchanges;
    CardinalityOfSubset(s.exchanges - {c}, s.exchanges);
  }

  lemma CardinalityOfSubset<T>(a: set<T>, b: set<T>)
    requires a <= b
    ensures |a| <= |b|
  {
    assert b == a + (b - a);
  }

  /** A join must be stamped with an open session's own identity and name a possible seat. */
  function Submit(s: SinkState, c: ControllerId, join: LobbyCommand): (r: (SinkState, SubmissionResult))
    requires join.JoinCommand?
    ensures r.0 == s.(submitted := if r.1.Accepted? then s.submitted + [join] else s.submitted)
  {
    if c !in s.directory then (s, SessionNotOpen)
    else if join.joining != c then (s, ForeignController)
    else if join.expectedNpc.kind == "" then (s, JoinDeclarationInvalid)
    else if join.seatIndex >= MAXIMUM_LOBBY_SEAT_COUNT then (s, SeatIndexOutOfRange)
    else (s.(submitted := s.submitted + [join]), Accepted)
  }

  /** A join is taken exactly from an open session, for its own identity, with a declared kind and one of the
      sixty-four seats there can be; each refusal names the first of these it lacks. */
  lemma SubmitEndsExactly(s: SinkState, c: ControllerId, join: LobbyCommand)
    requires join.JoinCommand?
    ensures var (s', r) := Submit(s, c, join);
      && (r == SessionNotOpen <==> c !in s.directory)
      && (r == ForeignController <==> c in s.directory && join.joining != c)
      && (r == JoinDeclarationInvalid <==> c in s.directory && join.joining == c && join.expectedNpc.kind == "")
      && (r == SeatIndexOutOfRange <==>
            c in s.directory && join.joining == c && join.expectedNpc.kind != "" && join.seatIndex > 63)
      && (r == Accepted <==> s'.submitted == s.submitted + [join])
      && (r != Accepted ==> s' == s)
  {
    assert s.submitted != s.submitted + [join];
  }

  lemma EraseUndoesInsert(m: map<ControllerId, Presentation>, k: ControllerId, v: Presentation)
    requires k !in m
    ensures m[k := v] - {k} == m
  {
  }

  class CommandSink {
    var nextControllerId: nat
    var directory: map<ControllerId, Presentation>
    var exchanges: set<ControllerId>
    var submitted: seq<LobbyCommand>

    constructor (firstControllerId: nat)
      ensures State() == SinkState(firstControllerId, map[], {}, [])
    {
      nextControllerId, directory, exchanges, submitted := firstControllerId, map[], {}, [];
    }

    function State(): SinkState
      reads this
    {
      SinkState(nextControllerId, directory, exchanges, submitted)
    }

    method Open(kind: string, name: string) returns (r: Result<ControllerId, SinkError>)
      modifies this
      ensures (State(), r) == OpenSession(old(State()), kind, name)
    {
      hide ValidControllerKind, ValidDisplayName;
      if !ValidControllerKind(kind) { return Failure(KindRejected); }
      if !ValidDisplayName(name) { return Failure(DisplayNameRejected); }
      if nextControllerId > MAXIMUM_CONTROLLER_ID { return Failure(ControllerIdExhausted); }
      var issued := nextControllerId;
      nextControllerId := issued + 1;
      if issued in directory || |directory| >= MAXIMUM_DIRECTORY_ENTRY_COUNT {
        return Failure(DirectoryFull);
      }
      var before := directory;
      directory := directory[issued := Presentation(kind, name)];
      if issued in exchanges || |exchanges| == MAXIMUM_DIRECTORY_ENTRY_COUNT {
        directory := directory - {issued};
        EraseUndoesInsert(before, issued, Presentation(kind, name));
        return Failure(DirectoryFull);
      }
      exchanges := exchanges + {issued};
      return Success(issued);
    }

    method Close(c: ControllerId) returns (closed: bool)
      modifies this
      ensures (State(), closed) == CloseSession(old(State()), c)
    {
      if c !in exchanges { return false; }
      exchanges := exchanges - {c};
      submitted := submitted + [LeaveCommand(c)];
      directory := directory - {c};
      return true;
    }

    method SubmitJoin(c: ControllerId, join: LobbyCommand) returns (r: SubmissionResult)
      requires join.JoinCommand?
      modifies this
      ensures (State(), r) == Submit(old(State()), c, join)
    {
      if c !in directory { return SessionNotOpen; }
      if join.joining != c { return ForeignController; }
      if join.expectedNpc.kind == "" { return JoinDeclarationInvalid; }
      if join.seatIndex >= MAXIMUM_LOBBY_SEAT_COUNT { return SeatIndexOutOfRange; }
      submitted := submitted + [join];
      return Accepted;
    }
  }
}
