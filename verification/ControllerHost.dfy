/** The in-process controllers of one room, kept in ascending identity order and run pass by pass. */
module ControllerHosts {
  import opened Wrappers
  import opened SeatRosters
  import opened Commands

  const MAXIMUM_HOSTED_CONTROLLER_COUNT: nat := 4096

  datatype HostedController = HostedController(controller: ControllerId, kind: string)

  datatype HostError = ControllerHostFull | ControllerIdDuplicate

  type Hosted = seq<HostedController>

  ghost predicate ValidHost(s: Hosted) {
    && |s| <= 4096
    && forall i, j :: 0 <= i < j < |s| ==> s[i].controller < s[j].controller
  }

  ghost function Ids(s: Hosted): set<ControllerId> {
    set i | 0 <= i < |s| :: s[i].controller
  }

  /** The first position not below this identity. */
  function AscendingPosition(s: Hosted, c: ControllerId): (p: nat)
    ensures p <= |s|
    ensures forall i :: 0 <= i < p ==> s[i].controller < c
    ensures p < |s| ==> c <= s[p].controller
  {
    if s == [] || c <= s[0].controller then 0 else 1 + AscendingPosition(s[1..], c)
  }

  function Add(s: Hosted, h: HostedController): Result<Hosted, HostError> {
    if |s| >= MAXIMUM_HOSTED_CONTROLLER_COUNT then Failure(ControllerHostFull)
    else
      var p := AscendingPosition(s, h.controller);
      if p < |s| && s[p].controller == h.controller then Failure(ControllerIdDuplicate)
      else Success(s[..p] + [h] + s[p..])
  }

  /** Filing a controller fails exactly on a full host or a claimed identity; otherwise the host is
      the same controllers plus this one, still ascending. */
  lemma AddIsExact(s: Hosted, h: HostedController)
    requires ValidHost(s)
    ensures Add(s, h) == Failure(ControllerHostFull) <==> |s| == 4096
    ensures Add(s, h) == Failure(ControllerIdDuplicate) <==>
      |s| < 4096 && h.controller in Ids(s)
    ensures Add(s, h).Success? <==> |s| < 4096 && h.controller !in Ids(s)
    ensures Add(s, h).Success? ==>
      && ValidHost(Add(s, h).value) && Ids(Add(s, h).value) == Ids(s) + {h.controller}
      && multiset(Add(s, h).value) == multiset(s) + multiset{h}
  {
    var p := AscendingPosition(s, h.controller);
    if p < |s| && s[p].controller == h.controller {
      assert h.controller in Ids(s);
    } else {
      InsertFacts(s, h, p);
    }
  }

  lemma InsertFacts(s: Hosted, h: HostedController, p: nat)
    requires p <= |s| && forall i :: 0 <= i < p ==> s[i].controller < h.controller
    requires p < |s| ==> h.controller < s[p].controller
    ensures ValidHost(s) ==> h.controller !in Ids(s)
    ensures ValidHost(s) && |s| < MAXIMUM_HOSTED_CONTROLLER_COUNT ==> ValidHost(s[..p] + [h] + s[p..])
    ensures Ids(s[..p] + [h] + s[p..]) == Ids(s) + {h.controller}
    ensures multiset(s[..p] + [h] + s[p..]) == multiset(s) + multiset{h}
  {
    assert multiset(s[..p] + [h] + s[p..]) == multiset(s) + multiset{h} by {
      assert s == s[..p] + s[p..];
    }
    InsertIds(s, h, p);
  }

  lemma InsertIds(s: Hosted, h: HostedController, p: nat)
    requires p <= |s|
    ensures Ids(s[..p] + [h] + s[p..]) == Ids(s) + {h.controller}
  {
    var grown := s[..p] + [h] + s[p..];
    forall c | c in Ids(s) + {h.controller} ensures c in Ids(grown) {
      if c == h.controller {
        assert grown[p].controller == c;
      } else {
        var i :| 0 <= i < |s| && s[i].controller == c;
        assert grown[if i < p then i else i + 1] == s[i];
      }
    }
    forall c | c in Ids(grown) ensures c in Ids(s) + {h.controller} {
      var i :| 0 <= i < |grown| && grown[i].controller == c;
      if i < p { assert s[i] == grown[i]; }
      else if i > p { assert s[i - 1] == grown[i]; }
    }
  }

  function Remove(s: Hosted, c: ControllerId): (Hosted, bool) {
    var p := AscendingPosition(s, c);
    if p >= |s| || s[p].controller != c then (s, false) else (s[..p] + s[p + 1..], true)
  }

  /** Releasing a controller takes away that identity and nothing else, and reports whether it was there. */
  lemma RemoveIsExact(s: Hosted, c: ControllerId)
    requires ValidHost(s)
    ensures ValidHost(Remove(s, c).0) && Ids(Remove(s, c).0) == Ids(s) - {c}
    ensures Remove(s, c).1 <==> c in Ids(s)
    ensures multiset(Remove(s, c).0) <= multiset(s)
  {
    var p := AscendingPosition(s, c);
    if p >= |s| || s[p].controller != c {
      assert c !in Ids(s);
    } else {
      EraseFacts(s, p);
      assert s == s[..p] + [s[p]] + s[p + 1..];
    }
  }

  /** A controller just filed can be released again, leaving the host as it was. */
  lemma RemoveUndoesAdd(s: Hosted, h: HostedController)
    requires ValidHost(s) && Add(s, h).Success?
    ensures Remove(Add(s, h).value, h.controller) == (s, true)
  {
    var p := AscendingPosition(s, h.controller);
    var grown := s[..p] + [h] + s[p..];
    assert grown[p] == h;
    forall i | 0 <= i < p ensures grown[i].controller < h.controller {
      assert grown[i] == s[i];
    }
    PositionIsUnique(grown, h.controller, p);
    EraseUndoesInsert(s, h, p);
  }

  lemma EraseUndoesInsert(s: Hosted, h: HostedController, p: nat)
    requires p <= |s|
    ensures (s[..p] + [h] + s[p..])[..p] + (s[..p] + [h] + s[p..])[p + 1..] == s
  {
  }

  lemma PositionIsUnique(s: Hosted, c: ControllerId, p: nat)
    requires p <= |s| && forall i :: 0 <= i < p ==> s[i].controller < c
    requires p < |s| ==> c <= s[p].controller
    ensures p == AscendingPosition(s, c)
  {
  }

  lemma EraseFacts(s: Hosted, p: nat)
    requires p < |s|
    ensures ValidHost(s) ==> ValidHost(s[..p] + s[p + 1..])
    ensures ValidHost(s) ==> Ids(s[..p] + s[p + 1..]) == Ids(s) - {s[p].controller}
    ensures s[p].controller in Ids(s)
  {
    if ValidHost(s) {
      ErasedIsValid(s, p);
      hide Ids, ValidHost;
      forall c ensures c in Ids(s[..p] + s[p + 1..]) <==> c in Ids(s) - {s[p].controller} { ErasedIsHosted(s, p, c); }
    }
  }

  lemma ErasedIsValid(s: Hosted, p: nat)
    requires p < |s| && ValidHost(s)
    ensures ValidHost(s[..p] + s[p + 1..])
  {
  }

  lemma ErasedIsHosted(s: Hosted, p: nat, c: ControllerId)
    requires p < |s| && ValidHost(s)
    ensures c in Ids(s[..p] + s[p + 1..]) <==> c in Ids(s) - {s[p].controller}
  {
    var shrunk := s[..p] + s[p + 1..];
    if c in Ids(s) - {s[p].controller} {
      var i :| 0 <= i < |s| && s[i].controller == c;
      assert shrunk[if i < p then i else i - 1].controller == c;
    }
    if c in Ids(shrunk) {
      var i :| 0 <= i < |shrunk| && shrunk[i].controller == c;
      assert s[if i < p then i else i + 1].controller == c;
    }
  }

  /** What one controller's `decide` did with the snapshot of this pass. */
  datatype Decision = Decided(commands: seq<Command>) | Threw(message: string)

  datatype Submission = Submission(author: ControllerId, command: Command)

  datatype ControllerFailure = ControllerFailure(controller: ControllerId, kind: string, message: string,
                                                 observed: Tick)

  datatype HostPass = HostPass(observed: Tick, deciding: nat, decided: nat, accepted: nat, refused: nat, failed: nat)

  datatype HostStatistics = HostStatistics(passes: nat, decided: nat, accepted: nat, refused: nat, failed: nat)

  function Stamped(author: ControllerId, commands: seq<Command>): (r: seq<Submission>)
    ensures |r| == |commands|
    ensures forall i :: 0 <= i < |commands| ==> r[i] == Submission(author, commands[i])
  {
    seq(|commands|, i requires 0 <= i < |commands| => Submission(author, commands[i]))
  }

  /** Every returned command in ascending controller order; a controller that threw contributes nothing. */
  function SubmissionsOf(s: Hosted, decide: ControllerId -> Decision): seq<Submission> {
    if s == [] then []
    else
      var last := s[|s| - 1].controller;
      var before := SubmissionsOf(s[..|s| - 1], decide);
      match decide(last)
      case Threw(_) => before
      case Decided(commands) => before + Stamped(last, commands)
  }

  function ThrewCount(s: Hosted, decide: ControllerId -> Decision): (n: nat)
    ensures n <= |s|
  {
    if s == [] then 0
    else ThrewCount(s[..|s| - 1], decide) + if decide(s[|s| - 1].controller).Threw? then 1 else 0
  }

  /** How many of the submissions the sink took, in the order it met them. */
  function AcceptedCount(s: seq<Submission>, accepts: (nat, Submission) -> bool): (n: nat)
    ensures n <= |s|
  {
    if s == [] then 0
    else AcceptedCount(s[..|s| - 1], accepts) + if accepts(|s| - 1, s[|s| - 1]) then 1 else 0
  }

  /** The last controller of the pass that threw, if any. */
  function LastFailure(s: Hosted, decide: ControllerId -> Decision, tick: Tick,
                       before: Option<ControllerFailure>): Option<ControllerFailure>
  {
    if s == [] then before
    else
      var last := s[|s| - 1];
      match decide(last.controller)
      case Threw(message) => Some(ControllerFailure(last.controller, last.kind, message, tick))
      case Decided(_) => LastFailure(s[..|s| - 1], decide, tick, before)
  }

  /** A throwing controller never changes what another controller submits: removing it leaves the
      submissions of the pass as they were. */
  lemma {:induction false} ThrowIsIsolated(s: Hosted, decide: ControllerId -> Decision, p: nat)
    requires p < |s| && decide(s[p].controller).Threw?
    ensures SubmissionsOf(s[..p] + s[p + 1..], decide) == SubmissionsOf(s, decide)
  {
    var shrunk := s[..p] + s[p + 1..];
    if p == |s| - 1 {
      assert shrunk == s[..p];
    } else {
      ThrowIsIsolated(s[..|s| - 1], decide, p);
      assert shrunk[..|shrunk| - 1] == s[..|s| - 1][..p] + s[..|s| - 1][p + 1..];
      assert shrunk[|shrunk| - 1] == s[|s| - 1];
    }
  }

  /** Every submission is stamped with a hosted identity that did decide it. */
  lemma {:induction false} SubmissionsAreOwn(s: Hosted, decide: ControllerId -> Decision)
    ensures forall k :: 0 <= k < |SubmissionsOf(s, decide)| ==>
      var sub := SubmissionsOf(s, decide)[k];
      sub.author in Ids(s) && decide(sub.author).Decided? && sub.command in decide(sub.author).commands
    ensures ValidHost(s) ==> forall j, k :: 0 <= j < k < |SubmissionsOf(s, decide)| ==>
      SubmissionsOf(s, decide)[j].author <= SubmissionsOf(s, decide)[k].author
  {
    if s != [] {
      var rest := s[..|s| - 1];
      var last := s[|s| - 1].controller;
      SubmissionsAreOwn(rest, decide);
      assert Ids(rest) <= Ids(s) && last in Ids(s) by {
        forall c | c in Ids(rest) ensures c in Ids(s) {
          var i :| 0 <= i < |rest| && rest[i].controller == c;
          assert s[i].controller == c;
        }
        assert s[|s| - 1].controller == last;
      }
      if ValidHost(s) {
        assert forall c :: c in Ids(rest) ==> c < last;
      }
    }
  }

  /** What one controller submits: each of its commands in its order, under its own identity; nothing on a throw. */
  function OwnSubmissions(c: ControllerId, decide: ControllerId -> Decision): seq<Submission> {
    match decide(c)
    case Decided(commands) => seq(|commands|, i requires 0 <= i < |commands| => Submission(c, commands[i]))
    case Threw(_) => []
  }

  lemma LastSubmitsItsOwn(s: Hosted, decide: ControllerId -> Decision)
    requires s != []
    ensures SubmissionsOf(s, decide) ==
      SubmissionsOf(s[..|s| - 1], decide) + OwnSubmissions(s[|s| - 1].controller, decide)
  {
    var before, c := SubmissionsOf(s[..|s| - 1], decide), s[|s| - 1].controller;
    match decide(c)
    case Decided(commands) => assert Stamped(c, commands) == OwnSubmissions(c, decide);
    case Threw(_) => assert before + [] == before;
  }

  /** Each controller's submissions stand between those of the controllers below it and above it. */
  lemma {:induction false} SubmissionsStandInHostOrder(s: Hosted, decide: ControllerId -> Decision, p: nat)
    requires p < |s|
    ensures SubmissionsOf(s, decide) ==
      SubmissionsOf(s[..p], decide) + OwnSubmissions(s[p].controller, decide) + SubmissionsOf(s[p + 1..], decide)
  {
    hide SubmissionsOf, OwnSubmissions;
    LastSubmitsItsOwn(s, decide);
    if p == |s| - 1 {
      NobodySubmitsNothing(decide);
      assert s[p + 1..] == [];
    } else {
      var front, above := s[..|s| - 1], s[p + 1..];
      SubmissionsStandInHostOrder(front, decide, p);
      LastSubmitsItsOwn(above, decide);
      assert front[..p] == s[..p] && front[p + 1..] == above[..|above| - 1];
    }
  }

  lemma NobodySubmitsNothing(decide: ControllerId -> Decision)
    ensures SubmissionsOf([], decide) == []
  {
  }

  /** A pass remembers the last controller that threw, by identity and kind, with what it said and when; a pass
      in which none did remembers what was remembered before. */
  lemma {:induction false} LastThrowIsRemembered(s: Hosted, decide: ControllerId -> Decision, tick: Tick,
                                                 before: Option<ControllerFailure>, p: nat)
    requires p <= |s| && forall i :: p <= i < |s| ==> decide(s[i].controller).Decided?
    ensures p == 0 ==> LastFailure(s, decide, tick, before) == before
    ensures p > 0 && decide(s[p - 1].controller).Threw? ==>
      LastFailure(s, decide, tick, before) ==
      Some(ControllerFailure(s[p - 1].controller, s[p - 1].kind, decide(s[p - 1].controller).message, tick))
  {
    if p < |s| { LastThrowIsRemembered(s[..|s| - 1], decide, tick, before, p); }
  }

  /** The counts count: positions of the host that threw, and submissions of the pass that were taken. */
  lemma {:induction false} ThrewCountCounts(s: Hosted, decide: ControllerId -> Decision)
    ensures ThrewCount(s, decide) == |set i | 0 <= i < |s| && decide(s[i].controller).Threw?|
  {
    var threw := set i | 0 <= i < |s| && decide(s[i].controller).Threw?;
    if s != [] {
      var n := |s| - 1;
      ThrewCountCounts(s[..n], decide);
      var earlier := set i | 0 <= i < |s[..n]| && decide(s[..n][i].controller).Threw?;
      assert threw == earlier + if decide(s[n].controller).Threw? then {n} else {};
    }
  }

  ghost function Taken(s: seq<Submission>, accepts: (nat, Submission) -> bool): set<nat> {
    set k: nat | k < |s| && accepts(k, s[k])
  }

  lemma OneMoreTaken(s: seq<Submission>, accepts: (nat, Submission) -> bool)
    requires s != []
    ensures var n := |s| - 1;
      |Taken(s, accepts)| == |Taken(s[..n], accepts)| + if accepts(n, s[n]) then 1 else 0
  {
    var n := |s| - 1;
    assert forall k: nat :: k < n ==> s[..n][k] == s[k];
    assert Taken(s, accepts) == Taken(s[..n], accepts) + if accepts(n, s[n]) then {n} else {};
  }

  lemma {:induction false} AcceptedCountCounts(s: seq<Submission>, accepts: (nat, Submission) -> bool)
    ensures AcceptedCount(s, accepts) == |Taken(s, accepts)|
  {
    if s == [] {
      assert Taken(s, accepts) == {};
    } else {
      hide Taken;
      AcceptedCountCounts(s[..|s| - 1], accepts);
      OneMoreTaken(s, accepts);
    }
  }

  class ControllerHost {
    var controllers: Hosted
    var statistics: HostStatistics
    var lastFailure: Option<ControllerFailure>

    constructor ()
      ensures controllers == [] && ValidHost(controllers)
      ensures statistics == HostStatistics(0, 0, 0, 0, 0) && lastFailure == None
    {
      controllers := [];
      statistics := HostStatistics(0, 0, 0, 0, 0);
      lastFailure := None;
    }

    method PositionOf(c: ControllerId) returns (position: nat)
      ensures position == AscendingPosition(controllers, c)
    {
      position := 0;
      while position < |controllers| && controllers[position].controller < c
        invariant position <= |controllers|
        invariant AscendingPosition(controllers, c) == position + AscendingPosition(controllers[position..], c)
      {
        position := position + 1;
      }
    }

    method AddController(h: HostedController) returns (r: Option<HostError>)
      modifies `controllers
      ensures r == match Add(old(controllers), h) case Success(_) => None case Failure(e) => Some(e)
      ensures controllers ==
        match Add(old(controllers), h) case Success(grown) => grown case Failure(_) => old(controllers)
    {
      if |controllers| >= MAXIMUM_HOSTED_CONTROLLER_COUNT { return Some(ControllerHostFull); }
      var position := PositionOf(h.controller);
      if position < |controllers| && controllers[position].controller == h.controller {
        return Some(ControllerIdDuplicate);
      }
      controllers := controllers[..position] + [h] + controllers[position..];
      return None;
    }

    method RemoveController(c: ControllerId) returns (removed: bool)
      modifies `controllers
      ensures (controllers, removed) == Remove(old(controllers), c)
    {
      var position := PositionOf(c);
      if position >= |controllers| || controllers[position].controller != c { return false; }
      controllers := controllers[..position] + controllers[position + 1..];
      return true;
    }

    method Contains(c: ControllerId) returns (r: bool)
      requires ValidHost(controllers)
      ensures r <==> c in Ids(controllers)
    {
      var position := PositionOf(c);
      r := position < |controllers| && controllers[position].controller == c;
      if r { assert c == controllers[position].controller; }
    }

    /** One pass over one retained snapshot. `decide` is what each hosted controller does with it and
        `accepts` the sink's answer to the n-th submission of the pass. */
    method DecideOnce(tick: Tick, decide: ControllerId -> Decision, accepts: (nat, Submission) -> bool)
      returns (pass: HostPass, submissions: seq<Submission>)
      modifies `statistics, `lastFailure
      ensures submissions == SubmissionsOf(controllers, decide)
      ensures pass.observed == tick
      ensures pass.failed == ThrewCount(controllers, decide) && pass.deciding + pass.failed == |controllers|
      ensures pass.decided == |submissions| && pass.accepted + pass.refused == pass.decided
      ensures pass.accepted == AcceptedCount(submissions, accepts)
      ensures lastFailure == LastFailure(controllers, decide, tick, old(lastFailure))
      ensures statistics == HostStatistics(old(statistics).passes + 1, old(statistics).decided + pass.decided,
                                           old(statistics).accepted + pass.accepted, old(statistics).refused +
                                             pass.refused,
                                           old(statistics).failed + pass.failed)
    {
      hide AcceptedCount, Stamped;
      var deciding, decided, accepted, refused, failed := 0, 0, 0, 0, 0;
      submissions := [];
      AcceptedNone(accepts);
      for i := 0 to |controllers|
        invariant submissions == SubmissionsOf(controllers[..i], decide)
        invariant failed == ThrewCount(controllers[..i], decide) && deciding + failed == i
        invariant decided == |submissions| == accepted + refused
        invariant accepted == AcceptedCount(submissions, accepts)
        invariant lastFailure == LastFailure(controllers[..i], decide, tick, old(lastFailure))
        invariant statistics == old(statistics)
      {
        var c := controllers[i];
        assert controllers[..i + 1][..i] == controllers[..i];
        match decide(c.controller) {
          case Threw(message) =>
            failed := failed + 1;
            lastFailure := Some(ControllerFailure(c.controller, c.kind, message, tick));
          case Decided(commands) =>
            deciding := deciding + 1;
            decided := decided + |commands|;
            submissions, accepted, refused :=
              SubmitAll(c.controller, commands, submissions, accepted, refused, accepts);
        }
      }
      assert controllers[..|controllers|] == controllers;
      pass := HostPass(tick, deciding, decided, accepted, refused, failed);
      statistics := HostStatistics(statistics.passes + 1, statistics.decided + decided, statistics.accepted + accepted,
                                   statistics.refused + refused, statistics.failed + failed);
    }

    /** One controller's commands, in the order it returned them; a refusal stops nothing. */
    method SubmitAll(c: ControllerId, commands: seq<Command>, before: seq<Submission>, acceptedBefore: nat,
                     refusedBefore: nat, accepts: (nat, Submission) -> bool)
      returns (submissions: seq<Submission>, accepted: nat, refused: nat)
      requires acceptedBefore == AcceptedCount(before, accepts) && acceptedBefore + refusedBefore == |before|
      ensures submissions == before + Stamped(c, commands)
      ensures accepted == AcceptedCount(submissions, accepts) && accepted + refused == |submissions|
    {
      hide Stamped, AcceptedCount;
      submissions, accepted, refused := before, acceptedBefore, refusedBefore;
      NothingStamped(c);
      assert before + [] == before && commands[..0] == [];
      for k := 0 to |commands|
        invariant submissions == before + Stamped(c, commands[..k])
        invariant accepted + refused == |submissions|
        invariant accepted == AcceptedCount(submissions, accepts)
      {
        var submission := Submission(c, commands[k]);
        var taken := accepts(|submissions|, submission);
        OneMoreStamped(c, commands, k);
        OneMoreAccepted(submissions, submission, accepts);
        assert before + Stamped(c, commands[..k]) + [submission] == before + (Stamped(c, commands[..k]) + [submission]);
        submissions := submissions + [submission];
        if taken { accepted := accepted + 1; } else { refused := refused + 1; }
      }
      assert commands[..|commands|] == commands;
    }
  }

  lemma NothingStamped(c: ControllerId)
    ensures Stamped(c, []) == []
  {
  }

  lemma OneMoreStamped(c: ControllerId, commands: seq<Command>, k: nat)
    requires k < |commands|
    ensures Stamped(c, commands[..k + 1]) == Stamped(c, commands[..k]) + [Submission(c, commands[k])]
  {
    assert commands[..k + 1] == commands[..k] + [commands[k]];
  }

  lemma OneMoreAccepted(s: seq<Submission>, x: Submission, accepts: (nat, Submission) -> bool)
    ensures AcceptedCount(s + [x], accepts) == AcceptedCount(s, accepts) + if accepts(|s|, x) then 1 else 0
  {
    assert (s + [x])[..|s|] == s;
  }

  lemma AcceptedNone(accepts: (nat, Submission) -> bool)
    ensures AcceptedCount([], accepts) == 0
  {
  }
}
