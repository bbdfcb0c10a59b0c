/** The utility rule, the one comparison it feeds, and what the hysteresis bonus buys. */
module TacticalSelection {
  import opened Wrappers
  import opened Commands
  import opened PlaneArithmetic
  import opened Observations
  import opened TacticalCandidates
  import opened TacticalObjectives
  import opened TacticalScreening

  const HELD_TARGET_BONUS: real := 0.125

  predicate ValidWeights(p: Policy) {
    |p.weights| == OBJECTIVE_KIND_COUNT
  }

  function Preference(c: Candidate, p: Policy): real
    requires ValidWeights(p)
  {
    Times(Times(p.weights[Ordinal(c.key.kind)], 1.0 - c.normalizedDistance), c.opening)
  }

  function Penalty(c: Candidate, p: Policy): real {
    if c.escapeBlocked then 1.0 - p.riskTolerance else 0.0
  }

  function Score(c: Candidate, p: Policy, held: bool): real
    requires ValidWeights(p)
  {
    (Preference(c, p) - Penalty(c, p)) + (if held then HELD_TARGET_BONUS else 0.0)
  }

  function ScoreUnder(c: Candidate, p: Policy, held: Option<ObjectiveKey>): real
    requires ValidWeights(p)
  {
    Score(c, p, held == Some(c.key))
  }

  predicate KeyPrecedes(l: ObjectiveKey, r: ObjectiveKey) {
    if l.kind != r.kind then Ordinal(l.kind) < Ordinal(r.kind) else l.subject < r.subject
  }

  predicate CandidatePrecedes(l: Candidate, r: Candidate) {
    if l.squaredDistance != r.squaredDistance then l.squaredDistance < r.squaredDistance else KeyPrecedes(l.key, r.key)
  }

  /** Higher score, then nearer, then the smaller key. */
  predicate Outranks(l: Candidate, r: Candidate, p: Policy, held: Option<ObjectiveKey>)
    requires ValidWeights(p)
  {
    ScoreUnder(l, p, held) > ScoreUnder(r, p, held)
      || (ScoreUnder(l, p, held) == ScoreUnder(r, p, held) && CandidatePrecedes(l, r))
  }

  function SelectFrom(candidates: seq<Candidate>, p: Policy, held: Option<ObjectiveKey>): (r: Option<nat>)
    requires ValidWeights(p)
    ensures r.Some? ==> r.value < |candidates|
  {
    if candidates == [] then None
    else
      var n := |candidates| - 1;
      match SelectFrom(candidates[..n], p, held)
      case None => Some(n)
      case Some(best) => Some(if Outranks(candidates[n], candidates[best], p, held) then n else best)
  }

  /** The loop that keeps the best index and its score. */
  method SelectCandidate(candidates: seq<Candidate>, p: Policy, held: Option<ObjectiveKey>) returns (best: Option<nat>)
    requires ValidWeights(p)
    ensures best == SelectFrom(candidates, p, held)
  {
    hide Score;
    best := None;
    var bestScore := 0.0;
    for i := 0 to |candidates|
      invariant best == SelectFrom(candidates[..i], p, held)
      invariant best.Some? ==> bestScore == ScoreUnder(candidates[best.value], p, held)
    {
      assert candidates[..i + 1][..i] == candidates[..i];
      var score := ScoreUnder(candidates[i], p, held);
      if best.None? || score > bestScore
         || (score == bestScore && CandidatePrecedes(candidates[i], candidates[best.value])) {
        best, bestScore := Some(i), score;
      }
    }
    assert candidates[..|candidates|] == candidates;
  }

  // ---------------------------------------------------------------- a unique maximum

  lemma OrdinalIsInjective(a: ObjectiveKind, b: ObjectiveKind)
    requires Ordinal(a) == Ordinal(b)
    ensures a == b
  {
  }

  lemma OutranksIsATotalOrder(a: Candidate, b: Candidate, c: Candidate, p: Policy, held: Option<ObjectiveKey>)
    requires ValidWeights(p)
    ensures !(Outranks(a, b, p, held) && Outranks(b, a, p, held))
    ensures a.key != b.key ==> Outranks(a, b, p, held) || Outranks(b, a, p, held)
    ensures Outranks(a, b, p, held) && Outranks(b, c, p, held) ==> Outranks(a, c, p, held)
    ensures !Outranks(b, a, p, held) && !Outranks(c, b, p, held) ==> !Outranks(c, a, p, held)
  {
    hide Score;
    if Ordinal(a.key.kind) == Ordinal(b.key.kind) { OrdinalIsInjective(a.key.kind, b.key.kind); }
    if Ordinal(a.key.kind) == Ordinal(c.key.kind) { OrdinalIsInjective(a.key.kind, c.key.kind); }
    if Ordinal(c.key.kind) == Ordinal(b.key.kind) { OrdinalIsInjective(c.key.kind, b.key.kind); }
  }

  ghost predicate IsMaximum(candidates: seq<Candidate>, best: nat, p: Policy, held: Option<ObjectiveKey>)
    requires ValidWeights(p) && best < |candidates|
  {
    forall i :: 0 <= i < |candidates| ==> !Outranks(candidates[i], candidates[best], p, held)
  }

  /** Nothing is selected exactly when there is nothing to select; otherwise nothing outranks the selection. */
  lemma {:induction false} SelectionIsMaximal(candidates: seq<Candidate>, p: Policy, held: Option<ObjectiveKey>)
    requires ValidWeights(p)
    ensures SelectFrom(candidates, p, held).None? <==> candidates == []
    ensures SelectFrom(candidates, p, held).Some? ==>
      IsMaximum(candidates, SelectFrom(candidates, p, held).value, p, held)
  {
    hide ScoreUnder, CandidatePrecedes, Outranks;
    if candidates != [] {
      var n := |candidates| - 1;
      var front := candidates[..n];
      SelectionIsMaximal(front, p, held);
      var r := SelectFrom(candidates, p, held).value;
      OutranksIsATotalOrder(candidates[r], candidates[n], candidates[n], p, held);
      if front != [] {
        var best := SelectFrom(front, p, held).value;
        forall i | 0 <= i < |candidates| ensures !Outranks(candidates[i], candidates[r], p, held) {
          OutranksIsATotalOrder(candidates[r], candidates[best], candidates[i], p, held);
          OutranksIsATotalOrder(candidates[best], candidates[r], candidates[i], p, held);
          if i < n { assert front[i] == candidates[i]; }
        }
      }
    }
  }

  /** With each objective named once, the selection is the one candidate outranking every other. */
  lemma SelectionIsTheUniqueMaximum(candidates: seq<Candidate>, p: Policy, held: Option<ObjectiveKey>, i: nat)
    requires ValidWeights(p) && DistinctKeys(candidates) && i < |candidates|
    ensures SelectFrom(candidates, p, held) == Some(i) <==>
      forall j :: 0 <= j < |candidates| && j != i ==> Outranks(candidates[i], candidates[j], p, held)
  {
    hide ScoreUnder, CandidatePrecedes, Outranks;
    SelectionIsMaximal(candidates, p, held);
    var best := SelectFrom(candidates, p, held).value;
    forall j | 0 <= j < |candidates| && j != best
      ensures Outranks(candidates[best], candidates[j], p, held) && !Outranks(candidates[j], candidates[best], p, held)
    {
      OutranksIsATotalOrder(candidates[best], candidates[j], candidates[j], p, held);
    }
  }

  /** The selection depends on which candidates there are and not on the order they came in. */
  lemma SelectionIgnoresOrder(a: seq<Candidate>, b: seq<Candidate>, p: Policy, held: Option<ObjectiveKey>)
    requires ValidWeights(p) && DistinctKeys(a) && DistinctKeys(b) && (forall c :: c in a <==> c in b) && a != []
    ensures SelectFrom(a, p, held).Some? && SelectFrom(b, p, held).Some?
    ensures a[SelectFrom(a, p, held).value] == b[SelectFrom(b, p, held).value]
  {
    hide ScoreUnder, CandidatePrecedes, Outranks;
    assert a[0] in b;
    SelectionIsMaximal(a, p, held);
    SelectionIsMaximal(b, p, held);
    var x, y := a[SelectFrom(a, p, held).value], b[SelectFrom(b, p, held).value];
    assert x in b && y in a;
    var i :| 0 <= i < |b| && b[i] == x;
    var j :| 0 <= j < |a| && a[j] == y;
    OutranksIsATotalOrder(x, y, y, p, held);
    assert x.key == y.key;
    assert i == SelectFrom(b, p, held).value;
  }

  // ---------------------------------------------------------------- what a score is made of

  /** The weight a profile authors for a kind, in the order it authors them. */
  function AuthoredWeight(k: ObjectiveKind, p: Policy): real
    requires |p.weights| == 5
  {
    match k
    case Hill => p.weights[0]
    case Zone => p.weights[1]
    case RaceGate => p.weights[2]
    case RaceRecovery => p.weights[3]
    case ShoveSetup => p.weights[4]
  }

  /** A score is the authored weight times the proximity times the opening: two candidates that differ in
      nothing but their opening differ in score by that much of the difference. */
  lemma OpeningIsWorthItsShare(c: Candidate, p: Policy, held: bool, more: real, less: real)
    requires |p.weights| == 5
    ensures Score(c.(opening := more), p, held) - Score(c.(opening := less), p, held) ==
      AuthoredWeight(c.key.kind, p) * (1.0 - c.normalizedDistance) * (more - less)
  {
    var share := AuthoredWeight(c.key.kind, p) * (1.0 - c.normalizedDistance);
    Distribute(share, more, -less);
    assert share * -less == -(share * less);
  }

  /** With nothing open to it a target scores only the eighth it has for being held; blocked, it loses what
      the profile does not tolerate. */
  lemma ScoreWithoutAnOpening(c: Candidate, p: Policy, held: bool)
    requires |p.weights| == 5 && c.opening == 0.0
    ensures Score(c, p, held) ==
      (if held then 0.125 else 0.0) - (if c.escapeBlocked then 1.0 - p.riskTolerance else 0.0)
  {
  }

  /** Together: the whole score in the candidate's and the profile's own numbers. */
  lemma ScoreIsExact(c: Candidate, p: Policy, held: bool)
    requires |p.weights| == 5
    ensures Score(c, p, held) ==
      AuthoredWeight(c.key.kind, p) * (1.0 - c.normalizedDistance) * c.opening
      - (if c.escapeBlocked then 1.0 - p.riskTolerance else 0.0) + (if held then 0.125 else 0.0)
  {
    OpeningIsWorthItsShare(c, p, held, c.opening, 0.0);
    ScoreWithoutAnOpening(c.(opening := 0.0), p, held);
    assert c.(opening := c.opening) == c;
  }

  /** Equal scores go to the nearer target, then to the kind authored first, then to the smaller subject. */
  predicate WinsTheTie(l: Candidate, r: Candidate) {
    || l.squaredDistance < r.squaredDistance
    || (l.squaredDistance == r.squaredDistance
        && (|| Place(l.key.kind) < Place(r.key.kind)
            || (l.key.kind == r.key.kind && l.key.subject < r.key.subject)))
  }

  /** The place of a kind in the profile's list. */
  function Place(k: ObjectiveKind): nat {
    match k
    case Hill => 1
    case Zone => 2
    case RaceGate => 3
    case RaceRecovery => 4
    case ShoveSetup => 5
  }

  lemma OutranksMeans(l: Candidate, r: Candidate, p: Policy, held: Option<ObjectiveKey>)
    requires |p.weights| == 5
    ensures var a, b := Score(l, p, held == Some(l.key)), Score(r, p, held == Some(r.key));
      Outranks(l, r, p, held) <==> a > b || (a == b && WinsTheTie(l, r))
  {
    hide Score;
  }

  /** The selected candidate has the best score there is, and wins every tie for it. */
  lemma SelectionHasTheBestScore(candidates: seq<Candidate>, p: Policy, held: Option<ObjectiveKey>, i: nat, j: nat)
    requires |p.weights| == 5 && DistinctKeys(candidates) && i < |candidates| && j < |candidates| && i != j
    requires SelectFrom(candidates, p, held) == Some(i)
    ensures var best, other := candidates[i], candidates[j];
      var a, b := Score(best, p, held == Some(best.key)), Score(other, p, held == Some(other.key));
      a > b || (a == b && WinsTheTie(best, other))
  {
    hide Score, Outranks, WinsTheTie;
    SelectionIsTheUniqueMaximum(candidates, p, held, i);
    OutranksMeans(candidates[i], candidates[j], p, held);
  }

  // ---------------------------------------------------------------- what tolerance buys

  /** A target the bot could overshoot off the ground outranks one it could not, neither of them held,
      exactly when it is worth more by what the profile does not tolerate, or by just that and wins the tie. */
  lemma BlockedOutranksExactlyWhenWorthTheRisk(blocked: Candidate, safe: Candidate, p: Policy,
                                               held: Option<ObjectiveKey>)
    requires |p.weights| == 5 && blocked.escapeBlocked && !safe.escapeBlocked
    requires held != Some(blocked.key) && held != Some(safe.key)
    ensures
      var more := AuthoredWeight(blocked.key.kind, p) * (1.0 - blocked.normalizedDistance) * blocked.opening
                  - AuthoredWeight(safe.key.kind, p) * (1.0 - safe.normalizedDistance) * safe.opening;
      Outranks(blocked, safe, p, held) <==>
        more > 1.0 - p.riskTolerance || (more == 1.0 - p.riskTolerance && WinsTheTie(blocked, safe))
  {
    hide Score, Outranks, WinsTheTie;
    ScoreIsExact(blocked, p, false);
    ScoreIsExact(safe, p, false);
    OutranksMeans(blocked, safe, p, held);
  }

  /** Less tolerance never turns a profile from a safe target to another one: whatever it selected safely it
      still selects. */
  lemma LessToleranceKeepsASafeChoice(candidates: seq<Candidate>, p: Policy, held: Option<ObjectiveKey>,
                                      tolerance: real)
    requires |p.weights| == 5 && DistinctKeys(candidates) && tolerance <= p.riskTolerance
    requires var best := SelectFrom(candidates, p, held); best.Some? && !candidates[best.value].escapeBlocked
    ensures SelectFrom(candidates, p.(riskTolerance := tolerance), held) == SelectFrom(candidates, p, held)
  {
    hide Score, Outranks, CandidatePrecedes, SelectFrom;
    var i, q := SelectFrom(candidates, p, held).value, p.(riskTolerance := tolerance);
    SelectionIsTheUniqueMaximum(candidates, p, held, i);
    forall j | 0 <= j < |candidates| && j != i ensures Outranks(candidates[i], candidates[j], q, held) {
      SafeStaysAhead(candidates[i], candidates[j], p, q, held);
    }
    SelectionIsTheUniqueMaximum(candidates, q, held, i);
  }

  lemma SafeStaysAhead(safe: Candidate, other: Candidate, p: Policy, q: Policy, held: Option<ObjectiveKey>)
    requires |p.weights| == 5 && q == p.(riskTolerance := q.riskTolerance) && q.riskTolerance <= p.riskTolerance
    requires !safe.escapeBlocked && Outranks(safe, other, p, held)
    ensures Outranks(safe, other, q, held)
  {
    hide Preference, CandidatePrecedes;
    assert Preference(safe, q) == Preference(safe, p) && Preference(other, q) == Preference(other, p) by {
      SameWorth(safe, p, q);
      SameWorth(other, p, q);
    }
  }

  lemma SameWorth(c: Candidate, p: Policy, q: Policy)
    requires |p.weights| == 5 && q.weights == p.weights
    ensures Preference(c, q) == Preference(c, p)
  {
  }

  // ---------------------------------------------------------------- what the score can be

  lemma PreferenceIsUnit(c: Candidate, p: Policy)
    requires ValidPolicy(p) && UnitInterval(c.normalizedDistance) && UnitInterval(c.opening)
    ensures UnitInterval(Preference(c, p)) && Preference(c, p) <= 1.0 - c.normalizedDistance
  {
    hide Times;
    var w, proximity := p.weights[Ordinal(c.key.kind)], 1.0 - c.normalizedDistance;
    UnitProduct(w, proximity);
    UnitProduct(Times(w, proximity), c.opening);
  }

  /** A challenger's own score, without any bonus, is an eighth above the held one's: more, or exactly and it
      is the nearer, or as near with the smaller key. */
  predicate Replaces(challenger: Candidate, held: Candidate, p: Policy)
    requires ValidWeights(p)
  {
    var own, mark := Score(challenger, p, false), Score(held, p, false) + HELD_TARGET_BONUS;
    own > mark || (own == mark && CandidatePrecedes(challenger, held))
  }

  /** A held target is left exactly when some challenger replaces it, and then for one that does. */
  lemma SwitchingCostsAnEighth(candidates: seq<Candidate>, p: Policy, h: nat)
    requires ValidWeights(p) && DistinctKeys(candidates) && h < |candidates|
    ensures var best := SelectFrom(candidates, p, Some(candidates[h].key));
      && best.Some?
      && (best.value != h <==> exists j :: 0 <= j < |candidates| && Replaces(candidates[j], candidates[h], p))
      && (best.value != h ==> Replaces(candidates[best.value], candidates[h], p))
  {
    hide Preference, Penalty, CandidatePrecedes, Outranks;
    var held := Some(candidates[h].key);
    SelectionIsMaximal(candidates, p, held);
    var best := SelectFrom(candidates, p, held).value;
    forall j | 0 <= j < |candidates|
      ensures Outranks(candidates[j], candidates[h], p, held) <==> Replaces(candidates[j], candidates[h], p)
    {
      OutranksTheHeld(candidates[j], candidates[h], p, j == h);
    }
    if best != h { OutranksIsATotalOrder(candidates[best], candidates[h], candidates[h], p, held); }
  }

  lemma OutranksTheHeld(c: Candidate, h: Candidate, p: Policy, same: bool)
    requires ValidWeights(p) && (if same then c == h else c.key != h.key)
    ensures Outranks(c, h, p, Some(h.key)) <==> Replaces(c, h, p)
  {
    hide Preference, Penalty;
  }

  /** A profile that tolerates no risk takes a target it could overshoot off the ground, while another
      it could not is on offer, only to keep the one it already holds, and then only when that one is
      worth at least seven eighths. */
  lemma NoToleranceAvoidsBlockedTargets(o: Observation, body: PhysicsBody, p: Policy, held: Option<ObjectiveKey>)
    requires ValidObservation(o) && ValidPolicy(p) && p.riskTolerance == 0.0 && Collected(o, body, p).Success?
    requires exists c :: c in Collected(o, body, p).value.candidates && !c.escapeBlocked
    ensures var candidates := Collected(o, body, p).value.candidates;
      var best := SelectFrom(candidates, p, held);
      && best.Some?
      && (candidates[best.value].escapeBlocked ==>
            held == Some(candidates[best.value].key)
              && Preference(candidates[best.value], p) >= 1.0 - HELD_TARGET_BONUS)
  {
    hide Collected, ScreenOf, Preference, CandidatePrecedes, ArenaDiagonal, ValidObservation;
    CollectedIsSound(o, body, p);
    ScreenMeasuresTheArena(o, body, p);
    var candidates := Collected(o, body, p).value.candidates;
    SelectionIsMaximal(candidates, p, held);
    var best := SelectFrom(candidates, p, held).value;
    var c :| c in candidates && !c.escapeBlocked;
    var i :| 0 <= i < |candidates| && candidates[i] == c;
    assert !Outranks(c, candidates[best], p, held);
    BlockedIsWorthLessThanNothing(o, body, p, candidates, best);
    BlockedIsWorthLessThanNothing(o, body, p, candidates, i);
  }

  /** The held target's worth still exceeds the other's once a full penalty and the bonus are taken off it:
      by more, or by nothing and it is the nearer, or as near with the smaller key. */
  predicate Outweighs(held: Candidate, other: Candidate, p: Policy)
    requires ValidWeights(p)
  {
    var left := Preference(held, p) - (1.0 - HELD_TARGET_BONUS);
    left > Preference(other, p) || (left == Preference(other, p) && CandidatePrecedes(held, other))
  }

  /** Exactly when it does: the held target is on offer, blocked, and worth seven eighths more than every
      target that is not. */
  lemma BlockedIsKeptExactlyWhenItOutweighs(o: Observation, body: PhysicsBody, p: Policy, held: Option<ObjectiveKey>)
    requires ValidObservation(o) && ValidPolicy(p) && p.riskTolerance == 0.0 && Collected(o, body, p).Success?
    requires exists c :: c in Collected(o, body, p).value.candidates && !c.escapeBlocked
    ensures var candidates := Collected(o, body, p).value.candidates;
      var best := SelectFrom(candidates, p, held);
      && best.Some?
      && (candidates[best.value].escapeBlocked <==>
            exists h :: h in candidates && held == Some(h.key) && h.escapeBlocked &&
              forall c :: c in candidates && !c.escapeBlocked ==> Outweighs(h, c, p))
  {
    hide Collected, Outranks, Outweighs, ValidObservation, ArenaDiagonal;
    CollectedIsSound(o, body, p);
    NoToleranceAvoidsBlockedTargets(o, body, p, held);
    var candidates := Collected(o, body, p).value.candidates;
    SelectionIsMaximal(candidates, p, held);
    var best := SelectFrom(candidates, p, held).value;
    if candidates[best].escapeBlocked {
      var h := candidates[best];
      forall c | c in candidates && !c.escapeBlocked ensures Outweighs(h, c, p) {
        var i :| 0 <= i < |candidates| && candidates[i] == c;
        OutranksIsATotalOrder(h, c, c, p, held);
        HeldOutweighs(candidates, best, i, p);
      }
      assert h in candidates;
    } else {
      var c := candidates[best];
      forall h | h in candidates && held == Some(h.key) && h.escapeBlocked ensures !Outweighs(h, c, p) {
        var i :| 0 <= i < |candidates| && candidates[i] == h;
        HeldOutweighs(candidates, i, best, p);
      }
      assert c in candidates;
    }
  }

  lemma HeldOutweighs(candidates: seq<Candidate>, h: nat, c: nat, p: Policy)
    requires ValidWeights(p) && p.riskTolerance == 0.0 && DistinctKeys(candidates)
    requires h < |candidates| && c < |candidates| && candidates[h].escapeBlocked && !candidates[c].escapeBlocked
    ensures candidates[h].key != candidates[c].key
    ensures Outweighs(candidates[h], candidates[c], p) <==>
      Outranks(candidates[h], candidates[c], p, Some(candidates[h].key))
  {
    hide Preference, CandidatePrecedes;
  }

  /** So one unblocked target worth an eighth is enough: whatever is held, nothing blocked is selected. */
  lemma AnEighthRulesOutBlockedTargets(o: Observation, body: PhysicsBody, p: Policy, held: Option<ObjectiveKey>)
    requires ValidObservation(o) && ValidPolicy(p) && p.riskTolerance == 0.0 && Collected(o, body, p).Success?
    requires exists c ::
      c in Collected(o, body, p).value.candidates && !c.escapeBlocked && Preference(c, p) >= HELD_TARGET_BONUS
    ensures var candidates := Collected(o, body, p).value.candidates;
      var best := SelectFrom(candidates, p, held);
      best.Some? && !candidates[best.value].escapeBlocked
  {
    hide Collected, Preference, ValidObservation, ArenaDiagonal, ScreenOf, Score, Outweighs, SelectFrom,
      AllSoundScreened, DistinctKeys;
    CollectedIsSound(o, body, p);
    ScreenMeasuresTheArena(o, body, p);
    var candidates := Collected(o, body, p).value.candidates;
    BlockedIsKeptExactlyWhenItOutweighs(o, body, p, held);
    var c :| c in candidates && !c.escapeBlocked && Preference(c, p) >= HELD_TARGET_BONUS;
    forall h | h in candidates && h.escapeBlocked ensures !Outweighs(h, c, p) {
      var i :| 0 <= i < |candidates| && candidates[i] == h;
      BlockedIsWorthLessThanNothing(o, body, p, candidates, i);
      LightNeverOutweighs(h, c, p);
    }
  }

  lemma LightNeverOutweighs(h: Candidate, c: Candidate, p: Policy)
    requires ValidWeights(p) && Preference(h, p) < 1.0 && Preference(c, p) >= HELD_TARGET_BONUS
    ensures !Outweighs(h, c, p)
  {
  }

  lemma BlockedIsWorthLessThanNothing(o: Observation, body: PhysicsBody, p: Policy, candidates: seq<Candidate>, i: nat)
    requires ValidObservation(o) && ValidPolicy(p) && p.riskTolerance == 0.0 && ScreenOf(o, body, p).diagonal > 0.0
    requires AllSoundScreened(ScreenOf(o, body, p), candidates) && i < |candidates|
    ensures UnitInterval(Preference(candidates[i], p))
    ensures candidates[i].escapeBlocked ==> Score(candidates[i], p, false) < 0.0 && Preference(candidates[i], p) < 1.0
    ensures !candidates[i].escapeBlocked ==> Score(candidates[i], p, false) >= 0.0
  {
    hide Preference, ScreenOf, SquaredMagnitude, EscapeRay;
    var s, c := ScreenOf(o, body, p), candidates[i];
    ScreenStartsAtTheBody(o, body, p);
    assert SoundScreened(s, c);
    PreferenceIsUnit(c, p);
    MagnitudeIsPositive(s.geometry, Offset(s.origin, c.target));
    if c.escapeBlocked { assert c.target != s.origin; }
  }
}
