/** The fixed-width filter that keeps the nearest opponents of one pass. */
module NearestOpponents {
  import opened Commands

  const MAXIMUM_SHOVE_CANDIDATE_COUNT: nat := 32

  datatype ShoveOpponent = ShoveOpponent(entity: EntityId, x: real, y: real, radius: real, squaredDistance: real)

  /** Nearest first, then the stable entity id. */
  predicate Precedes(left: ShoveOpponent, right: ShoveOpponent) {
    if left.squaredDistance != right.squaredDistance then left.squaredDistance < right.squaredDistance
    else left.entity < right.entity
  }

  /** Nearer, or as near under a smaller identity. */
  ghost predicate Closer(a: ShoveOpponent, b: ShoveOpponent) {
    a.squaredDistance < b.squaredDistance || (a.squaredDistance == b.squaredDistance && a.entity < b.entity)
  }

  ghost predicate Ordered(s: seq<ShoveOpponent>) {
    forall i, j :: 0 <= i < j < |s| ==> Closer(s[i], s[j])
  }

  ghost predicate DistinctEntities(s: seq<ShoveOpponent>) {
    forall i, j :: 0 <= i < j < |s| ==> s[i].entity != s[j].entity
  }

  /** The reference answer: in order, drawn from what was seen, thirty-two or all of them, and everybody kept
      closer than anybody left out. */
  ghost predicate IsNearest(kept: seq<ShoveOpponent>, seen: seq<ShoveOpponent>) {
    && Ordered(kept) && |kept| == (if |seen| < 32 then |seen| else 32)
    && (forall o :: o in kept ==> o in seen)
    && (forall o, k :: o in seen && o !in kept && k in kept ==> Closer(k, o))
  }

  /** The position the shifting loop ends at, read from the far end. */
  function InsertFromEnd(kept: seq<ShoveOpponent>, o: ShoveOpponent): seq<ShoveOpponent> {
    if kept == [] || !Precedes(o, kept[|kept| - 1]) then kept + [o]
    else InsertFromEnd(kept[..|kept| - 1], o) + [kept[|kept| - 1]]
  }

  function Offer(kept: seq<ShoveOpponent>, o: ShoveOpponent): seq<ShoveOpponent>
    requires |kept| <= MAXIMUM_SHOVE_CANDIDATE_COUNT
  {
    if |kept| < MAXIMUM_SHOVE_CANDIDATE_COUNT then InsertFromEnd(kept, o)
    else if !Precedes(o, kept[|kept| - 1]) then kept
    else InsertFromEnd(kept[..|kept| - 1], o)
  }

  /** The filter after meeting these opponents in this order. */
  function OfferAll(seen: seq<ShoveOpponent>): (kept: seq<ShoveOpponent>)
    ensures |kept| <= MAXIMUM_SHOVE_CANDIDATE_COUNT
  {
    if seen == [] then []
    else
      var before := OfferAll(seen[..|seen| - 1]);
      OfferLength(before, seen[|seen| - 1]);
      Offer(before, seen[|seen| - 1])
  }

  lemma OfferAllGrows(seen: seq<ShoveOpponent>, o: ShoveOpponent)
    ensures OfferAll(seen + [o]) == Offer(OfferAll(seen), o)
  {
    assert (seen + [o])[..|seen|] == seen;
  }

  lemma {:induction false} InsertionLength(kept: seq<ShoveOpponent>, o: ShoveOpponent)
    ensures |InsertFromEnd(kept, o)| == |kept| + 1
  {
    if kept != [] && Precedes(o, kept[|kept| - 1]) { InsertionLength(kept[..|kept| - 1], o); }
  }

  /** Shifting stops in front of the last entry that the newcomer does not precede. */
  lemma {:induction false} InsertionStopsAt(kept: seq<ShoveOpponent>, o: ShoveOpponent, index: nat)
    requires index <= |kept| && (index == 0 || !Precedes(o, kept[index - 1]))
    requires forall k :: index <= k < |kept| ==> Precedes(o, kept[k])
    ensures InsertFromEnd(kept, o) == kept[..index] + [o] + kept[index..]
  {
    if index < |kept| {
      var front := kept[..|kept| - 1];
      InsertionStopsAt(front, o, index);
      assert front[index..] + [kept[|kept| - 1]] == kept[index..];
    }
  }

  lemma OfferLength(kept: seq<ShoveOpponent>, o: ShoveOpponent)
    requires |kept| <= MAXIMUM_SHOVE_CANDIDATE_COUNT
    ensures |Offer(kept, o)| <= MAXIMUM_SHOVE_CANDIDATE_COUNT
  {
    InsertionLength(kept, o);
    if kept != [] { InsertionLength(kept[..|kept| - 1], o); }
  }

  /** After any number of distinct opponents the filter holds exactly the nearest of them, in order. */
  lemma {:induction false} FilterRefinesSorting(seen: seq<ShoveOpponent>)
    requires DistinctEntities(seen)
    ensures IsNearest(OfferAll(seen), seen)
  {
    if seen != [] {
      var before, last := seen[..|seen| - 1], seen[|seen| - 1];
      FilterRefinesSorting(before);
      OfferKeepsNearest(OfferAll(before), before, last);
      assert seen == before + [last];
    }
  }

  lemma {:induction false} InsertionKeepsOrder(kept: seq<ShoveOpponent>, o: ShoveOpponent)
    requires Ordered(kept) && forall k :: k in kept ==> k.entity != o.entity
    ensures var grown := InsertFromEnd(kept, o);
      && Ordered(grown) && |grown| == |kept| + 1
      && (forall k :: k in grown <==> k in kept || k == o)
  {
    if kept != [] && Precedes(o, kept[|kept| - 1]) {
      var front, last := kept[..|kept| - 1], kept[|kept| - 1];
      InsertionKeepsOrder(front, o);
      assert kept == front + [last];
      var grown := InsertFromEnd(front, o);
      forall i | 0 <= i < |grown| ensures Precedes(grown[i], last) {
        assert grown[i] in grown;
      }
    } else if kept != [] {
      var last := kept[|kept| - 1];
      assert last in kept;
      assert Precedes(last, o);
    }
  }

  lemma InRoomEverybodyIsKept(kept: seq<ShoveOpponent>, seen: seq<ShoveOpponent>, o: ShoveOpponent)
    requires IsNearest(kept, seen) && (forall s :: s in seen ==> s.entity != o.entity)
    requires |kept| < MAXIMUM_SHOVE_CANDIDATE_COUNT
    ensures IsNearest(InsertFromEnd(kept, o), seen + [o])
  {
    hide Closer, Ordered, InsertFromEnd;
    InsertionKeepsOrder(kept, o);
    EverybodyFits(kept, seen);
  }

  lemma LastIsFarthest(kept: seq<ShoveOpponent>, k: ShoveOpponent)
    requires Ordered(kept) && kept != [] && k in kept
    ensures k == kept[|kept| - 1] || Closer(k, kept[|kept| - 1])
  {
    var i :| 0 <= i < |kept| && kept[i] == k;
  }

  lemma CloserIsTransitive(a: ShoveOpponent, b: ShoveOpponent, c: ShoveOpponent)
    requires Closer(a, b) && Closer(b, c)
    ensures Closer(a, c)
  {
  }

  lemma FrontIsOrdered(kept: seq<ShoveOpponent>)
    requires Ordered(kept) && kept != []
    ensures Ordered(kept[..|kept| - 1])
  {
  }

  /** With the last displaced by somebody closer, whoever is left out is no closer than anybody kept. */
  lemma LeftOutIsFarther(kept: seq<ShoveOpponent>, seen: seq<ShoveOpponent>, o: ShoveOpponent, p: ShoveOpponent,
                         k: ShoveOpponent)
    requires IsNearest(kept, seen) && |kept| == MAXIMUM_SHOVE_CANDIDATE_COUNT && Closer(o, kept[|kept| - 1])
    requires p in seen && p !in kept[..|kept| - 1] && (k in kept[..|kept| - 1] || k == o)
    ensures Closer(k, p)
  {
    hide Closer, Ordered;
    var front, last := kept[..|kept| - 1], kept[|kept| - 1];
    assert kept == front + [last] && last in kept;
    if k in front { FrontIsBeforeTheLast(kept, k); }
    if p != last {
      assert p !in kept;
      CloserIsTransitive(k, last, p);
    }
  }

  lemma CloserThanTheLastIsKept(kept: seq<ShoveOpponent>, seen: seq<ShoveOpponent>, o: ShoveOpponent)
    requires IsNearest(kept, seen) && (forall s :: s in seen ==> s.entity != o.entity)
    requires |kept| == MAXIMUM_SHOVE_CANDIDATE_COUNT && Closer(o, kept[|kept| - 1])
    ensures IsNearest(InsertFromEnd(kept[..|kept| - 1], o), seen + [o])
  {
    hide InsertFromEnd, Closer, Ordered;
    var front := kept[..|kept| - 1];
    assert forall k :: k in front ==> k in kept;
    FrontIsOrdered(kept);
    InsertionKeepsOrder(front, o);
    var offered := InsertFromEnd(front, o);
    forall p, k | p in seen + [o] && p !in offered && k in offered ensures Closer(k, p) {
      LeftOutIsFarther(kept, seen, o, p, k);
    }
  }

  lemma FrontIsBeforeTheLast(kept: seq<ShoveOpponent>, k: ShoveOpponent)
    requires Ordered(kept) && kept != [] && k in kept[..|kept| - 1]
    ensures Closer(k, kept[|kept| - 1])
  {
    var i :| 0 <= i < |kept| - 1 && kept[i] == k;
  }

  lemma FartherThanTheLastIsNot(kept: seq<ShoveOpponent>, seen: seq<ShoveOpponent>, o: ShoveOpponent)
    requires IsNearest(kept, seen) && |kept| == MAXIMUM_SHOVE_CANDIDATE_COUNT && Closer(kept[|kept| - 1], o)
    ensures IsNearest(kept, seen + [o])
  {
    forall k | k in kept ensures Closer(k, o) { LastIsFarthest(kept, k); }
  }

  /** Offering one more distinct opponent turns the nearest of those seen into the nearest of those
      seen and this one. */
  lemma OfferKeepsNearest(kept: seq<ShoveOpponent>, seen: seq<ShoveOpponent>, o: ShoveOpponent)
    requires IsNearest(kept, seen) && forall s :: s in seen ==> s.entity != o.entity
    ensures IsNearest(Offer(kept, o), seen + [o])
  {
    hide InsertFromEnd, Ordered;
    if |kept| < MAXIMUM_SHOVE_CANDIDATE_COUNT {
      InRoomEverybodyIsKept(kept, seen, o);
    } else {
      var last := kept[|kept| - 1];
      assert last in kept && last in seen;
      if Precedes(o, last) { CloserThanTheLastIsKept(kept, seen, o); } else { FartherThanTheLastIsNot(kept, seen, o); }
    }
  }

  /** A filter that is not full has kept everybody it has seen. */
  lemma EverybodyFits(kept: seq<ShoveOpponent>, seen: seq<ShoveOpponent>)
    requires IsNearest(kept, seen) && |kept| < MAXIMUM_SHOVE_CANDIDATE_COUNT
    ensures forall o :: o in seen ==> o in kept
  {
    forall o | o in seen ensures o in kept {
      if o !in kept {
        OrderedIsInjective(kept);
        var s := set k | k in kept;
        var t := set k | k in seen;
        CountOrdered(kept);
        CountSeen(seen);
        assert o in t && o !in s && s <= t;
        CountProper(s, t, o);
      }
    }
  }

  lemma OrderedIsInjective(s: seq<ShoveOpponent>)
    requires Ordered(s)
    ensures forall i, j :: 0 <= i < j < |s| ==> s[i] != s[j]
  {
  }

  lemma {:induction false} CountOrdered(s: seq<ShoveOpponent>)
    requires Ordered(s)
    ensures |set k | k in s| == |s|
  {
    if s != [] {
      var front, last := s[..|s| - 1], s[|s| - 1];
      CountOrdered(front);
      assert s == front + [last];
      assert (set k | k in s) == (set k | k in front) + {last};
      assert last !in front;
    }
  }

  lemma {:induction false} CountSeen(s: seq<ShoveOpponent>)
    ensures |set k | k in s| <= |s|
  {
    if s != [] {
      var front, last := s[..|s| - 1], s[|s| - 1];
      CountSeen(front);
      assert s == front + [last];
      assert (set k | k in s) == (set k | k in front) + {last};
    }
  }

  lemma CountProper(s: set<ShoveOpponent>, t: set<ShoveOpponent>, o: ShoveOpponent)
    requires s <= t && o in t && o !in s
    ensures |s| < |t|
  {
    assert t == s + (t - s);
    assert o in t - s;
  }

  lemma {:induction false} CountDistinct(s: seq<ShoveOpponent>)
    requires DistinctEntities(s)
    ensures |set k | k in s| == |s|
  {
    if s != [] {
      var front, last := s[..|s| - 1], s[|s| - 1];
      CountDistinct(front);
      assert s == front + [last];
      assert (set k | k in s) == (set k | k in front) + {last};
      assert last !in front;
    }
  }

  /** Whom the filter keeps of a crowd depends on who is in it and not on the order they were met in. */
  lemma NearestIgnoresOrder(a: seq<ShoveOpponent>, b: seq<ShoveOpponent>)
    requires DistinctEntities(a) && DistinctEntities(b) && forall o :: o in a <==> o in b
    ensures OfferAll(a) == OfferAll(b)
  {
    hide OfferAll;
    FilterRefinesSorting(a);
    FilterRefinesSorting(b);
    CountDistinct(a);
    CountDistinct(b);
    assert (set k | k in a) == (set k | k in b);
    NearestIsUnique(a, b, OfferAll(a), OfferAll(b));
  }

  lemma NearestIsUnique(a: seq<ShoveOpponent>, b: seq<ShoveOpponent>, keptA: seq<ShoveOpponent>,
                        keptB: seq<ShoveOpponent>)
    requires IsNearest(keptA, a) && IsNearest(keptB, b) && |a| == |b| && forall o :: o in a <==> o in b
    ensures keptA == keptB
  {
    forall o ensures o in keptA <==> o in keptB {
      SameKept(a, b, keptA, keptB, o);
      SameKept(b, a, keptB, keptA, o);
    }
    OrderedIsUnique(keptA, keptB);
  }

  lemma SameKept(a: seq<ShoveOpponent>, b: seq<ShoveOpponent>, keptA: seq<ShoveOpponent>, keptB: seq<ShoveOpponent>,
                 o: ShoveOpponent)
    requires IsNearest(keptA, a) && IsNearest(keptB, b) && |keptA| == |keptB|
    requires forall o :: o in a <==> o in b
    ensures o in keptA ==> o in keptB
  {
    if o in keptA && o !in keptB {
      var s, t := set k | k in keptA, set k | k in keptB;
      CountOrdered(keptA);
      CountOrdered(keptB);
      if t <= s { CountProper(t, s, o); }
      var other :| other in t && other !in s;
      assert false;
    }
  }

  lemma {:induction false} OrderedIsUnique(a: seq<ShoveOpponent>, b: seq<ShoveOpponent>)
    requires Ordered(a) && Ordered(b) && |a| == |b| && forall o :: o in a <==> o in b
    ensures a == b
    decreases |a|
  {
    if a != [] {
      assert a[0] in b && b[0] in a;
      assert a[0] == b[0];
      assert a == [a[0]] + a[1..] && b == [b[0]] + b[1..];
      assert forall o :: o in a[1..] <==> o in a && o != a[0];
      assert forall o :: o in b[1..] <==> o in b && o != b[0];
      OrderedIsUnique(a[1..], b[1..]);
    }
  }

  class NearestFilter {
    const entries: array<ShoveOpponent>
    var count: nat
    ghost var seen: seq<ShoveOpponent>

    ghost predicate Valid()
      reads this, entries
    {
      entries.Length == MAXIMUM_SHOVE_CANDIDATE_COUNT && count <= entries.Length && IsNearest(entries[..count], seen)
    }

    constructor ()
      ensures Valid() && fresh(entries) && seen == [] && count == 0
      ensures entries[..count] == OfferAll([])
    {
      entries := new ShoveOpponent[MAXIMUM_SHOVE_CANDIDATE_COUNT](_ => ShoveOpponent(0, 0.0, 0.0, 0.0, 0.0));
      count := 0;
      seen := [];
    }

    /** Whatever was offered so far, the array holds its nearest, in order. */
    method InsertNearest(o: ShoveOpponent)
      requires Valid() && forall s :: s in seen ==> s.entity != o.entity
      modifies this, entries
      ensures Valid() && seen == old(seen) + [o]
      ensures entries[..count] == Offer(old(entries[..count]), o)
    {
      OfferKeepsNearest(entries[..count], seen, o);
      InsertIntoArray(o);
      seen := seen + [o];
    }

    method InsertIntoArray(o: ShoveOpponent)
      requires entries.Length == MAXIMUM_SHOVE_CANDIDATE_COUNT && count <= entries.Length
      modifies `count, entries
      ensures count <= entries.Length && entries[..count] == Offer(old(entries[..count]), o)
    {
      hide InsertFromEnd;
      var width := entries.Length;
      if count == width && !Precedes(o, entries[width - 1]) { return; }
      var start := if count < width then count else width - 1;
      ghost var before, kept := entries[..count], entries[..start];
      assert kept == before[..start];
      var index := start;
      while index > 0 && Precedes(o, entries[index - 1])
        invariant index <= start && count == old(count)
        invariant entries[..index] == kept[..index]
        invariant forall k :: index <= k < start ==> entries[k + 1] == kept[k] && Precedes(o, kept[k])
      {
        assert entries[index - 1] == entries[..index][index - 1];
        entries[index] := entries[index - 1];
        index := index - 1;
      }
      InsertionStopsAt(kept, o, index);
      entries[index] := o;
      if count < width { count := count + 1; }
      assert entries[..count] == kept[..index] + [o] + kept[index..];
    }
  }
}
