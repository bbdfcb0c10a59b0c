/** The ascending enumeration of a finite set of identities: the order a std::map is walked in. */
module AscendingKeys {

  ghost predicate StrictlyAscending(s: seq<nat>) {
    forall i, j :: 0 <= i < j < |s| ==> s[i] < s[j]
  }

  ghost predicate IsLeast(k: nat, s: set<nat>) {
    k in s && forall other :: other in s ==> k <= other
  }

  lemma LeastExists(s: set<nat>)
    requires s != {}
    ensures exists k :: IsLeast(k, s)
  {
    var some :| some in s;
    var rest := s - {some};
    assert forall k :: k in s ==> k == some || k in rest;
    if rest == {} {
      assert IsLeast(some, s);
    } else {
      LeastExists(rest);
      var least :| IsLeast(least, rest);
      assert IsLeast(if some < least then some else least, s);
    }
  }

  ghost function Least(s: set<nat>): (k: nat)
    requires s != {}
    ensures IsLeast(k, s)
  {
    LeastExists(s);
    var k :| IsLeast(k, s);
    k
  }

  ghost function Ascending(s: set<nat>): (order: seq<nat>)
    ensures forall k :: k in order <==> k in s
  {
    if s == {} then [] else [Least(s)] + Ascending(s - {Least(s)})
  }

  lemma {:induction false} AscendingIsAscending(s: set<nat>)
    ensures StrictlyAscending(Ascending(s))
  {
    if s != {} {
      var rest := Ascending(s - {Least(s)});
      AscendingIsAscending(s - {Least(s)});
      forall j | 0 <= j < |rest| ensures Least(s) < rest[j] {
        assert rest[j] in rest;
      }
      assert Ascending(s) == [Least(s)] + rest;
    }
  }

  /** Where an ascending iterator over these keys stands. */
  method LeastOf(s: set<nat>) returns (k: nat)
    requires s != {}
    ensures k == Least(s)
    ensures Ascending(s) == [k] + Ascending(s - {k})
  {
    LeastExists(s);
    assert IsLeast(Least(s), s);
    k :| k in s && forall other :: other in s ==> k <= other;
  }
}
