/** `sorted` of a set of days. */
module Ascending {
  import FiniteSums

  lemma {:induction false} LeastExists(s: set<int>) returns (m: int)
    requires s != {}
    ensures m in s && forall x | x in s :: m <= x
    decreases |s|
  {
    var p := FiniteSums.Pick(s);
    var rest := s - {p};
    if rest == {} {
      m := p;
      assert s == {p};
    } else {
      var least := LeastExists(rest);
      m := if least < p then least else p;
      forall x | x in s ensures m <= x {
        assert x == p || x in rest;
      }
    }
  }

  function Least(s: set<int>): (m: int)
    requires s != {}
    ensures m in s && forall x | x in s :: m <= x
  {
    LeastIn(s);
    var m :| m in s && forall x | x in s :: m <= x;
    m
  }

  lemma LeastIn(s: set<int>)
    requires s != {}
    ensures exists m :: m in s && forall x | x in s :: m <= x
  {
    var m := LeastExists(s);
  }

  predicate Increasing(q: seq<int>) {
    forall i, j | 0 <= i < j < |q| :: q[i] < q[j]
  }

  function Sorted(s: set<int>): (q: seq<int>)
    ensures Increasing(q) && |q| == |s|
    ensures forall x :: x in q <==> x in s
    decreases |s|
  {
    if s == {} then []
    else
      var m := Least(s);
      var rest := Sorted(s - {m});
      assert forall i | 0 <= i < |rest| :: rest[i] in s - {m};
      [m] + rest
  }

  /** A set has one increasing listing. */
  lemma {:induction false} OneSorted(p: seq<int>, q: seq<int>)
    requires Increasing(p) && Increasing(q) && forall x :: x in p <==> x in q
    ensures p == q
    decreases |p|
  {
    if p == [] {
      NoMembers(q);
    } else if q == [] {
      NoMembers(p);
    } else {
      SameHead(p, q);
      forall x
        ensures x in p[1..] <==> x in q[1..]
      {
        TailMembers(p, x);
        TailMembers(q, x);
      }
      OneSorted(p[1..], q[1..]);
    }
  }

  lemma {:induction false} SameHead(p: seq<int>, q: seq<int>)
    requires Increasing(p) && Increasing(q) && p != [] && q != [] && forall x :: x in p <==> x in q
    ensures p[0] == q[0]
  {
    var x, y := p[0], q[0];
    assert x in p && y in q;
    assert x in q && y in p;
  }

  lemma {:induction false} NoMembers(p: seq<int>)
    requires forall x :: x !in p
    ensures p == []
  {
    if p != [] {
      var x := HeadOf(p);
      assert false;
    }
  }

  lemma HeadOf(p: seq<int>) returns (x: int)
    requires p != []
    ensures x in p
  {
    x := p[0];
  }

  lemma TailMembers(p: seq<int>, x: int)
    requires Increasing(p) && p != []
    ensures x in p[1..] <==> x in p && x != p[0]
  {
  }
}
