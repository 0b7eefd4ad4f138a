/** The single-use guard for magic-link tokens: a dictionary of consumed ids, pruned of expired ones on every call. */
module SingleUse {

  type Consumed = map<string, real>  // id -> expiry

  function Unexpired(m: Consumed, now: real): Consumed {
    map jti | jti in m && m[jti] > now :: m[jti]
  }

  datatype Use = Use(jti: string, exp: real, at: real)

  function ConsumeStep(m: Consumed, u: Use): (bool, Consumed) {
    var live := Unexpired(m, u.at);
    if u.jti in live then (false, live) else (true, live[u.jti := u.exp])
  }

  class Guard {
    var consumed: Consumed

    constructor ()
      ensures consumed == map[]
    {
      consumed := map[];
    }

    method Prune(now: real)
      modifies this
      ensures consumed == Unexpired(old(consumed), now)
    {
      var items := consumed;
      var todo := items.Keys;
      while todo != {}
        invariant todo <= items.Keys
        invariant consumed == map jti | jti in items && (jti in todo || items[jti] > now) :: items[jti]
        decreases todo
      {
        var jti :| jti in todo;
        if items[jti] <= now {
          consumed := consumed - {jti};
        }
        todo := todo - {jti};
      }
    }

    method Consume(jti: string, exp: real, t: real) returns (first: bool)
      modifies this
      ensures (first, consumed) == ConsumeStep(old(consumed), Use(jti, exp, t))
    {
      Prune(t);
      if jti in consumed {
        return false;
      }
      consumed := consumed[jti := exp];
      return true;
    }
  }

  // ----- any sequence of uses, under any clock

  /** The table after the first n uses. */
  function After(uses: seq<Use>, n: nat): Consumed
    requires n <= |uses|
  {
    if n == 0 then map[] else ConsumeStep(After(uses, n - 1), uses[n - 1]).1
  }

  predicate Accepts(uses: seq<Use>, n: nat)
    requires n < |uses|
  {
    ConsumeStep(After(uses, n), uses[n]).0
  }

  /** Use i was accepted for this id, and no clock reading since, of the first n, has reached its expiry. */
  ghost predicate Remembered(uses: seq<Use>, n: nat, jti: string, i: nat)
    requires n <= |uses|
  {
    i < n && Accepts(uses, i) && uses[i].jti == jti && forall j | i < j < n :: uses[j].at < uses[i].exp
  }

  lemma RememberedStep(uses: seq<Use>, n: nat, jti: string, i: nat)
    requires n < |uses| && i < n
    ensures Remembered(uses, n + 1, jti, i) <==> Remembered(uses, n, jti, i) && uses[n].at < uses[i].exp
  {
    hide Accepts;
  }

  lemma TableStep(uses: seq<Use>, n: nat, jti: string)
    requires n < |uses|
    ensures var u, before, after := uses[n], After(uses, n), After(uses, n + 1);
            if Accepts(uses, n) && u.jti == jti then jti in after && after[jti] == u.exp
            else (jti in after <==> jti in before && before[jti] > u.at) && (jti in after ==> after[jti] == before[jti])
    ensures Accepts(uses, n) <==> !(uses[n].jti in After(uses, n) && After(uses, n)[uses[n].jti] > uses[n].at)
  {
  }

  /** What the table holds for an id: the expiry of the one use of it that is remembered. */
  lemma {:induction false} TableMeans(uses: seq<Use>, n: nat, jti: string)
    requires n <= |uses|
    ensures jti in After(uses, n) <==> exists i: nat :: Remembered(uses, n, jti, i)
    ensures forall i: nat | Remembered(uses, n, jti, i) :: jti in After(uses, n) && After(uses, n)[jti] == uses[i].exp
  {
    hide Accepts, After, Remembered;
    if n > 0 {
      TableMeans(uses, n - 1, jti);
      TableStep(uses, n - 1, jti);
      forall i: nat
        ensures Remembered(uses, n, jti, i) <==>
                (i < n - 1 && Remembered(uses, n - 1, jti, i) && uses[n - 1].at < uses[i].exp) ||
                (i == n - 1 && Accepts(uses, i) && uses[i].jti == jti)
      {
        RememberedCases(uses, n, jti, i);
      }
      RememberedEarlier(uses, n - 1, jti);
    } else {
      NothingYet(uses, jti);
    }
  }

  lemma RememberedCases(uses: seq<Use>, n: nat, jti: string, i: nat)
    requires 0 < n <= |uses|
    ensures Remembered(uses, n, jti, i) <==>
            (i < n - 1 && Remembered(uses, n - 1, jti, i) && uses[n - 1].at < uses[i].exp) ||
            (i == n - 1 && Accepts(uses, i) && uses[i].jti == jti)
  {
    hide Accepts;
    if i < n - 1 {
      RememberedStep(uses, n - 1, jti, i);
    }
  }

  lemma RememberedEarlier(uses: seq<Use>, n: nat, jti: string)
    requires n <= |uses|
    ensures forall i: nat | Remembered(uses, n, jti, i) :: i < n && uses[i].jti == jti
  {
    hide Accepts;
  }

  lemma NothingYet(uses: seq<Use>, jti: string)
    ensures jti !in After(uses, 0) && forall i: nat :: !Remembered(uses, 0, jti, i)
  {
  }

  /**
   Exactly when a use is accepted, whatever the clock does: every earlier acceptance of the id has been followed by a
   clock reading, this use's own included, that had reached its expiry.
   */
  lemma AcceptedExactly(uses: seq<Use>, n: nat)
    requires n < |uses|
    ensures Accepts(uses, n) <==>
            forall i: nat | i < n && Accepts(uses, i) && uses[i].jti == uses[n].jti ::
              exists j :: i < j <= n && uses[j].at >= uses[i].exp
  {
    hide Accepts, After;
    var u := uses[n];
    TableMeans(uses, n, u.jti);
    TableStep(uses, n, u.jti);
    if !Accepts(uses, n) {
      var i: nat :| Remembered(uses, n, u.jti, i);
      assert After(uses, n)[u.jti] == uses[i].exp > u.at;
    } else {
      forall i: nat | i < n && Accepts(uses, i) && uses[i].jti == u.jti
        ensures exists j :: i < j <= n && uses[j].at >= uses[i].exp
      {
        if Remembered(uses, n, u.jti, i) {
          assert u.at >= uses[i].exp;
        }
      }
    }
  }

  /**
   So a replay within the lifetime of an accepted use happens exactly when a clock that had passed it was
   set back.
   */
  lemma {:induction false} ReplayExactly(uses: seq<Use>, i: nat, n: nat)
    requires i < n < |uses| && Accepts(uses, i) && uses[i].jti == uses[n].jti && uses[n].at < uses[i].exp
    requires forall k: nat | i < k < n && uses[k].jti == uses[n].jti :: !Accepts(uses, k)
    ensures Accepts(uses, n) <==> exists j :: i < j < n && uses[n].at < uses[i].exp <= uses[j].at
  {
    hide Accepts;
    AcceptedExactly(uses, n);
    AcceptedExactly(uses, i);
    if j :| i < j < n && uses[n].at < uses[i].exp <= uses[j].at {
      forall k: nat | k < n && Accepts(uses, k) && uses[k].jti == uses[n].jti
        ensures exists j :: k < j <= n && uses[j].at >= uses[k].exp
      {
        if k < i {
          var l :| k < l <= i && uses[l].at >= uses[k].exp;
        } else {
          assert k == i;
        }
      }
    }
  }

  /** Such a replay: the id's entry is pruned by a reading that is past its expiry, and then the clock is set back. */
  lemma ReplayHappens(jti: string, other: string, exp: real)
    requires jti != other
    ensures var uses := [Use(jti, exp, exp - 2.0), Use(other, exp, exp), Use(jti, exp, exp - 1.0)];
            Accepts(uses, 0) && Accepts(uses, 2) && uses[2].at < uses[0].exp
  {
    var uses := [Use(jti, exp, exp - 2.0), Use(other, exp, exp), Use(jti, exp, exp - 1.0)];
    assert After(uses, 0) == map[];
    assert Accepts(uses, 0);
    assert After(uses, 1) == map[jti := exp];
    assert jti !in After(uses, 2);
  }

  // ----- a clock that is never set back

  ghost predicate ClockNeverBack(uses: seq<Use>) {
    forall i, j | 0 <= i < j < |uses| :: uses[i].at <= uses[j].at
  }

  /** Pruning is invisible: the guard accepts exactly the uses that a full log of accepted uses would let through. */
  lemma PruningIsInvisible(uses: seq<Use>, n: nat)
    requires ClockNeverBack(uses) && n < |uses|
    ensures Accepts(uses, n) <==>
            forall i: nat | i < n && Accepts(uses, i) && uses[i].jti == uses[n].jti :: uses[n].at >= uses[i].exp
  {
    hide Accepts;
    AcceptedExactly(uses, n);
  }

  /** An id that was accepted is not accepted again before the expiry it was accepted with. */
  lemma AtMostOncePerLife(uses: seq<Use>, i: nat, n: nat)
    requires ClockNeverBack(uses) && i < n < |uses|
    requires Accepts(uses, i) && Accepts(uses, n) && uses[i].jti == uses[n].jti
    ensures uses[n].at >= uses[i].exp
  {
    PruningIsInvisible(uses, n);
  }
}
