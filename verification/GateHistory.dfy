/** The accept gate in terms of what it was shown, without its maps. */
module GateHistory {
  import opened Severity
  import opened AcceptGate
  import opened GateRefinement

  lemma {:induction false} VerdictOfPrefix(start: Memory, calls: seq<Call>, i: nat, maxSkew: int)
    requires i < |calls|
    ensures var o, front := RunBounded(start, calls, maxSkew), RunBounded(start, calls[..i], maxSkew);
            && o.verdicts[..i] == front.verdicts
            && o.verdicts[i] == Judge(front.memory, calls[i].a, calls[i].signed, calls[i].now, maxSkew)
  {
    hide Judge, Bounded;
    var n := |calls| - 1;
    if i < n {
      VerdictOfPrefix(start, calls[..n], i, maxSkew);
      assert calls[..n][..i] == calls[..i];
    }
  }

  /** From any memory and over any calls, nothing is presented that is unsigned, out of the skew or past
      its time to live. */
  lemma OnlyInTime(start: Memory, calls: seq<Call>, i: nat, maxSkew: int)
    requires i < |calls| && RunBounded(start, calls, maxSkew).verdicts[i].Presented?
    ensures calls[i].signed && InTime(calls[i].a, calls[i].now, maxSkew)
  {
    VerdictOfPrefix(start, calls, i, maxSkew);
    hide Rank, NonceKey, RunBounded;
  }

  /** Every nonce on record came with a call that was presented. */
  ghost predicate NoncesPresented(u: Outcome, calls: seq<Call>)
    requires |u.verdicts| == |calls|
  {
    forall k | k in u.memory.seen ::
      exists i | 0 <= i < |calls| :: u.verdicts[i].Presented? && NonceKey(calls[i].a.nonce) == k
  }

  lemma {:induction false} SeenIsPresented(calls: seq<Call>, maxSkew: int)
    ensures NoncesPresented(RunUnbounded(BLANK, calls, maxSkew), calls)
  {
    if calls != [] {
      var n := |calls| - 1;
      SeenIsPresented(calls[..n], maxSkew);
      var u, u' := RunUnbounded(BLANK, calls[..n], maxSkew), RunUnbounded(BLANK, calls, maxSkew);
      hide Judge, NonceKey;
      forall k | k in u'.memory.seen
        ensures exists i | 0 <= i < |calls| :: u'.verdicts[i].Presented? && NonceKey(calls[i].a.nonce) == k
      {
        if k == NonceKey(calls[n].a.nonce) && u'.verdicts[n].Presented? {
          assert calls[n] == calls[n];
        } else {
          var i :| 0 <= i < n && u.verdicts[i].Presented? && NonceKey(calls[..n][i].a.nonce) == k;
          assert u'.verdicts[i] == u.verdicts[i] && calls[i] == calls[..n][i];
        }
      }
    }
  }

  /** No call presented before the `i`-th carried its nonce, or its id with a stamp as late. */
  ghost predicate Unrivalled(verdicts: seq<Verdict>, calls: seq<Call>, i: nat)
    requires |verdicts| == |calls| && i < |calls|
  {
    forall j | 0 <= j < i && verdicts[j].Presented? ::
      && calls[j].a.nonce != calls[i].a.nonce
      && (calls[j].a.id == calls[i].a.id ==> calls[j].a.issuedAt < calls[i].a.issuedAt)
  }

  lemma UnboundedAccepts(front: seq<Call>, c: Call, maxSkew: int)
    ensures var u := RunUnbounded(BLANK, front, maxSkew);
            var v := Judge(u.memory, c.a, c.signed, c.now, maxSkew);
            v.Presented? <==>
              c.signed && InTime(c.a, c.now, maxSkew) && Unrivalled(u.verdicts + [v], front + [c], |front|)
  {
    var u := RunUnbounded(BLANK, front, maxSkew);
    SeenIsPresented(front, maxSkew);
    UnboundedNoReplay(front, maxSkew);
    LabelsMeanHistory(front, c, maxSkew);
    hide RunUnbounded, Rank;
    UnseenIff(u, front, c);
    JudgeIff(u.memory, c, maxSkew);
    hide Judge, Unseen;
  }

  lemma JudgeIff(m: Memory, c: Call, maxSkew: int)
    ensures Judge(m, c.a, c.signed, c.now, maxSkew).Presented?
            <==> c.signed && InTime(c.a, c.now, maxSkew) && Unseen(m, c.a)
  {
    hide Rank, NonceKey;
  }

  lemma UnseenIff(u: Outcome, front: seq<Call>, c: Call)
    requires |u.verdicts| == |front| && NoncesPresented(u, front) && Remembers(u, front)
    requires c.a.id in u.memory.alerts <==> exists i :: LastPresented(u.verdicts, front, c.a.id, i)
    requires forall i | LastPresented(u.verdicts, front, c.a.id, i) ::
               u.memory.alerts[c.a.id] == Seen(front[i].a.issuedAt, front[i].a.severity)
    ensures forall v :: Unseen(u.memory, c.a) <==> Unrivalled(u.verdicts + [v], front + [c], |front|)
  {
    forall v ensures Unseen(u.memory, c.a) <==> Unrivalled(u.verdicts + [v], front + [c], |front|) {
      var n, vs, cs := |front|, u.verdicts + [v], front + [c];
      assert cs[n] == c && forall j | 0 <= j < n :: vs[j] == u.verdicts[j] && cs[j] == front[j];
      if Unrivalled(vs, cs, n) {
        if NonceKey(c.a.nonce) in u.memory.seen {
          var j :| 0 <= j < n && u.verdicts[j].Presented? && NonceKey(front[j].a.nonce) == NonceKey(c.a.nonce);
          NonceKeyInjective(front[j].a.nonce, c.a.nonce);
          assert vs[j].Presented? && cs[j].a.nonce == c.a.nonce;
        }
        if c.a.id in u.memory.alerts {
          var i :| LastPresented(u.verdicts, front, c.a.id, i);
          assert vs[i].Presented? && cs[i].a.id == c.a.id;
        }
      } else {
        var j :| 0 <= j < n && vs[j].Presented?
          && (cs[j].a.nonce == c.a.nonce || (cs[j].a.id == c.a.id && cs[j].a.issuedAt >= c.a.issuedAt));
        assert u.verdicts[j].Presented? && front[j] == cs[j];
      }
    }
  }

  /** What the gate accepts, without its maps: over every run with a clock that does not go back and
      nonces that determine their envelopes, a call is presented if and only if it is signed and in time
      and nothing presented before it had its nonce, or its id with a stamp as late. */
  lemma AcceptsExactly(calls: seq<Call>, i: nat, maxSkew: int)
    requires i < |calls| && ClockMonotone(calls) && FreshNonces(calls)
    ensures var verdicts := RunBounded(BLANK, calls, maxSkew).verdicts;
            verdicts[i].Presented? <==>
              calls[i].signed && InTime(calls[i].a, calls[i].now, maxSkew) && Unrivalled(verdicts, calls, i)
  {
    var c, front := calls[i], calls[..i];
    var b, u := RunBounded(BLANK, calls, maxSkew).verdicts, RunUnbounded(BLANK, calls, maxSkew).verdicts;
    GateRefines(calls, maxSkew);
    UnboundedVerdictOfPrefix(calls, i, maxSkew);
    UnboundedAccepts(front, c, maxSkew);
    hide RunBounded, RunUnbounded, Forgets, NoncesFrom, FreshNonces, ClockMonotone, InTime, Judge;
    forall j | 0 <= j <= i ensures b[j].Presented? <==> u[j].Presented? {
      assert Agrees(b[j], u[j]);
    }
    hide Agrees;
    SameRivals(b, u, calls, i);
  }

  lemma SameRivals(b: seq<Verdict>, u: seq<Verdict>, calls: seq<Call>, i: nat)
    requires i < |calls| == |b| == |u|
    requires forall j | 0 <= j <= i :: b[j].Presented? <==> u[j].Presented?
    ensures Unrivalled(b, calls, i) <==> Unrivalled(u[..i] + [u[i]], calls[..i] + [calls[i]], i)
  {
    var vs, cs := u[..i] + [u[i]], calls[..i] + [calls[i]];
    assert forall j | 0 <= j <= i :: vs[j] == u[j] && cs[j] == calls[j];
    assert forall j {:trigger b[j]} | 0 <= j <= i :: b[j].Presented? <==> vs[j].Presented?;
    assert forall j {:trigger calls[j]} | 0 <= j <= i :: cs[j] == calls[j];
  }

  lemma {:induction false} UnboundedVerdictOfPrefix(calls: seq<Call>, i: nat, maxSkew: int)
    requires i < |calls|
    ensures var o, front := RunUnbounded(BLANK, calls, maxSkew), RunUnbounded(BLANK, calls[..i], maxSkew);
            && o.verdicts[..i] == front.verdicts
            && o.verdicts[i] == Judge(front.memory, calls[i].a, calls[i].signed, calls[i].now, maxSkew)
  {
    hide Judge, Unbounded;
    var n := |calls| - 1;
    if i < n {
      UnboundedVerdictOfPrefix(calls[..n], i, maxSkew);
      assert calls[..n][..i] == calls[..i];
    }
  }
}
