/** Forgetting old records never changes what the gate accepts. */
module GateRefinement {
  import opened AcceptGate
  import opened Severity

  /** One call: the envelope, whether its signature verified, and the clock. */
  datatype Call = Call(a: Envelope, signed: bool, now: int)

  datatype Outcome = Outcome(memory: Memory, verdicts: seq<Verdict>)

  function RunBounded(start: Memory, calls: seq<Call>, maxSkew: int): (o: Outcome)
    ensures |o.verdicts| == |calls|
  {
    if calls == [] then Outcome(start, [])
    else
      var o, c := RunBounded(start, calls[..|calls| - 1], maxSkew), calls[|calls| - 1];
      Outcome(Bounded(o.memory, c.a, c.signed, c.now, maxSkew),
              o.verdicts + [Judge(o.memory, c.a, c.signed, c.now, maxSkew)])
  }

  function RunUnbounded(start: Memory, calls: seq<Call>, maxSkew: int): (o: Outcome)
    ensures |o.verdicts| == |calls|
  {
    if calls == [] then Outcome(start, [])
    else
      var o, c := RunUnbounded(start, calls[..|calls| - 1], maxSkew), calls[|calls| - 1];
      Outcome(Unbounded(o.memory, c.a, c.signed, c.now, maxSkew),
              o.verdicts + [Judge(o.memory, c.a, c.signed, c.now, maxSkew)])
  }

  ghost predicate ClockMonotone(calls: seq<Call>) {
    forall i, j | 0 <= i < j < |calls| :: calls[i].now <= calls[j].now
  }

  /** The server never signs two different envelopes with one nonce. */
  ghost predicate FreshNonces(calls: seq<Call>) {
    forall i, j | 0 <= i < |calls| && 0 <= j < |calls| ::
      calls[i].signed && calls[j].signed && calls[i].a.nonce == calls[j].a.nonce ==> calls[i].a == calls[j].a
  }

  lemma NonceKeyInjective(x: string, y: string)
    requires NonceKey(x) == NonceKey(y)
    ensures x == y
  {
    assert NonceKey(x)[2..] == x && NonceKey(y)[2..] == y;
  }

  /** What the swept memory `b` may have forgotten of the full one `u` when the clock shows `now`. */
  ghost predicate Forgets(b: Memory, u: Memory, now: int, maxSkew: int) {
    && (forall k | k in b.seen :: k in u.seen && b.seen[k] == u.seen[k])
    && (forall k | k in u.seen && k !in b.seen :: now - u.seen[k] > maxSkew)
    && (forall k | k in b.alerts :: k in u.alerts && b.alerts[k] == u.alerts[k])
    && (forall k | k in u.alerts && k !in b.alerts :: now - u.alerts[k].issuedAt > maxSkew)
  }

  /** Every nonce on record came with an envelope of these calls, stamped as recorded. */
  ghost predicate NoncesFrom(u: Memory, calls: seq<Call>) {
    forall k | k in u.seen ::
      exists i | 0 <= i < |calls| ::
        calls[i].signed && NonceKey(calls[i].a.nonce) == k && calls[i].a.issuedAt == u.seen[k]
  }

  /** The same verdict, except that a forgotten id is presented as new. */
  ghost predicate Agrees(b: Verdict, u: Verdict) {
    b == u || (b == Presented(New) && u.Presented?)
  }

  lemma VerdictsAgree(b: Memory, u: Memory, c: Call, now: int, maxSkew: int)
    requires Forgets(b, u, now, maxSkew) && now <= c.now
    requires c.signed && NonceKey(c.a.nonce) in u.seen ==> u.seen[NonceKey(c.a.nonce)] == c.a.issuedAt
    ensures var vb := Judge(b, c.a, c.signed, c.now, maxSkew);
            var vu := Judge(u, c.a, c.signed, c.now, maxSkew);
            && Agrees(vb, vu)
            && (vb != vu ==> c.a.id in u.alerts && c.a.id !in b.alerts)
  {
    hide Rank, NonceKey;
  }

  lemma StepForgets(b: Memory, u: Memory, c: Call, now: int, maxSkew: int)
    requires Forgets(b, u, now, maxSkew) && now <= c.now
    requires c.signed && NonceKey(c.a.nonce) in u.seen ==> u.seen[NonceKey(c.a.nonce)] == c.a.issuedAt
    ensures Forgets(Bounded(b, c.a, c.signed, c.now, maxSkew), Unbounded(u, c.a, c.signed, c.now, maxSkew),
                    c.now, maxSkew)
  {
    VerdictsAgree(b, u, c, now, maxSkew);
    hide Judge, NonceKey;
    assert Forgets(b, u, c.now, maxSkew);
    RecordForgets(b, u, c.a, c.now, maxSkew);
    SweepForgets(Record(b, c.a), Record(u, c.a), c.now, maxSkew);
    hide Forgets, Record, Sweep;
  }

  lemma RecordForgets(b: Memory, u: Memory, a: Envelope, now: int, maxSkew: int)
    requires Forgets(b, u, now, maxSkew)
    ensures Forgets(Record(b, a), Record(u, a), now, maxSkew)
  {
    hide NonceKey;
  }

  lemma SweepForgets(b: Memory, u: Memory, now: int, maxSkew: int)
    requires Forgets(b, u, now, maxSkew)
    ensures Forgets(Sweep(b, now, maxSkew), u, now, maxSkew)
  {
  }

  /** An envelope whose nonce is on record is the envelope that brought it. */
  lemma NonceFixesStamp(u: Memory, front: seq<Call>, c: Call)
    requires NoncesFrom(u, front) && FreshNonces(front + [c])
    requires c.signed && NonceKey(c.a.nonce) in u.seen
    ensures u.seen[NonceKey(c.a.nonce)] == c.a.issuedAt
  {
    var k := NonceKey(c.a.nonce);
    var i :| 0 <= i < |front| && front[i].signed && NonceKey(front[i].a.nonce) == k && front[i].a.issuedAt == u.seen[k];
    NonceKeyInjective(front[i].a.nonce, c.a.nonce);
    var calls := front + [c];
    assert calls[i] == front[i] && calls[|front|] == c;
  }

  /** Over every run with a clock that does not go back and nonces that determine their envelopes,
      the gate accepts exactly what the gate that never forgets accepts. Where they differ at all,
      a renewal or escalation of a forgotten id is presented as new. */
  lemma {:induction false} GateRefines(calls: seq<Call>, maxSkew: int)
    requires ClockMonotone(calls) && FreshNonces(calls)
    ensures var b, u := RunBounded(BLANK, calls, maxSkew), RunUnbounded(BLANK, calls, maxSkew);
            && (forall i | 0 <= i < |calls| :: Agrees(b.verdicts[i], u.verdicts[i]))
            && (calls != [] ==> Forgets(b.memory, u.memory, calls[|calls| - 1].now, maxSkew))
            && NoncesFrom(u.memory, calls)
  {
    if calls != [] {
      hide Forgets, NoncesFrom, Judge, Bounded, Unbounded, Agrees;
      var n := |calls| - 1;
      var front, c := calls[..n], calls[n];
      assert calls == front + [c];
      GateRefines(front, maxSkew);
      hide FreshNonces;
      var b, u := RunBounded(BLANK, front, maxSkew), RunUnbounded(BLANK, front, maxSkew);
      if n == 0 {
        NothingForgotten(c.now, maxSkew);
      }
      OneMoreRefined(b.memory, u.memory, front, c, if n == 0 then c.now else calls[n - 1].now, maxSkew);
    }
  }

  lemma OneMoreRefined(b: Memory, u: Memory, front: seq<Call>, c: Call, now: int, maxSkew: int)
    requires Forgets(b, u, now, maxSkew) && now <= c.now
    requires NoncesFrom(u, front) && FreshNonces(front + [c])
    ensures var b', u' := Bounded(b, c.a, c.signed, c.now, maxSkew), Unbounded(u, c.a, c.signed, c.now, maxSkew);
            && Agrees(Judge(b, c.a, c.signed, c.now, maxSkew), Judge(u, c.a, c.signed, c.now, maxSkew))
            && Forgets(b', u', c.now, maxSkew) && NoncesFrom(u', front + [c])
  {
    hide *;
    if c.signed && NonceKey(c.a.nonce) in u.seen {
      NonceFixesStamp(u, front, c);
    }
    VerdictsAgree(b, u, c, now, maxSkew);
    StepForgets(b, u, c, now, maxSkew);
    NoncesStep(u, front, c, maxSkew);
  }

  lemma NothingForgotten(now: int, maxSkew: int)
    ensures Forgets(BLANK, BLANK, now, maxSkew)
  {
  }

  lemma NoncesStep(u: Memory, front: seq<Call>, c: Call, maxSkew: int)
    requires NoncesFrom(u, front)
    ensures NoncesFrom(Unbounded(u, c.a, c.signed, c.now, maxSkew), front + [c])
  {
    var calls, u' := front + [c], Unbounded(u, c.a, c.signed, c.now, maxSkew);
    forall k | k in u'.seen
      ensures exists i | 0 <= i < |calls| ::
                calls[i].signed && NonceKey(calls[i].a.nonce) == k && calls[i].a.issuedAt == u'.seen[k]
    {
      if u' != u && k == NonceKey(c.a.nonce) {
        assert calls[|front|].signed;
      } else {
        var i :| 0 <= i < |front| && front[i].signed && NonceKey(front[i].a.nonce) == k
            && front[i].a.issuedAt == u.seen[k];
        assert calls[i] == front[i];
      }
    }
  }

  // ---- replays ----

  /** What the never-forgetting gate has on record about the calls it presented. */
  ghost predicate Remembers(u: Outcome, calls: seq<Call>)
    requires |u.verdicts| == |calls|
  {
    forall i | 0 <= i < |calls| && u.verdicts[i].Presented? ::
      && NonceKey(calls[i].a.nonce) in u.memory.seen
      && calls[i].a.id in u.memory.alerts
      && calls[i].a.issuedAt <= u.memory.alerts[calls[i].a.id].issuedAt
  }

  /** Of two presented calls the later one has another nonce and, for the same id, a later stamp. */
  ghost predicate NoReplay(verdicts: seq<Verdict>, calls: seq<Call>)
    requires |verdicts| == |calls|
  {
    forall i, j | 0 <= i < j < |calls| && verdicts[i].Presented? && verdicts[j].Presented? ::
      && calls[i].a.nonce != calls[j].a.nonce
      && (calls[i].a.id == calls[j].a.id ==> calls[i].a.issuedAt < calls[j].a.issuedAt)
  }

  lemma {:induction false} UnboundedNoReplay(calls: seq<Call>, maxSkew: int)
    ensures var u := RunUnbounded(BLANK, calls, maxSkew);
            Remembers(u, calls) && NoReplay(u.verdicts, calls)
  {
    if calls != [] {
      var n := |calls| - 1;
      UnboundedNoReplay(calls[..n], maxSkew);
      NoReplayStep(RunUnbounded(BLANK, calls[..n], maxSkew), calls[..n], calls[n], maxSkew);
      hide Remembers, NoReplay, Judge, Unbounded;
      assert calls == calls[..n] + [calls[n]];
    }
  }

  lemma NoReplayStep(u: Outcome, front: seq<Call>, c: Call, maxSkew: int)
    requires |u.verdicts| == |front| && Remembers(u, front) && NoReplay(u.verdicts, front)
    ensures var u' := Outcome(Unbounded(u.memory, c.a, c.signed, c.now, maxSkew),
                              u.verdicts + [Judge(u.memory, c.a, c.signed, c.now, maxSkew)]);
            Remembers(u', front + [c]) && NoReplay(u'.verdicts, front + [c])
  {
    hide Rank, NonceKey;
  }

  /** So the real gate accepts no envelope twice, and accepted stamps of one id strictly increase,
      although it keeps records for `maxSkew` seconds only. */
  lemma GateNoReplay(calls: seq<Call>, maxSkew: int)
    requires ClockMonotone(calls) && FreshNonces(calls)
    ensures NoReplay(RunBounded(BLANK, calls, maxSkew).verdicts, calls)
  {
    GateRefines(calls, maxSkew);
    UnboundedNoReplay(calls, maxSkew);
    var b, u := RunBounded(BLANK, calls, maxSkew), RunUnbounded(BLANK, calls, maxSkew);
    forall i | 0 <= i < |calls| ensures b.verdicts[i].Presented? <==> u.verdicts[i].Presented? {
      assert Agrees(b.verdicts[i], u.verdicts[i]);
    }
  }

  /** What the labels mean: after any calls, an envelope is presented as new exactly when no call
      with its id was ever presented, and otherwise as an escalation exactly when its severity
      outranks the last one presented under that id. */
  lemma LabelsMeanHistory(calls: seq<Call>, c: Call, maxSkew: int)
    ensures var u := RunUnbounded(BLANK, calls, maxSkew);
            var v := Judge(u.memory, c.a, c.signed, c.now, maxSkew);
            && (c.a.id in u.memory.alerts <==> exists i :: LastPresented(u.verdicts, calls, c.a.id, i))
            && forall i | LastPresented(u.verdicts, calls, c.a.id, i) ::
                 && u.memory.alerts[c.a.id] == Seen(calls[i].a.issuedAt, calls[i].a.severity)
                 && (v.Presented? ==>
                       v.kind == if Rank(c.a.severity) > Rank(calls[i].a.severity) then Escalation else Renewal)
  {
    RecordsMatch(calls, c.a.id, maxSkew);
    hide Rank, NonceKey, RunUnbounded, LastPresented;
  }

  /** The record of an id is that of the last call presented under it. */
  ghost predicate Recorded(m: Memory, verdicts: seq<Verdict>, calls: seq<Call>, id: string)
    requires |verdicts| == |calls|
  {
    && (id in m.alerts <==> exists i :: LastPresented(verdicts, calls, id, i))
    && forall i | LastPresented(verdicts, calls, id, i) ::
         m.alerts[id] == Seen(calls[i].a.issuedAt, calls[i].a.severity)
  }

  lemma {:induction false} RecordsMatch(calls: seq<Call>, id: string, maxSkew: int)
    ensures var u := RunUnbounded(BLANK, calls, maxSkew);
            Recorded(u.memory, u.verdicts, calls, id)
  {
    if calls != [] {
      var n := |calls| - 1;
      RecordsMatch(calls[..n], id, maxSkew);
      RecordStep(RunUnbounded(BLANK, calls[..n], maxSkew), calls[..n], calls[n], id, maxSkew);
      hide Recorded, Judge, Unbounded;
      assert calls == calls[..n] + [calls[n]];
    }
  }

  lemma RecordStep(u: Outcome, front: seq<Call>, last: Call, id: string, maxSkew: int)
    requires |u.verdicts| == |front| && Recorded(u.memory, u.verdicts, front, id)
    ensures var v := Judge(u.memory, last.a, last.signed, last.now, maxSkew);
            Recorded(Unbounded(u.memory, last.a, last.signed, last.now, maxSkew), u.verdicts + [v], front + [last], id)
  {
    hide Rank, NonceKey, LastPresented;
    var v := Judge(u.memory, last.a, last.signed, last.now, maxSkew);
    LastPresentedStep(u.verdicts, front, v, last, id);
    LastPresentedRange(u.verdicts, front, id);
    hide Judge;
    var vs, cs := u.verdicts + [v], front + [last];
    if v.Presented? && last.a.id == id {
      assert LastPresented(vs, cs, id, |front|);
    } else if exists i :: LastPresented(u.verdicts, front, id, i) {
      var i :| LastPresented(u.verdicts, front, id, i);
      assert LastPresented(vs, cs, id, i);
    }
  }

  lemma LastPresentedRange(verdicts: seq<Verdict>, calls: seq<Call>, id: string)
    requires |verdicts| == |calls|
    ensures forall i | LastPresented(verdicts, calls, id, i) :: 0 <= i < |calls|
  {
  }

  lemma LastPresentedStep(verdicts: seq<Verdict>, calls: seq<Call>, v: Verdict, last: Call, id: string)
    requires |verdicts| == |calls|
    ensures forall i :: LastPresented(verdicts + [v], calls + [last], id, i) <==>
                          if v.Presented? && last.a.id == id then i == |calls|
                              else LastPresented(verdicts, calls, id, i)
  {
    var n, vs, cs := |calls|, verdicts + [v], calls + [last];
    assert vs[n] == v && cs[n] == last;
    assert forall j {:trigger verdicts[j]} | 0 <= j < n :: vs[j] == verdicts[j];
    assert forall j {:trigger calls[j]} | 0 <= j < n :: cs[j] == calls[j];
    forall i ensures LastPresented(vs, cs, id, i) <==>
                       if v.Presented? && last.a.id == id then i == n else LastPresented(verdicts, calls, id, i)
    {
      if 0 <= i < n {
        assert vs[i] == verdicts[i] && cs[i] == calls[i];
      }
    }
  }

  /** The `i`-th call was presented under `id`, and no later one was. */
  ghost predicate LastPresented(verdicts: seq<Verdict>, calls: seq<Call>, id: string, i: int)
    requires |verdicts| == |calls|
  {
    && 0 <= i < |calls| && verdicts[i].Presented? && calls[i].a.id == id
    && forall j | i < j < |calls| && calls[j].a.id == id :: !verdicts[j].Presented?
  }

  /** RenewAlert: the same alert under a new stamp and nonce. */
  function Renew(a: Envelope, stamp: int, nonce: string): Envelope {
    a.(issuedAt := stamp, nonce := nonce)
  }

  /** A client that presented an alert takes a renewal that arrives in time as a quiet one, exactly
      if the nonce is fresh and the second has changed; else it is dropped as a replay. */
  lemma RenewalIsQuiet(m: Memory, a: Envelope, now: int, stamp: int, nonce: string, later: int, maxSkew: int)
    requires Judge(m, a, true, now, maxSkew).Presented?
    requires NonceKey(nonce) !in m.seen && InTime(Renew(a, stamp, nonce), later, maxSkew)
    ensures Judge(Bounded(m, a, true, now, maxSkew), Renew(a, stamp, nonce), true, later, maxSkew)
            == if nonce == a.nonce || stamp <= a.issuedAt then Dropped(Dup) else Presented(Renewal)
  {
    if NonceKey(nonce) == NonceKey(a.nonce) {
      NonceKeyInjective(nonce, a.nonce);
    }
    hide Rank, NonceKey;
  }

  /** Both records of an accepted envelope. */
  ghost predicate OnRecord(m: Memory, a: Envelope) {
    && NonceKey(a.nonce) in m.seen && m.seen[NonceKey(a.nonce)] == a.issuedAt
    && a.id in m.alerts && m.alerts[a.id] == Seen(a.issuedAt, a.severity)
  }

  /** No trace of it. */
  ghost predicate OffRecord(m: Memory, a: Envelope) {
    NonceKey(a.nonce) !in m.seen && a.id !in m.alerts
  }

  /** None of the calls that were presented came too late for the record of `a`. */
  ghost predicate NoneSweeps(verdicts: seq<Verdict>, calls: seq<Call>, a: Envelope, maxSkew: int)
    requires |verdicts| == |calls|
  {
    forall i | 0 <= i < |calls| && verdicts[i].Presented? :: calls[i].now - a.issuedAt <= maxSkew
  }

  ghost predicate OtherEnvelopes(calls: seq<Call>, a: Envelope) {
    forall i | 0 <= i < |calls| :: calls[i].a.nonce != a.nonce && calls[i].a.id != a.id
  }

  lemma OtherCallKeeps(m: Memory, a: Envelope, c: Call, maxSkew: int)
    requires c.a.nonce != a.nonce && c.a.id != a.id
    ensures var v, m' := Judge(m, c.a, c.signed, c.now, maxSkew), Bounded(m, c.a, c.signed, c.now, maxSkew);
            && (OffRecord(m, a) ==> OffRecord(m', a))
            && (OnRecord(m, a) ==>
                  if v.Presented? && c.now - a.issuedAt > maxSkew then OffRecord(m', a) else OnRecord(m', a))
  {
    if NonceKey(a.nonce) == NonceKey(c.a.nonce) {
      NonceKeyInjective(a.nonce, c.a.nonce);
    }
    hide NonceKey, Judge;
  }

  /** The nonce of an accepted envelope stays on record over any calls with other nonces, if and only if
      none of those presented came too late for it. */
  lemma {:induction false} NonceSurvives(m: Memory, a: Envelope, calls: seq<Call>, maxSkew: int)
    requires NonceKey(a.nonce) in m.seen && m.seen[NonceKey(a.nonce)] == a.issuedAt
    requires forall i | 0 <= i < |calls| :: calls[i].a.nonce != a.nonce
    ensures var o := RunBounded(m, calls, maxSkew);
            && (NonceKey(a.nonce) in o.memory.seen <==> NoneSweeps(o.verdicts, calls, a, maxSkew))
            && (NonceKey(a.nonce) in o.memory.seen ==> o.memory.seen[NonceKey(a.nonce)] == a.issuedAt)
  {
    if calls != [] {
      var n := |calls| - 1;
      NonceSurvives(m, a, calls[..n], maxSkew);
      if NonceKey(a.nonce) == NonceKey(calls[n].a.nonce) {
        NonceKeyInjective(a.nonce, calls[n].a.nonce);
      }
      hide NonceKey, Judge, NoneSweeps;
      SweepsSnoc(RunBounded(m, calls, maxSkew).verdicts, calls, a, maxSkew);
    }
  }

  /** The records of an envelope survive any calls with others if and only if none of those presented
      came too late for them. */
  lemma {:induction false} RecordSurvives(m: Memory, a: Envelope, calls: seq<Call>, maxSkew: int)
    requires OnRecord(m, a) && OtherEnvelopes(calls, a)
    ensures var o := RunBounded(m, calls, maxSkew);
            if NoneSweeps(o.verdicts, calls, a, maxSkew) then OnRecord(o.memory, a) else OffRecord(o.memory, a)
  {
    if calls != [] {
      var n := |calls| - 1;
      RecordSurvives(m, a, calls[..n], maxSkew);
      OtherCallKeeps(RunBounded(m, calls[..n], maxSkew).memory, a, calls[n], maxSkew);
      hide OnRecord, OffRecord, Judge, Bounded;
      SweepsSnoc(RunBounded(m, calls, maxSkew).verdicts, calls, a, maxSkew);
    }
  }

  lemma SweepsSnoc(verdicts: seq<Verdict>, calls: seq<Call>, a: Envelope, maxSkew: int)
    requires |verdicts| == |calls| > 0
    ensures var n := |calls| - 1;
            NoneSweeps(verdicts, calls, a, maxSkew)
            <==> NoneSweeps(verdicts[..n], calls[..n], a, maxSkew)
                 && (verdicts[n].Presented? ==> calls[n].now - a.issuedAt <= maxSkew)
  {
    var n := |calls| - 1;
    forall i | 0 <= i < n ensures verdicts[..n][i] == verdicts[i] && calls[..n][i] == calls[i] {}
    assert NoneSweeps(verdicts[..n], calls[..n], a, maxSkew) ==>
        forall i | 0 <= i < n && verdicts[i].Presented? :: calls[i].now - a.issuedAt <= maxSkew by {
      forall i | 0 <= i < n && verdicts[i].Presented? && NoneSweeps(verdicts[..n], calls[..n], a, maxSkew)
        ensures calls[i].now - a.issuedAt <= maxSkew
      {
        assert verdicts[..n][i].Presented?;
      }
    }
  }

  /** The premise on the clock is needed: after any calls with other envelopes, an envelope accepted
      before them and brought again with the clock set back is accepted a second time, as new, exactly
      if one of those calls was presented late enough to sweep its records. */
  lemma ClockSetBackAdmitsReplay(m: Memory, a: Envelope, at: int, calls: seq<Call>, maxSkew: int)
    requires Judge(m, a, true, at, maxSkew).Presented? && OtherEnvelopes(calls, a)
    ensures var o := RunBounded(Bounded(m, a, true, at, maxSkew), calls, maxSkew);
            Judge(o.memory, a, true, at, maxSkew)
            == if NoneSweeps(o.verdicts, calls, a, maxSkew) then Dropped(Dup) else Presented(New)
  {
    hide NonceKey, Rank, RunBounded, NoneSweeps, OtherEnvelopes;
    assert OnRecord(Bounded(m, a, true, at, maxSkew), a);
    RecordSurvives(Bounded(m, a, true, at, maxSkew), a, calls, maxSkew);
  }
}
