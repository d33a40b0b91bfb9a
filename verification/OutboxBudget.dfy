/** How many Sends a job can cost, and what an outlived lease does. */
module OutboxBudget {
  import opened Outbox
  import opened OutboxRuns

  /** No worker dies and every mark is written. */
  predicate FaultFree(steps: seq<Step>) {
    forall i | 0 <= i < |steps| :: Faultless(steps[i])
  }

  predicate Faultless(s: Step) {
    !s.AbandonStep? && (s.MarkStep? ==> s.written)
  }

  ghost predicate InHand(held: seq<Held>, id: int) {
    exists h | h in held :: h.claim.id == id
  }

  /** Every Send answers to a claim, and a pending job nobody holds has attempts left. */
  ghost predicate JobFrugal(cfg: Config, w: World, i: nat)
    requires Fits(w) && i < |w.jobs|
  {
    var j, l := w.jobs[i], w.ledgers[i];
    && j.maxAttempts == cfg.maxAttempts
    && j.attempts <= cfg.maxAttempts
    && l.sends <= l.claims
    && (j.status.Pending? && !InHand(w.held, i) ==> j.attempts < cfg.maxAttempts)
  }

  ghost predicate Frugal(cfg: Config, w: World)
    requires Fits(w)
  {
    && (forall i | 0 <= i < |w.jobs| :: JobFrugal(cfg, w, i))
    && (forall h | h in w.held && h.sending.None? :: w.ledgers[h.claim.id].sends < w.ledgers[h.claim.id].claims)
  }

  lemma EnqueueFrugal(cfg: Config, senders: set<string>, w: World, s: Step)
    requires Sensible(cfg) && Safe(cfg, w) && Frugal(cfg, w) && s.EnqueueStep?
    ensures Frugal(cfg, Exec(cfg, senders, w, s))
  {
    var w' := Exec(cfg, senders, w, s);
    assert w'.held == w.held;
    forall i | 0 <= i < |w'.jobs| ensures JobFrugal(cfg, w', i) {
      if i < |w.jobs| {
        assert JobFrugal(cfg, w, i);
      }
    }
  }

  lemma ClaimFrugal(cfg: Config, senders: set<string>, w: World, s: Step)
    requires Safe(cfg, w) && Frugal(cfg, w) && s.ClaimStep? && Enabled(senders, w, s) && LeaseHolds(cfg, senders, w, s)
    ensures Frugal(cfg, Exec(cfg, senders, w, s))
  {
    HeldNotClaimed(cfg, senders, w, s);
    var w' := Exec(cfg, senders, w, s);
    var taken := Take(w'.jobs, s.worker, s.ids, s.now);
    forall i | 0 <= i < |w'.jobs| ensures JobFrugal(cfg, w', i) {
      assert JobFrugal(cfg, w, i);
      if i in s.ids {
        var k :| 0 <= k < |s.ids| && s.ids[k] == i;
        assert taken[k] in w'.held;
      } else if InHand(w.held, i) {
        var h :| h in w.held && h.claim.id == i;
        assert h in w'.held;
      }
    }
    forall h | h in w'.held && h.sending.None?
      ensures w'.ledgers[h.claim.id].sends < w'.ledgers[h.claim.id].claims
    {
      if h !in w.held {
        var k :| 0 <= k < |taken| && taken[k] == h;
        assert s.ids[k] in s.ids && JobFrugal(cfg, w, s.ids[k]);
      }
    }
  }

  lemma SendFrugal(cfg: Config, senders: set<string>, w: World, s: Step)
    requires Safe(cfg, w) && Frugal(cfg, w) && s.SendStep? && Enabled(senders, w, s)
    ensures Frugal(cfg, Exec(cfg, senders, w, s))
  {
    var w' := Exec(cfg, senders, w, s);
    var h := w.held[s.k];
    assert h in w.held && w'.held[s.k] in w'.held;
    forall i | 0 <= i < |w'.jobs| ensures JobFrugal(cfg, w', i) {
      assert JobFrugal(cfg, w, i);
      if InHand(w.held, i) {
        var x :| x in w.held && x.claim.id == i;
        var n :| 0 <= n < |w.held| && w.held[n] == x;
        assert w'.held[n] in w'.held && w'.held[n].claim.id == i;
      }
    }
    forall x | x in w'.held && x.sending.None?
      ensures w'.ledgers[x.claim.id].sends < w'.ledgers[x.claim.id].claims
    {
      var n :| 0 <= n < |w'.held| && w'.held[n] == x;
      assert n != s.k && w.held[n] in w.held;
      assert x.claim.id != h.claim.id;
    }
  }

  lemma MarkFrugal(cfg: Config, senders: set<string>, w: World, s: Step)
    requires Safe(cfg, w) && Frugal(cfg, w) && s.MarkStep? && s.written && Enabled(senders, w, s)
    ensures Frugal(cfg, Exec(cfg, senders, w, s))
  {
    hide Backoff, LongestWait;
    var w' := Exec(cfg, senders, w, s);
    var h := w.held[s.k];
    assert HeldOk(cfg, w, h);
    InWithout(w.held, s.k);
    forall i | 0 <= i < |w'.jobs| ensures JobFrugal(cfg, w', i) {
      assert JobFrugal(cfg, w, i);
      if i != h.claim.id && InHand(w.held, i) {
        var x :| x in w.held && x.claim.id == i;
        StillHeld(w.held, s.k, x);
      }
    }
  }

  lemma StillHeld(held: seq<Held>, k: nat, x: Held)
    requires k < |held| && x in held && x.claim.id != held[k].claim.id
    ensures x in Without(held, k)
  {
    var n :| 0 <= n < |held| && held[n] == x;
    assert Without(held, k)[if n < k then n else n - 1] == x;
  }

  /** Without crashes and lost writes no job costs more than MaxAttempts Sends. */
  lemma {:induction false} SendBudget(cfg: Config, senders: set<string>, steps: seq<Step>)
    requires Sensible(cfg) && Leased(cfg, senders, steps) && FaultFree(steps)
    ensures var w := Run(cfg, senders, steps);
            Frugal(cfg, w) && forall i | 0 <= i < |w.jobs| :: w.ledgers[i].sends <= cfg.maxAttempts
  {
    if steps != [] {
      var n := |steps| - 1;
      LeasedPrefix(cfg, senders, steps, n);
      SendBudget(cfg, senders, steps[..n]);
      var w, s := Run(cfg, senders, steps[..n]), steps[n];
      assert Faultless(s);
      OutboxSafety(cfg, senders, steps[..n]);
      assert LeaseHolds(cfg, senders, w, s);
      if Enabled(senders, w, s) {
        match s
        case EnqueueStep(_, _, _, _, _) => EnqueueFrugal(cfg, senders, w, s);
        case ClaimStep(_, _, _) => ClaimFrugal(cfg, senders, w, s);
        case SendStep(_, _) => SendFrugal(cfg, senders, w, s);
        case MarkStep(_, _) => MarkFrugal(cfg, senders, w, s);
      }
      OutboxSafety(cfg, senders, steps);
      hide Exec, LeaseHolds, LongestWait;
      var w' := Run(cfg, senders, steps);
      forall i | 0 <= i < |w'.jobs| ensures w'.ledgers[i].sends <= cfg.maxAttempts {
        assert JobFrugal(cfg, w', i) && JobOk(cfg, w'.jobs[i], w'.ledgers[i]);
      }
    }
  }

  // ---- outliving a lease ----

  /** A claim of `ids` that leaves some job in two hands. */
  ghost predicate Doubles(cfg: Config, senders: set<string>, w: World, worker: int, ids: seq<nat>, now: int)
    requires Fits(w)
  {
    var s := ClaimStep(worker, ids, now);
    Enabled(senders, w, s) && !Exclusive(Exec(cfg, senders, w, s).held)
  }

  lemma ClaimOfOutlived(cfg: Config, senders: set<string>, w: World, worker: int, now: int, h: Held)
    requires Safe(cfg, w) && h in w.held && now >= h.at + LeaseSeconds(cfg)
    requires forall x | x in w.held :: x.worker != worker
    ensures Doubles(cfg, senders, w, worker, [h.claim.id], now)
  {
    assert HeldOk(cfg, w, h);
    var id := h.claim.id;
    var k :| 0 <= k < |w.held| && w.held[k] == h;
    var w' := Exec(cfg, senders, w, ClaimStep(worker, [id], now));
    assert w'.held[k] == h && w'.held[|w.held|].claim.id == id;
  }

  /** When a lease is exclusive: whatever due jobs a worker with empty hands asks for, no job ends in
      two hands, if and only if every job in someone's hands is within its lease. */
  lemma LeaseIsExclusiveIff(cfg: Config, senders: set<string>, w: World, worker: int, now: int)
    requires Safe(cfg, w) && forall h | h in w.held :: h.worker != worker
    ensures (forall ids :: !Doubles(cfg, senders, w, worker, ids, now))
            <==> forall h | h in w.held :: now < h.at + LeaseSeconds(cfg)
  {
    if h :| h in w.held && now >= h.at + LeaseSeconds(cfg) {
      ClaimOfOutlived(cfg, senders, w, worker, now, h);
    } else {
      forall ids ensures !Doubles(cfg, senders, w, worker, ids, now) {
        if Enabled(senders, w, ClaimStep(worker, ids, now)) {
          ClaimKeeps(cfg, senders, w, ClaimStep(worker, ids, now));
        }
      }
    }
  }

  /** The holder at `k` makes its Send and then its mark. */
  ghost function Finish(cfg: Config, senders: set<string>, w: World, k: nat, sending: Sending): (w': World)
    requires Fits(w)
    ensures Fits(w')
  {
    Exec(cfg, senders, Exec(cfg, senders, w, SendStep(k, sending)), MarkStep(k, true))
  }

  /** Job `id` stands as described: its status, how often that changed, and how many Sends came late. */
  ghost predicate Stands(w: World, id: nat, status: Status, closings: nat, lateSends: nat)
    requires Fits(w)
  {
    id < |w.jobs| && w.jobs[id].status == status && w.ledgers[id].closings == closings
        && w.ledgers[id].lateSends == lateSends
  }

  lemma SecondClaim(cfg: Config, senders: set<string>, w: World, other: int, now: int)
    requires Safe(cfg, w) && |w.held| == 1 && other != w.held[0].worker
    requires now >= w.held[0].at + LeaseSeconds(cfg)
    ensures var id := w.held[0].claim.id;
            var w1 := Exec(cfg, senders, w, ClaimStep(other, [id], now));
            && Stands(w1, id, Pending, 0, 0)
            && |w1.held| == 2 && w1.held[0] == w.held[0]
            && var h := w1.held[1];
               && h.sending.None? && h.claim.id == id && h.claim.channel == w.held[0].claim.channel
               && h.claim.maxAttempts == w.held[0].claim.maxAttempts && h.claim.attempts == w.held[0].claim.attempts + 1
  {
    hide LongestWait;
    assert HeldOk(cfg, w, w.held[0]);
  }

  lemma FinishHead(cfg: Config, senders: set<string>, w: World, sending: Sending, closings: nat, lateSends: nat)
    requires Fits(w) && w.held != [] && w.held[0].sending.None?
    requires var c := w.held[0].claim;
             && c.channel in senders && Stands(w, c.id, w.jobs[c.id].status, closings, lateSends)
             && (sending.Failed? ==> c.attempts >= c.maxAttempts)
             && sending != NoSender
    ensures var id := w.held[0].claim.id;
            var w' := Finish(cfg, senders, w, 0, sending);
            var status' := if sending.Delivered? then Sent else Dead;
            && w'.held == w.held[1..]
            && Stands(w', id, status',
                      closings + (if w.jobs[id].status == status' then 0 else 1),
                      lateSends + (if w.jobs[id].status.Pending? then 0 else 1))
  {
    hide Backoff;
  }

  /** Two hands on one job: the first delivers it, the second fails on the last attempt. */
  lemma DeliveredThenRefused(cfg: Config, senders: set<string>, w: World, error: string)
    requires Fits(w) && |w.held| == 2 && w.held[0].sending.None? && w.held[1].sending.None?
    requires var c, d := w.held[0].claim, w.held[1].claim;
             && c.id == d.id && c.channel in senders && d.channel in senders && d.attempts >= d.maxAttempts
             && Stands(w, c.id, Pending, 0, 0)
    ensures var w2 := Finish(cfg, senders, w, 0, Delivered);
            var w3 := Finish(cfg, senders, w2, 0, Failed(error));
            Stands(w2, w.held[0].claim.id, Sent, 1, 0) && Stands(w3, w.held[0].claim.id, Dead, 2, 1)
  {
    hide Finish;
    FinishHead(cfg, senders, w, Delivered, 0, 0);
    FinishHead(cfg, senders, Finish(cfg, senders, w, 0, Delivered), Failed(error), 1, 0);
  }

  /** A job kept past its lease goes to a second worker; when the first then delivers it and the
      second fails on what is the last attempt, a delivered job ends as a dead letter: the marks do
      not ask who holds the job. */
  lemma OutlivedLease(cfg: Config, senders: set<string>, w: World, other: int, now: int, error: string)
    requires Safe(cfg, w) && |w.held| == 1 && w.held[0].sending.None?
    requires var h := w.held[0];
             && other != h.worker && h.claim.channel in senders
             && now >= h.at + LeaseSeconds(cfg)
             && h.claim.attempts + 1 >= h.claim.maxAttempts
    ensures var id := w.held[0].claim.id;
            var w1 := Exec(cfg, senders, w, ClaimStep(other, [id], now));
            var w2 := Finish(cfg, senders, w1, 0, Delivered);
            var w3 := Finish(cfg, senders, w2, 0, Failed(error));
            && !Exclusive(w1.held)
            && Stands(w1, id, Pending, 0, 0) && Stands(w2, id, Sent, 1, 0) && Stands(w3, id, Dead, 2, 1)
  {
    SecondClaim(cfg, senders, w, other, now);
    ClaimOfOutlived(cfg, senders, w, other, now, w.held[0]);
    var w1 := Exec(cfg, senders, w, ClaimStep(other, [w.held[0].claim.id], now));
    hide Exec, Finish, Safe, LeaseSeconds, Stands;
    DeliveredThenRefused(cfg, senders, w1, error);
  }
}
