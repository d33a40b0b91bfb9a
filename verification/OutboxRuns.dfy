/** Workers on one outbox, interleaved at their statements, with crashes and failed writes. */
module OutboxRuns {
  import opened Text
  import opened Outbox

  /** A claimed job in a worker's hands since `at`, and how its Send went once it was tried. */
  datatype Held = Held(worker: int, claim: Claim, at: int, sending: Option<Sending>)

  /** What happened to a job so far; no step reads it. `refused` says a Send failed on the last
      attempt; `closings` counts changes of status, `lateSends` Sends made after one. */
  datatype Ledger = Ledger(claims: nat, sends: nat, delivered: nat, refused: bool, noSender: bool,
                           closings: nat, lateSends: nat)

  datatype World = World(jobs: seq<Job>, held: seq<Held>, ledgers: seq<Ledger>)

  const START := World([], [], [])

  datatype Step =
    | EnqueueStep(alertId: string, channel: string, target: string, payload: string, now: int)
    | ClaimStep(worker: int, ids: seq<nat>, now: int)
    | SendStep(k: nat, sending: Sending)
    | MarkStep(k: nat, written: bool)
    | AbandonStep(k: nat)         // the worker dies with this job unfinished

  function LeaseSeconds(cfg: Config): int {
    cfg.lease / SECOND
  }

  predicate Distinct(ids: seq<nat>) {
    forall i, j | 0 <= i < j < |ids| :: ids[i] != ids[j]
  }

  /** A step the code can take: a worker claims only with empty hands, and asks for due jobs. */
  predicate Enabled(senders: set<string>, w: World, s: Step) {
    match s
    case EnqueueStep(_, _, _, _, _) => true
    case ClaimStep(worker, ids, now) =>
      && Distinct(ids)
      && (forall i | 0 <= i < |ids| :: ids[i] < |w.jobs| && Due(w.jobs[ids[i]], now))
      && (forall h | h in w.held :: h.worker != worker)
    case SendStep(k, sending) =>
      && k < |w.held| && w.held[k].sending.None?
      && (sending.NoSender? <==> w.held[k].claim.channel !in senders)
    case MarkStep(k, _) => k < |w.held| && w.held[k].sending.Some?
    case AbandonStep(k) => k < |w.held|
  }

  function Record(l: Ledger, j: Job, c: Claim, s: Sending): Ledger {
    if s.NoSender? then l.(noSender := true)
    else l.(sends := l.sends + 1,
            delivered := if s.Delivered? then l.delivered + 1 else l.delivered,
            refused := l.refused || (s.Failed? && c.attempts >= c.maxAttempts),
            lateSends := if j.status.Pending? then l.lateSends else l.lateSends + 1)
  }

  function Without(held: seq<Held>, k: nat): seq<Held>
    requires k < |held|
  {
    held[..k] + held[k + 1..]
  }

  /** Claims as handed to `worker`. */
  function Take(jobs: seq<Job>, worker: int, ids: seq<nat>, now: int): (r: seq<Held>)
    requires forall i | 0 <= i < |ids| :: ids[i] < |jobs|
    ensures |r| == |ids|
    ensures forall i | 0 <= i < |ids| :: r[i] == Held(worker, ClaimOf(jobs, ids[i]), now, None)
  {
    seq(|ids|, i requires 0 <= i < |ids| => Held(worker, ClaimOf(jobs, ids[i]), now, None))
  }

  ghost predicate Fits(w: World) {
    |w.ledgers| == |w.jobs| && forall h | h in w.held :: h.claim.id < |w.jobs|
  }

  ghost function Exec(cfg: Config, senders: set<string>, w: World, s: Step): (w': World)
    requires Fits(w)
    ensures Fits(w')
  {
    if !Enabled(senders, w, s) then w
    else match s
      case EnqueueStep(alertId, channel, target, payload, now) =>
        var jobs := Enqueue(w.jobs, alertId, channel, target, payload, cfg.maxAttempts, now);
        World(jobs, w.held,
              if |jobs| == |w.jobs| then w.ledgers else w.ledgers + [Ledger(0, 0, 0, false, false, 0, 0)])
      case ClaimStep(worker, ids, now) =>
        var jobs := Lease(w.jobs, ids, now, LeaseSeconds(cfg));
        World(jobs, w.held + Take(jobs, worker, ids, now),
              seq(|w.ledgers|, i requires 0 <= i < |w.ledgers| =>
                if i in ids then w.ledgers[i].(claims := w.ledgers[i].claims + 1) else w.ledgers[i]))
      case SendStep(k, sending) =>
        var h := w.held[k];
        var id := h.claim.id;
        World(w.jobs, w.held[k := h.(sending := Some(sending))],
              w.ledgers[id := Record(w.ledgers[id], w.jobs[id], h.claim, sending)])
      case MarkStep(k, written) =>
        var h := w.held[k];
        var id := h.claim.id;
        var jobs := if written then Settle(cfg, w.jobs, h.claim, h.sending.value, h.at) else w.jobs;
        World(jobs, Without(w.held, k),
              if jobs[id].status == w.jobs[id].status then w.ledgers
              else w.ledgers[id := w.ledgers[id].(closings := w.ledgers[id].closings + 1)])
      case AbandonStep(k) => w.(held := Without(w.held, k))
  }

  ghost function Run(cfg: Config, senders: set<string>, steps: seq<Step>): (w: World)
    ensures Fits(w)
  {
    if steps == [] then START
    else Exec(cfg, senders, Run(cfg, senders, steps[..|steps| - 1]), steps[|steps| - 1])
  }

  // ---- the invariant ----

  function Max(a: int, b: int): int {
    if a < b then b else a
  }

  /** How long a pending job can stay out of reach after its last update. */
  function LongestWait(cfg: Config): int {
    Max(Max(LeaseSeconds(cfg), 0), Max(cfg.baseBackoff, cfg.maxBackoff) / SECOND)
  }

  ghost predicate UniqueKeys(jobs: seq<Job>) {
    forall i, j | 0 <= i < j < |jobs| :: !SameKey(jobs[i], jobs[j])
  }

  ghost predicate JobOk(cfg: Config, j: Job, l: Ledger) {
    && j.attempts == l.claims
    && (j.status.Sent? ==> l.delivered >= 1)
    && (j.status.Dead? ==> l.noSender || l.refused)
    && l.closings == (if j.status.Pending? then 0 else 1)
    && l.lateSends == 0
    && (j.status.Pending? ==> j.nextAt <= j.updatedAt + LongestWait(cfg))
  }

  /** A job in someone's hands is still pending and exactly as it was claimed. */
  ghost predicate HeldOk(cfg: Config, w: World, h: Held)
    requires Fits(w) && h in w.held
  {
    var j, l := w.jobs[h.claim.id], w.ledgers[h.claim.id];
    && j.status.Pending? && j.nextAt == h.at + LeaseSeconds(cfg)
    && h.claim == ClaimOf(w.jobs, h.claim.id)
    && (h.sending == Some(Delivered) ==> l.delivered >= 1)
    && (h.sending == Some(NoSender) ==> l.noSender)
    && (h.sending.Some? && h.sending.value.Failed? && h.claim.attempts >= h.claim.maxAttempts ==> l.refused)
  }

  /** No job is in two hands. */
  ghost predicate Exclusive(held: seq<Held>) {
    forall i, j | 0 <= i < j < |held| :: held[i].claim.id != held[j].claim.id
  }

  ghost predicate Safe(cfg: Config, w: World) {
    && Fits(w)
    && UniqueKeys(w.jobs)
    && (forall i | 0 <= i < |w.jobs| :: JobOk(cfg, w.jobs[i], w.ledgers[i]))
    && (forall h | h in w.held :: HeldOk(cfg, w, h))
    && Exclusive(w.held)
  }

  /** Whoever claims, every job still in someone's hands is within its lease. */
  ghost predicate LeaseHolds(cfg: Config, senders: set<string>, w: World, s: Step) {
    s.ClaimStep? && Enabled(senders, w, s) ==> forall h | h in w.held :: s.now < h.at + LeaseSeconds(cfg)
  }

  predicate Sensible(cfg: Config) {
    0 < cfg.baseBackoff < TWO62 && cfg.maxBackoff <= TWO62 && cfg.maxAttempts >= 1
  }

  lemma BackoffBound(cfg: Config, attempts: int)
    requires Sensible(cfg)
    ensures Backoff(cfg.baseBackoff, cfg.maxBackoff, attempts) / SECOND <= LongestWait(cfg)
  {
    BackoffClosedForm(cfg.baseBackoff, cfg.maxBackoff, attempts);
    DivMonotone(Backoff(cfg.baseBackoff, cfg.maxBackoff, attempts), Max(cfg.baseBackoff, cfg.maxBackoff));
  }

  lemma DivMonotone(a: int, b: int)
    requires a <= b
    ensures a / SECOND <= b / SECOND
  {
  }

  lemma InWithout(held: seq<Held>, k: nat)
    requires k < |held| && Exclusive(held)
    ensures Exclusive(Without(held, k))
    ensures forall h | h in Without(held, k) :: h in held && h.claim.id != held[k].claim.id
  {
    forall h | h in Without(held, k) ensures h in held && h.claim.id != held[k].claim.id {
      var i :| 0 <= i < |held| - 1 && Without(held, k)[i] == h;
      assert h == held[if i < k then i else i + 1];
    }
  }

  lemma EnqueueKeeps(cfg: Config, senders: set<string>, w: World, s: Step)
    requires Safe(cfg, w) && s.EnqueueStep?
    ensures Safe(cfg, Exec(cfg, senders, w, s))
  {
    var w' := Exec(cfg, senders, w, s);
    assert forall h | h in w'.held :: HeldOk(cfg, w, h);
  }

  /** Held jobs are not due, so a claim takes jobs from nobody. */
  lemma HeldNotClaimed(cfg: Config, senders: set<string>, w: World, s: Step)
    requires Safe(cfg, w) && s.ClaimStep? && Enabled(senders, w, s) && LeaseHolds(cfg, senders, w, s)
    ensures forall h | h in w.held :: h.claim.id !in s.ids
  {
    forall h | h in w.held ensures h.claim.id !in s.ids {
      assert HeldOk(cfg, w, h);
    }
  }

  lemma TakenExclusive(held: seq<Held>, jobs: seq<Job>, worker: int, ids: seq<nat>, now: int)
    requires Exclusive(held) && Distinct(ids)
    requires forall i | 0 <= i < |ids| :: ids[i] < |jobs|
    requires forall h | h in held :: h.claim.id !in ids
    ensures Exclusive(held + Take(jobs, worker, ids, now))
  {
    var taken := Take(jobs, worker, ids, now);
    var all := held + taken;
    forall i, j | 0 <= i < j < |all| ensures all[i].claim.id != all[j].claim.id {
      var n := |held|;
      if j >= n {
        assert all[j] == taken[j - n] && ids[j - n] in ids;
        if i < n {
          assert all[i] in held;
        }
      }
    }
  }

  lemma ClaimedHeldOk(cfg: Config, senders: set<string>, w: World, s: Step, h: Held)
    requires Fits(w) && s.ClaimStep? && Enabled(senders, w, s)
    requires h in w.held ==> HeldOk(cfg, w, h) && h.claim.id !in s.ids
    requires h in Exec(cfg, senders, w, s).held
    ensures HeldOk(cfg, Exec(cfg, senders, w, s), h)
  {
    if h !in w.held {
      var taken := Take(Lease(w.jobs, s.ids, s.now, LeaseSeconds(cfg)), s.worker, s.ids, s.now);
      var i :| 0 <= i < |taken| && taken[i] == h;
      assert s.ids[i] in s.ids;
    }
  }

  lemma ClaimKeeps(cfg: Config, senders: set<string>, w: World, s: Step)
    requires Safe(cfg, w) && s.ClaimStep? && Enabled(senders, w, s) && LeaseHolds(cfg, senders, w, s)
    ensures Safe(cfg, Exec(cfg, senders, w, s))
  {
    HeldNotClaimed(cfg, senders, w, s);
    ClaimedJobsOk(cfg, w, s.ids, s.now);
    var w' := Exec(cfg, senders, w, s);
    forall h | h in w'.held ensures HeldOk(cfg, w', h) {
      ClaimedHeldOk(cfg, senders, w, s, h);
    }
    assert UniqueKeys(w'.jobs);
    TakenExclusive(w.held, w'.jobs, s.worker, s.ids, s.now);
    hide HeldOk, JobOk, LeaseHolds;
  }

  lemma ClaimedJobsOk(cfg: Config, w: World, ids: seq<nat>, now: int)
    requires Fits(w) && forall i | 0 <= i < |w.jobs| :: JobOk(cfg, w.jobs[i], w.ledgers[i])
    requires forall i | 0 <= i < |ids| :: ids[i] < |w.jobs| && Due(w.jobs[ids[i]], now)
    ensures forall i | 0 <= i < |w.jobs| ::
              JobOk(cfg, Lease(w.jobs, ids, now, LeaseSeconds(cfg))[i],
                    if i in ids then w.ledgers[i].(claims := w.ledgers[i].claims + 1) else w.ledgers[i])
  {
  }

  lemma SendKeeps(cfg: Config, senders: set<string>, w: World, s: Step)
    requires Safe(cfg, w) && s.SendStep? && Enabled(senders, w, s)
    ensures Safe(cfg, Exec(cfg, senders, w, s))
  {
    var w' := Exec(cfg, senders, w, s);
    var h := w.held[s.k];
    assert HeldOk(cfg, w, h);
    forall x | x in w'.held ensures x.claim.id < |w'.jobs| && HeldOk(cfg, w', x) {
      var i :| 0 <= i < |w'.held| && w'.held[i] == x;
      if i != s.k {
        assert w.held[i] == x && HeldOk(cfg, w, x);
        assert x.claim.id != h.claim.id;
      }
    }
  }

  lemma MarkKeeps(cfg: Config, senders: set<string>, w: World, s: Step)
    requires Sensible(cfg)
    requires Safe(cfg, w) && s.MarkStep? && Enabled(senders, w, s)
    ensures Safe(cfg, Exec(cfg, senders, w, s))
  {
    var w' := Exec(cfg, senders, w, s);
    var h := w.held[s.k];
    assert HeldOk(cfg, w, h);
    BackoffBound(cfg, h.claim.attempts);
    hide Backoff, LongestWait;
    InWithout(w.held, s.k);
    forall x | x in w'.held ensures HeldOk(cfg, w', x) {
      assert HeldOk(cfg, w, x);
    }
  }

  lemma AbandonKeeps(cfg: Config, senders: set<string>, w: World, s: Step)
    requires Safe(cfg, w) && s.AbandonStep? && Enabled(senders, w, s)
    ensures Safe(cfg, Exec(cfg, senders, w, s))
  {
    InWithout(w.held, s.k);
    assert forall h | h in Without(w.held, s.k) :: HeldOk(cfg, w, h);
  }

  // ---- whole runs ----

  /** Rows are never lost or rekeyed, and a row that left 'pending' never changes again. */
  ghost predicate Preserves(jobs: seq<Job>, jobs': seq<Job>) {
    && |jobs| <= |jobs'|
    && forall i | 0 <= i < |jobs| ::
         && SameKey(jobs[i], jobs'[i]) && jobs[i].payload == jobs'[i].payload
         && (!jobs[i].status.Pending? ==> jobs'[i] == jobs[i])
  }

  lemma StepKeeps(cfg: Config, senders: set<string>, w: World, s: Step)
    requires Sensible(cfg) && Safe(cfg, w) && LeaseHolds(cfg, senders, w, s)
    ensures Safe(cfg, Exec(cfg, senders, w, s))
  {
    if Enabled(senders, w, s) {
      match s
      case EnqueueStep(_, _, _, _, _) => EnqueueKeeps(cfg, senders, w, s);
      case ClaimStep(_, _, _) => ClaimKeeps(cfg, senders, w, s);
      case SendStep(_, _) => SendKeeps(cfg, senders, w, s);
      case MarkStep(_, _) => MarkKeeps(cfg, senders, w, s);
      case AbandonStep(_) => AbandonKeeps(cfg, senders, w, s);
    }
  }

  lemma EnqueuePreserves(jobs: seq<Job>, alertId: string, channel: string, target: string, payload: string,
                         maxAttempts: int, now: int)
    ensures var jobs' := Enqueue(jobs, alertId, channel, target, payload, maxAttempts, now);
            && Preserves(jobs, jobs')
            && exists j | j in jobs' :: j.alertId == alertId && j.channel == channel && j.target == target
  {
    var jobs' := Enqueue(jobs, alertId, channel, target, payload, maxAttempts, now);
    if |jobs'| == |jobs| {
      var k :| 0 <= k < |jobs| && SameKey(jobs[k], Job(alertId, channel, target, payload, maxAttempts, Pending, 0,
          now, "", now));
      assert jobs'[k] in jobs';
    } else {
      assert jobs'[|jobs|] in jobs';
    }
  }

  lemma MarkPreserves(cfg: Config, jobs: seq<Job>, c: Claim, s: Sending, now: int)
    requires c.id < |jobs| && jobs[c.id].status.Pending?
    ensures Preserves(jobs, Settle(cfg, jobs, c, s, now))
  {
    hide Backoff;
  }

  lemma ClaimPreserves(jobs: seq<Job>, ids: seq<nat>, now: int, lease: int)
    requires forall i | 0 <= i < |ids| :: ids[i] < |jobs| && Due(jobs[ids[i]], now)
    ensures Preserves(jobs, Lease(jobs, ids, now, lease))
  {
  }

  /** The table after a step the code can take. */
  function JobsAfter(cfg: Config, w: World, s: Step): seq<Job>
    requires s.MarkStep? ==> s.k < |w.held| && w.held[s.k].claim.id < |w.jobs| && w.held[s.k].sending.Some?
  {
    match s
    case EnqueueStep(alertId, channel, target, payload, now) =>
      Enqueue(w.jobs, alertId, channel, target, payload, cfg.maxAttempts, now)
    case ClaimStep(_, ids, now) => Lease(w.jobs, ids, now, LeaseSeconds(cfg))
    case MarkStep(k, written) =>
      if written then Settle(cfg, w.jobs, w.held[k].claim, w.held[k].sending.value, w.held[k].at) else w.jobs
    case _ => w.jobs
  }

  lemma ExecJobs(cfg: Config, senders: set<string>, w: World, s: Step)
    requires Fits(w) && Enabled(senders, w, s)
    ensures s.MarkStep? ==> s.k < |w.held| && w.held[s.k] in w.held && w.held[s.k].sending.Some?
    ensures Exec(cfg, senders, w, s).jobs == JobsAfter(cfg, w, s)
  {
    hide Enqueue, Settle;
  }

  lemma StepPreserves(cfg: Config, senders: set<string>, w: World, s: Step)
    requires Safe(cfg, w)
    ensures Preserves(w.jobs, Exec(cfg, senders, w, s).jobs)
    ensures s.EnqueueStep? ==>
              exists j | j in Exec(cfg, senders, w, s).jobs ::
                  j.alertId == s.alertId && j.channel == s.channel && j.target == s.target
  {
    if Enabled(senders, w, s) {
      ExecJobs(cfg, senders, w, s);
      hide Exec, Enqueue, Settle;
      match s
      case EnqueueStep(alertId, channel, target, payload, now) =>
        EnqueuePreserves(w.jobs, alertId, channel, target, payload, cfg.maxAttempts, now);
      case ClaimStep(_, ids, now) =>
        ClaimPreserves(w.jobs, ids, now, LeaseSeconds(cfg));
      case MarkStep(k, _) =>
        var h := w.held[k];
        assert HeldOk(cfg, w, h);
        MarkPreserves(cfg, w.jobs, h.claim, h.sending.value, h.at);
      case _ =>
    }
  }

  /** Every claim of the run finds the jobs in other hands within their leases. */
  ghost predicate Leased(cfg: Config, senders: set<string>, steps: seq<Step>) {
    forall i | 0 <= i < |steps| :: LeaseHolds(cfg, senders, Run(cfg, senders, steps[..i]), steps[i])
  }

  lemma LeasedPrefix(cfg: Config, senders: set<string>, steps: seq<Step>, n: nat)
    requires Leased(cfg, senders, steps) && n <= |steps|
    ensures Leased(cfg, senders, steps[..n])
  {
    hide LeaseHolds, Run;
    forall i | 0 <= i < n ensures LeaseHolds(cfg, senders, Run(cfg, senders, steps[..n][..i]), steps[..n][i]) {
      assert steps[..n][..i] == steps[..i];
    }
  }

  /** Any number of workers, interleaved at any statement, with crashes and failed writes: as long as
      jobs are marked within their leases, no job is in two hands, each has one row per alert, channel
      and target, as many attempts as claims, at most one change of status and no Send after it;
      'sent' means a Send succeeded, 'dead' that there was no sender or the last attempt failed; and a
      pending job is due again within the longest wait after its last update. */
  lemma {:induction false} OutboxSafety(cfg: Config, senders: set<string>, steps: seq<Step>)
    requires Sensible(cfg) && Leased(cfg, senders, steps)
    ensures Safe(cfg, Run(cfg, senders, steps))
  {
    if steps != [] {
      var n := |steps| - 1;
      LeasedPrefix(cfg, senders, steps, n);
      OutboxSafety(cfg, senders, steps[..n]);
      hide Safe, LeaseHolds, Exec;
      StepKeeps(cfg, senders, Run(cfg, senders, steps[..n]), steps[n]);
    }
  }

  /** Between any two points of such a run no row is lost and a settled row stays as it is. */
  lemma {:induction false} SettledForGood(cfg: Config, senders: set<string>, steps: seq<Step>, n: nat)
    requires Sensible(cfg) && Leased(cfg, senders, steps) && n <= |steps|
    ensures Preserves(Run(cfg, senders, steps[..n]).jobs, Run(cfg, senders, steps).jobs)
    decreases |steps|
  {
    hide Exec, Safe, LeaseHolds;
    if n == |steps| {
      assert steps[..n] == steps;
    } else {
      var front := steps[..|steps| - 1];
      LeasedPrefix(cfg, senders, steps, |steps| - 1);
      OutboxSafety(cfg, senders, front);
      assert front[..n] == steps[..n];
      SettledForGood(cfg, senders, front, n);
      hide Leased, Preserves;
      StepPreserves(cfg, senders, Run(cfg, senders, front), steps[|steps| - 1]);
      PreservesTransitive(Run(cfg, senders, steps[..n]).jobs, Run(cfg, senders, front).jobs,
          Run(cfg, senders, steps).jobs);
    }
  }

  lemma PreservesTransitive(a: seq<Job>, b: seq<Job>, c: seq<Job>)
    requires Preserves(a, b) && Preserves(b, c)
    ensures Preserves(a, c)
  {
  }

  /** One worker needs no assumption about leases. */
  lemma {:induction false} OneWorkerIsLeased(cfg: Config, senders: set<string>, steps: seq<Step>, worker: int)
    requires forall i | 0 <= i < |steps| :: steps[i].ClaimStep? ==> steps[i].worker == worker
    ensures Leased(cfg, senders, steps)
    ensures forall h | h in Run(cfg, senders, steps).held :: h.worker == worker
  {
    if steps != [] {
      var n := |steps| - 1;
      OneWorkerIsLeased(cfg, senders, steps[..n], worker);
      OneWorkerStep(cfg, senders, Run(cfg, senders, steps[..n]), steps[n], worker);
      hide LeaseHolds, Exec;
      forall i | 0 <= i < |steps| ensures LeaseHolds(cfg, senders, Run(cfg, senders, steps[..i]), steps[i]) {
        if i < n {
          assert steps[..n][..i] == steps[..i];
          assert LeaseHolds(cfg, senders, Run(cfg, senders, steps[..n][..i]), steps[..n][i]);
        }
      }
    }
  }

  lemma OneWorkerStep(cfg: Config, senders: set<string>, w: World, s: Step, worker: int)
    requires Fits(w) && forall h | h in w.held :: h.worker == worker
    requires s.ClaimStep? ==> s.worker == worker
    ensures LeaseHolds(cfg, senders, w, s)
    ensures forall h | h in Exec(cfg, senders, w, s).held :: h.worker == worker
  {
    hide Settle, Lease, Enqueue;
    var w' := Exec(cfg, senders, w, s);
    forall h | h in w'.held ensures h.worker == worker {
      var i :| 0 <= i < |w'.held| && w'.held[i] == h;
      if s.SendStep? && i < |w.held| {
        assert w.held[i] in w.held;
      }
    }
  }
}
