/** The outbox's methods as they change state: enqueueing, claiming, delivering and draining. */
module OutboxWorker {
  import opened Text
  import opened Outbox
  import opened OutboxRuns

  /** One channel's sender with the targets it routes an alert to. */
  datatype Route = Route(channel: string, targets: seq<string>)

  /** What the network and the database do for one job: whether Send succeeds, its error text if
      not, and whether the mark that follows is written. */
  datatype Attempt = Attempt(sends: bool, error: string, written: bool)

  function SendingOf(senders: set<string>, c: Claim, a: Attempt): Sending {
    if c.channel !in senders then NoSender else if a.sends then Delivered else Failed(a.error)
  }

  function SettleOne(cfg: Config, senders: set<string>, jobs: seq<Job>, c: Claim, a: Attempt, now: int): seq<Job>
    requires c.id < |jobs|
  {
    if a.written then Settle(cfg, jobs, c, SendingOf(senders, c, a), now) else jobs
  }

  /** A batch's jobs, delivered one after the other. */
  function SettleAll(cfg: Config, senders: set<string>, jobs: seq<Job>, claims: seq<Claim>, script: nat -> Attempt,
                     now: int): (r: seq<Job>)
    requires forall c | c in claims :: c.id < |jobs|
    ensures |r| == |jobs|
  {
    if claims == [] then jobs
    else
      var n := |claims| - 1;
      SettleOne(cfg, senders, SettleAll(cfg, senders, jobs, claims[..n], script, now), claims[n], script(n), now)
  }

  /** `ids` are distinct due jobs, as many as the limit allows, and the longest due ones. */
  ghost predicate IsClaim(jobs: seq<Job>, ids: seq<nat>, now: int, limit: nat) {
    && Distinct(ids) && |ids| <= limit
    && (forall i | 0 <= i < |ids| :: ids[i] < |jobs| && Due(jobs[ids[i]], now))
    && (forall i, k | 0 <= i < |ids| && 0 <= k < |jobs| && Due(jobs[k], now) && k !in ids ::
         jobs[ids[i]].nextAt <= jobs[k].nextAt)
    && (|ids| < limit ==> forall k | 0 <= k < |jobs| && Due(jobs[k], now) :: k in ids)
  }

  /** How a claim goes: the update fails, or its rows cannot all be read back, which leaves them
      leased to nobody. */
  datatype ClaimFault = NoFault | QueryFails | ReadFails

  lemma ClaimInRange(jobs: seq<Job>, ids: seq<nat>, now: int, limit: nat)
    requires IsClaim(jobs, ids, now, limit)
    ensures forall i | 0 <= i < |ids| :: ids[i] < |jobs|
  {
  }

  /** What a claim does to the table. */
  ghost predicate IsClaimed(jobs: seq<Job>, jobs': seq<Job>, ids: seq<nat>, now: int, lease: int, limit: nat,
                            fault: ClaimFault) {
    if fault.QueryFails? then ids == [] && jobs' == jobs
    else IsClaim(jobs, ids, now, limit) && jobs' == Lease(jobs, ids, now, lease)
  }

  function ClaimsOf(jobs: seq<Job>, ids: seq<nat>): (r: seq<Claim>)
    requires forall i | 0 <= i < |ids| :: ids[i] < |jobs|
    ensures |r| == |ids| && forall i | 0 <= i < |ids| :: r[i] == ClaimOf(jobs, ids[i])
  {
    seq(|ids|, i requires 0 <= i < |ids| => ClaimOf(jobs, ids[i]))
  }

  ghost predicate HasRow(jobs: seq<Job>, alertId: string, channel: string, target: string) {
    exists j | j in jobs :: j.alertId == alertId && j.channel == channel && j.target == target
  }

  /** Which inserts of an Enqueue go through, by route and target. */
  type Inserts = (nat, nat) -> bool

  /** The insert for target `n` of route `i` goes through, and is for this channel and target. */
  ghost predicate Inserted(routes: seq<Route>, writes: Inserts, i: nat, n: nat, channel: string, target: string) {
    && i < |routes| && n < |routes[i].targets| && writes(i, n)
    && routes[i].channel == channel && routes[i].targets[n] == target
  }

  /** Every row beyond `before` is a fresh one that some insert wrote. */
  ghost predicate OnlyRouted(before: seq<Job>, jobs: seq<Job>, alertId: string, routes: seq<Route>, writes: Inserts,
                             payload: string, maxAttempts: int, now: int)
  {
    before <= jobs &&
    forall k | |before| <= k < |jobs| ::
      && (exists i, n :: Inserted(routes, writes, i, n, jobs[k].channel, jobs[k].target))
      && jobs[k] == Job(alertId, jobs[k].channel, jobs[k].target, payload, maxAttempts, Pending, 0, now, "", now)
  }

  lemma NothingRouted(jobs: seq<Job>, alertId: string, routes: seq<Route>, writes: Inserts, payload: string,
                      maxAttempts: int, now: int)
    ensures OnlyRouted(jobs, jobs, alertId, routes, writes, payload, maxAttempts, now)
  {
  }

  lemma OneMoreRouted(before: seq<Job>, jobs: seq<Job>, alertId: string, routes: seq<Route>, writes: Inserts,
                      payload: string, maxAttempts: int, now: int, i: nat, n: nat)
    requires OnlyRouted(before, jobs, alertId, routes, writes, payload, maxAttempts, now)
    requires i < |routes| && n < |routes[i].targets| && writes(i, n)
    ensures OnlyRouted(before,
                       Enqueue(jobs, alertId, routes[i].channel, routes[i].targets[n], payload, maxAttempts, now),
                       alertId, routes, writes, payload, maxAttempts, now)
  {
    assert Inserted(routes, writes, i, n, routes[i].channel, routes[i].targets[n]);
    hide Inserted;
  }

  class Manager {
    const cfg: Config
    const senders: set<string>
    var jobs: seq<Job>

    constructor (cfg: Config, senders: set<string>)
      ensures this.cfg == WithDefaults(cfg) && this.senders == senders && jobs == []
    {
      this.cfg := WithDefaults(cfg);
      this.senders := senders;
      jobs := [];
    }

    /** Enqueue: a row for every channel and target whose insert goes through, whatever was there
        before; a failed insert is passed over. */
    method EnqueueAlert(alertId: string, routes: seq<Route>, payload: string, now: int, writes: Inserts)
      requires UniqueKeys(jobs)
      modifies this
      ensures UniqueKeys(jobs)
      ensures forall i, n | 0 <= i < |routes| && 0 <= n < |routes[i].targets| && writes(i, n) ::
                HasRow(jobs, alertId, routes[i].channel, routes[i].targets[n])
      ensures OnlyRouted(old(jobs), jobs, alertId, routes, writes, payload, cfg.maxAttempts, now)
    {
      hide UniqueKeys, OnlyRouted, HasRow, Enqueue;
      NothingRouted(jobs, alertId, routes, writes, payload, cfg.maxAttempts, now);
      for i := 0 to |routes|
        invariant UniqueKeys(jobs)
        invariant OnlyRouted(old(jobs), jobs, alertId, routes, writes, payload, cfg.maxAttempts, now)
        invariant forall k, n | 0 <= k < i && 0 <= n < |routes[k].targets| && writes(k, n) ::
                    HasRow(jobs, alertId, routes[k].channel, routes[k].targets[n])
      {
        var route := routes[i];
        for n := 0 to |route.targets|
          invariant UniqueKeys(jobs)
          invariant OnlyRouted(old(jobs), jobs, alertId, routes, writes, payload, cfg.maxAttempts, now)
          invariant forall k, m | 0 <= k < i && 0 <= m < |routes[k].targets| && writes(k, m) ::
                      HasRow(jobs, alertId, routes[k].channel, routes[k].targets[m])
          invariant forall m | 0 <= m < n && writes(i, m) :: HasRow(jobs, alertId, route.channel, route.targets[m])
        {
          if writes(i, n) {
            OneMoreRouted(old(jobs), jobs, alertId, routes, writes, payload, cfg.maxAttempts, now, i, n);
          }
          var added := EnqueueOne(alertId, route.channel, route.targets[n], payload, now, writes(i, n));
        }
      }
    }

    /** EnqueueDelivery; `added` is None when the insert fails. */
    method EnqueueOne(alertId: string, channel: string, target: string, payload: string, now: int, writes: bool)
      returns (added: Option<bool>)
      requires UniqueKeys(jobs)
      modifies this
      ensures jobs == if writes then Enqueue(old(jobs), alertId, channel, target, payload, cfg.maxAttempts, now)
        else old(jobs)
      ensures added == if writes then Some(!HasRow(old(jobs), alertId, channel, target)) else None
      ensures added == Some(true) ==>
        jobs == old(jobs) + [Job(alertId, channel, target, payload, cfg.maxAttempts, Pending, 0, now, "", now)]
      ensures added != Some(true) ==> jobs == old(jobs)
      ensures UniqueKeys(jobs) && (writes ==> HasRow(jobs, alertId, channel, target))
      ensures forall a, c, t | HasRow(old(jobs), a, c, t) :: HasRow(jobs, a, c, t)
    {
      if !writes {
        return None;
      }
      ghost var j := Job(alertId, channel, target, payload, cfg.maxAttempts, Pending, 0, now, "", now);
      var before := |jobs|;
      jobs := Enqueue(jobs, alertId, channel, target, payload, cfg.maxAttempts, now);
      added := Some(|jobs| > before);
      if |jobs| == before {
        assert exists k | 0 <= k < |jobs| :: SameKey(jobs[k], j);
      } else {
        assert jobs[before] in jobs;
      }
    }

    /** ClaimDueDeliveries: the earliest due pending jobs, leased. */
    method ClaimDueDeliveries(now: int, lease: int, limit: nat, fault: ClaimFault)
      returns (claims: Option<seq<Claim>>, ghost ids: seq<nat>)
      modifies this
      ensures IsClaimed(old(jobs), jobs, ids, now, lease, limit, fault)
      ensures claims == if fault.NoFault? then Some(ClaimsOf(jobs, ids)) else None
    {
      if fault.QueryFails? {
        return None, [];
      }
      var chosen: seq<nat> := [];
      var more := true;
      while |chosen| < limit && more
        invariant jobs == old(jobs)
        invariant IsClaim(jobs, chosen, now, |chosen|) && |chosen| <= limit
        invariant !more ==> forall k | 0 <= k < |jobs| && Due(jobs[k], now) :: k in chosen
        decreases more, limit - |chosen|
      {
        var best, found := 0, false;
        for k := 0 to |jobs|
          invariant found ==> best < |jobs| && Due(jobs[best], now) && best !in chosen
          invariant forall i | 0 <= i < k && Due(jobs[i], now) && i !in chosen ::
            found && jobs[best].nextAt <= jobs[i].nextAt
        {
          if Due(jobs[k], now) && k !in chosen && (!found || jobs[k].nextAt < jobs[best].nextAt) {
            best, found := k, true;
          }
        }
        if found {
          chosen := chosen + [best];
        } else {
          more := false;
        }
      }
      jobs := Lease(jobs, chosen, now, lease);
      ids := chosen;
      claims := if fault.ReadFails? then None else Some(ClaimsOf(jobs, chosen));
    }

    /** backoff. */
    method RetryDelay(attempts: int) returns (d: int)
      ensures d == Backoff(cfg.baseBackoff, cfg.maxBackoff, attempts)
      ensures ExactDelays(cfg) ==> d == RetryAfter(cfg, attempts)
    {
      if ExactDelays(cfg) {
        BackoffClosedForm(cfg.baseBackoff, cfg.maxBackoff, attempts);
      }
      hide RetryAfter;
      d := cfg.baseBackoff;
      var i := 1;
      while i < attempts
        invariant Backoff(cfg.baseBackoff, cfg.maxBackoff, attempts) == Doubling(d, cfg.maxBackoff, i, attempts)
        decreases attempts - i
      {
        d := Wrap(2 * d);
        if d >= cfg.maxBackoff {
          return cfg.maxBackoff;
        }
        i := i + 1;
      }
    }

    /** deliver. */
    method Deliver(c: Claim, a: Attempt, now: int)
      requires c.id < |jobs|
      modifies this
      ensures jobs == SettleOne(cfg, senders, old(jobs), c, a, now)
      ensures !a.written ==> jobs == old(jobs)
      ensures |jobs| == |old(jobs)| && forall i | 0 <= i < |jobs| && i != c.id :: jobs[i] == old(jobs)[i]
      ensures a.written ==>
        Means(cfg, old(jobs)[c.id], jobs[c.id], c,
              if c.channel !in senders then NoSender else if a.sends then Delivered else Failed(a.error), now)
    {
      ghost var s := if c.channel !in senders then NoSender else if a.sends then Delivered else Failed(a.error);
      SettleOutcome(cfg, jobs[c.id], c, s, now);
      hide Means, Backoff;
      var j := jobs[c.id];
      if c.channel !in senders {
        if a.written {
          jobs := jobs[c.id := j.(status := Dead, lastError := "no sender for channel " + c.channel, updatedAt := now)];
        }
        return;
      }
      if !a.written {
        return;
      }
      if a.sends {
        jobs := jobs[c.id := j.(status := Sent, lastError := "", updatedAt := now)];
      } else if c.attempts >= c.maxAttempts {
        jobs := jobs[c.id := j.(status := Dead, lastError := a.error, updatedAt := now)];
      } else {
        var d := RetryDelay(c.attempts);
        var next := now + d / SECOND;
        jobs := jobs[c.id := j.(nextAt := next, lastError := a.error, updatedAt := now)];
      }
    }

    /** processBatch. */
    method ProcessBatch(now: int, fault: ClaimFault, script: nat -> Attempt) returns (n: nat, ghost ids: seq<nat>)
      requires cfg.batch >= 1
      modifies this
      ensures IsRound(cfg, senders, old(jobs), jobs, ids, now, fault, script)
      ensures n == if fault.NoFault? then |ids| else 0
    {
      hide IsClaim, SettleOne, SettleAll, Means;
      var claimed;
      claimed, ids := ClaimDueDeliveries(now, cfg.lease / SECOND, cfg.batch, fault);
      if claimed.None? {
        return 0, ids;
      }
      ClaimInRange(old(jobs), ids, now, cfg.batch);
      var claims := claimed.value;
      ghost var leased := jobs;
      SettleNone(cfg, senders, leased, claims, script, now);
      for i := 0 to |claims|
        invariant jobs == SettleAll(cfg, senders, leased, claims[..i], script, now)
      {
        SettleOneMore(cfg, senders, leased, claims, script, now, i);
        Deliver(claims[i], script(i), now);
      }
      assert claims[..|claims|] == claims;
      n := |claims|;
    }

    /** The drain loop of RunWorker: batches until one comes back short. `clock`, `faults` and `script`
        give the time and the outcomes of each round. With marks that are written it ends, however
        the clock behaves and even if a failed job is due again at once. Unless the last claim
        failed, that round took every job that was due. No row is lost on the way and settled rows
        stay as they are. */
    method Drain(clock: nat -> int, faults: nat -> ClaimFault, script: nat -> nat -> Attempt)
      returns (rounds: nat, ghost before: seq<Job>, ghost ids: seq<nat>)
      requires cfg.batch >= 1
      requires forall r, i :: script(r)(i).written
      modifies this
      ensures Preserves(old(jobs), before) && Preserves(old(jobs), jobs) && |before| == |jobs| == |old(jobs)|
      ensures IsRound(cfg, senders, before, jobs, ids, clock(rounds), faults(rounds), script(rounds))
      ensures faults(rounds).NoFault? ==>
        |ids| < cfg.batch && forall i | 0 <= i < |jobs| && Due(jobs[i], clock(rounds)) :: i in ids
    {
      rounds := 0;
      while true
        invariant |jobs| == |old(jobs)| && Preserves(old(jobs), jobs)
        decreases Effort(jobs)
      {
        before := jobs;
        var n;
        n, ids := ProcessBatch(clock(rounds), faults(rounds), script(rounds));
        RoundPreserves(cfg, senders, before, jobs, ids, clock(rounds), faults(rounds), script(rounds));
        PreservesTransitive(old(jobs), before, jobs);
        if n < cfg.batch {
          if faults(rounds).NoFault? {
            RoundRows(cfg, senders, before, ids, clock(rounds), script(rounds));
          }
          return;
        }
        RoundSpendsEffort(cfg, senders, before, ids, clock(rounds), script(rounds));
        rounds := rounds + 1;
      }
    }
  }

  lemma SettleNone(cfg: Config, senders: set<string>, jobs: seq<Job>, claims: seq<Claim>, script: nat -> Attempt,
                   now: int)
    ensures SettleAll(cfg, senders, jobs, claims[..0], script, now) == jobs
  {
  }

  lemma SettleOneMore(cfg: Config, senders: set<string>, jobs: seq<Job>, claims: seq<Claim>, script: nat -> Attempt,
                      now: int, i: nat)
    requires i < |claims| && forall c | c in claims :: c.id < |jobs|
    ensures SettleAll(cfg, senders, jobs, claims[..i + 1], script, now)
            == SettleOne(cfg, senders, SettleAll(cfg, senders, jobs, claims[..i], script, now),
                         claims[i], script(i), now)
  {
    hide SettleOne;
    assert claims[..i + 1][..i] == claims[..i] && claims[..i + 1][i] == claims[i];
  }

  // ---- why draining ends ----

  /** What a job can still cost: its remaining attempts, and one for settling it. */
  function JobEffort(j: Job): nat {
    if !j.status.Pending? then 0 else 1 + if j.attempts < j.maxAttempts then j.maxAttempts - j.attempts else 0
  }

  function Effort(jobs: seq<Job>): nat {
    if jobs == [] then 0 else Effort(jobs[..|jobs| - 1]) + JobEffort(jobs[|jobs| - 1])
  }

  lemma {:induction false} EffortLess(a: seq<Job>, b: seq<Job>, k: nat)
    requires |a| == |b|
    requires forall i | 0 <= i < |a| :: JobEffort(b[i]) <= JobEffort(a[i])
    ensures Effort(b) <= Effort(a)
    ensures k < |a| && JobEffort(b[k]) < JobEffort(a[k]) ==> Effort(b) < Effort(a)
  {
    if a != [] {
      EffortLess(a[..|a| - 1], b[..|a| - 1], k);
    }
  }

  function Round(cfg: Config, senders: set<string>, jobs: seq<Job>, ids: seq<nat>, now: int,
                 script: nat -> Attempt): (r: seq<Job>)
    requires forall i | 0 <= i < |ids| :: ids[i] < |jobs|
    ensures |r| == |jobs|
  {
    var leased := Lease(jobs, ids, now, LeaseSeconds(cfg));
    SettleAll(cfg, senders, leased, ClaimsOf(leased, ids), script, now)
  }

  /** What one round does to the table, failed claims included. */
  ghost predicate IsRound(cfg: Config, senders: set<string>, jobs: seq<Job>, jobs': seq<Job>, ids: seq<nat>, now: int,
                          fault: ClaimFault, script: nat -> Attempt)
    requires cfg.batch >= 1
  {
    if fault.NoFault? then IsClaim(jobs, ids, now, cfg.batch) && jobs' == Round(cfg, senders, jobs, ids, now, script)
    else IsClaimed(jobs, jobs', ids, now, LeaseSeconds(cfg), cfg.batch, fault)
  }

  lemma LastIsAnother(claims: seq<Claim>)
    requires claims != [] && forall i, j | 0 <= i < j < |claims| :: claims[i].id != claims[j].id
    ensures claims[|claims| - 1] in claims
    ensures forall c | c in claims[..|claims| - 1] :: c.id != claims[|claims| - 1].id
  {
    var n := |claims| - 1;
    forall c | c in claims[..n] ensures c.id != claims[n].id {
      var k :| 0 <= k < n && claims[..n][k] == c;
      assert claims[k] == c;
    }
  }

  /** Each claimed row is settled once, from the copy claimed, and the others are left alone. */
  lemma {:induction false} SettledRows(cfg: Config, senders: set<string>, jobs: seq<Job>, claims: seq<Claim>,
                                       script: nat -> Attempt, now: int)
    requires forall c | c in claims :: c.id < |jobs|
    requires forall i, j | 0 <= i < j < |claims| :: claims[i].id != claims[j].id
    ensures var r := SettleAll(cfg, senders, jobs, claims, script, now);
            && (forall k | 0 <= k < |claims| ::
                  var c := claims[k];
                  r[c.id] == if script(k).written
                             then SettleRow(cfg, jobs[c.id], c, SendingOf(senders, c, script(k)), now)
                             else jobs[c.id])
            && (forall i | 0 <= i < |jobs| && (forall c | c in claims :: c.id != i) :: r[i] == jobs[i])
  {
    hide SettleRow, SendingOf;
    if claims != [] {
      var n := |claims| - 1;
      var front := claims[..n];
      SettledRows(cfg, senders, jobs, front, script, now);
      var r, r' := SettleAll(cfg, senders, jobs, front, script, now),
          SettleAll(cfg, senders, jobs, claims, script, now);
      LastIsAnother(claims);
      assert r[claims[n].id] == jobs[claims[n].id];
      forall k | 0 <= k < n ensures r'[claims[k].id] == r[claims[k].id] {
        assert front[k] == claims[k];
      }
    }
  }

  lemma RoundRows(cfg: Config, senders: set<string>, jobs: seq<Job>, ids: seq<nat>, now: int, script: nat -> Attempt)
    requires Distinct(ids) && forall i | 0 <= i < |ids| :: ids[i] < |jobs|
    ensures var leased := Lease(jobs, ids, now, LeaseSeconds(cfg));
            var r := Round(cfg, senders, jobs, ids, now, script);
            && (forall k | 0 <= k < |ids| ::
                  var c := ClaimOf(leased, ids[k]);
                  r[ids[k]] == if script(k).written
                               then SettleRow(cfg, leased[ids[k]], c, SendingOf(senders, c, script(k)), now)
                               else leased[ids[k]])
            && (forall i | 0 <= i < |jobs| && i !in ids :: r[i] == jobs[i])
  {
    hide SettleRow, SendingOf, SettleAll, Distinct;
    var leased := Lease(jobs, ids, now, LeaseSeconds(cfg));
    ClaimedIds(leased, ids);
    SettledRows(cfg, senders, leased, ClaimsOf(leased, ids), script, now);
  }

  /** A round from its outcomes alone: the rows taken spend an attempt and are held back for the lease,
      each whose mark is written is settled as its sending went, and no other row changes. */
  lemma RoundMeans(cfg: Config, senders: set<string>, jobs: seq<Job>, jobs': seq<Job>, ids: seq<nat>, now: int,
                   script: nat -> Attempt)
    requires cfg.batch >= 1 && IsRound(cfg, senders, jobs, jobs', ids, now, NoFault, script)
    ensures |jobs'| == |jobs| && forall i | 0 <= i < |jobs| && i !in ids :: jobs'[i] == jobs[i]
    ensures forall k | 0 <= k < |ids| ::
              var j := jobs[ids[k]];
              var leased := j.(attempts := j.attempts + 1, nextAt := now + cfg.lease / 1_000_000_000, updatedAt := now);
              var sending := if j.channel !in senders then NoSender
                             else if script(k).sends then Delivered else Failed(script(k).error);
              if !script(k).written then jobs'[ids[k]] == leased
              else Means(cfg, leased, jobs'[ids[k]], Claim(ids[k], j.channel, j.attempts + 1, j.maxAttempts),
                         sending, now)
  {
    RoundRows(cfg, senders, jobs, ids, now, script);
    var held := Lease(jobs, ids, now, LeaseSeconds(cfg));
    hide Means, Round, SettleRow, IsClaim;
    forall k | 0 <= k < |ids|
      ensures held[ids[k]] == jobs[ids[k]].(attempts := jobs[ids[k]].attempts + 1,
                                            nextAt := now + cfg.lease / 1_000_000_000, updatedAt := now)
      ensures var c := ClaimOf(held, ids[k]);
              Means(cfg, held[ids[k]], SettleRow(cfg, held[ids[k]], c, SendingOf(senders, c, script(k)), now),
                    c, SendingOf(senders, c, script(k)), now)
    {
      assert ids[k] in ids;
      var c := ClaimOf(held, ids[k]);
      SettleOutcome(cfg, held[ids[k]], c, SendingOf(senders, c, script(k)), now);
    }
  }

  lemma ClaimedIds(jobs: seq<Job>, ids: seq<nat>)
    requires Distinct(ids) && forall i | 0 <= i < |ids| :: ids[i] < |jobs|
    ensures var claims := ClaimsOf(jobs, ids);
            && (forall c | c in claims :: c.id in ids && c.id < |jobs|)
            && (forall k | 0 <= k < |ids| :: claims[k].id == ids[k])
            && (forall i, j | 0 <= i < j < |claims| :: claims[i].id != claims[j].id)
  {
  }

  lemma RoundPreserves(cfg: Config, senders: set<string>, jobs: seq<Job>, jobs': seq<Job>, ids: seq<nat>, now: int,
                       fault: ClaimFault, script: nat -> Attempt)
    requires cfg.batch >= 1 && IsRound(cfg, senders, jobs, jobs', ids, now, fault, script)
    requires forall k :: script(k).written
    ensures Preserves(jobs, jobs') && |jobs'| == |jobs|
  {
    if fault.NoFault? {
      RoundRows(cfg, senders, jobs, ids, now, script);
      forall i | 0 <= i < |jobs| && i in ids
        ensures jobs[i].status.Pending? && SameKey(jobs[i], jobs'[i]) && jobs[i].payload == jobs'[i].payload
      {
        var k :| 0 <= k < |ids| && ids[k] == i;
        var leased := Lease(jobs, ids, now, LeaseSeconds(cfg));
        var c := ClaimOf(leased, i);
        SettleKeepsKey(cfg, leased[i], c, SendingOf(senders, c, script(k)), now);
        hide SettleRow, Round;
      }
    }
    hide Round, SettleRow;
  }

  lemma SettleKeepsKey(cfg: Config, j: Job, c: Claim, s: Sending, now: int)
    ensures SameKey(j, SettleRow(cfg, j, c, s, now)) && j.payload == SettleRow(cfg, j, c, s, now).payload
  {
    hide Backoff;
  }

  /** A job taken in a round whose mark is written has less left to cost. */
  lemma SettledCostsLess(cfg: Config, j: Job, s: Sending, now: int, lease: int, id: nat)
    requires j.status.Pending?
    ensures var leased := j.(attempts := j.attempts + 1, nextAt := now + lease, updatedAt := now);
            var c := Claim(id, j.channel, j.attempts + 1, j.maxAttempts);
            JobEffort(SettleRow(cfg, leased, c, s, now)) < JobEffort(j)
  {
    hide Backoff;
  }

  lemma TakenRowCostsLess(cfg: Config, senders: set<string>, jobs: seq<Job>, ids: seq<nat>, now: int,
                          script: nat -> Attempt, k: nat)
    requires Distinct(ids) && forall i | 0 <= i < |ids| :: ids[i] < |jobs|
    requires k < |ids| && Due(jobs[ids[k]], now) && script(k).written
    ensures JobEffort(Round(cfg, senders, jobs, ids, now, script)[ids[k]]) < JobEffort(jobs[ids[k]])
  {
    RoundRows(cfg, senders, jobs, ids, now, script);
    hide SettleRow, SendingOf, JobEffort, Round;
    assert ids[k] in ids;
    var leased := Lease(jobs, ids, now, LeaseSeconds(cfg));
    var c := ClaimOf(leased, ids[k]);
    SettledCostsLess(cfg, jobs[ids[k]], SendingOf(senders, c, script(k)), now, LeaseSeconds(cfg), ids[k]);
  }

  lemma RoundSpendsEffort(cfg: Config, senders: set<string>, jobs: seq<Job>, ids: seq<nat>, now: int,
                          script: nat -> Attempt)
    requires Distinct(ids) && forall i | 0 <= i < |ids| :: ids[i] < |jobs| && Due(jobs[ids[i]], now)
    requires forall k :: script(k).written
    ensures ids != [] ==> Effort(Round(cfg, senders, jobs, ids, now, script)) < Effort(jobs)
  {
    if ids != [] {
      var r := Round(cfg, senders, jobs, ids, now, script);
      forall i | 0 <= i < |jobs| ensures JobEffort(r[i]) <= JobEffort(jobs[i]) {
        if i in ids {
          var k :| 0 <= k < |ids| && ids[k] == i;
          TakenRowCostsLess(cfg, senders, jobs, ids, now, script, k);
        } else {
          RoundRows(cfg, senders, jobs, ids, now, script);
        }
      }
      TakenRowCostsLess(cfg, senders, jobs, ids, now, script, 0);
      hide Round, JobEffort;
      EffortLess(jobs, r, ids[0]);
    }
  }

  // ---- a worker's batch is a run ----

  /** A worker trying and marking the first `n` jobs it holds. */
  ghost function FinishN(cfg: Config, senders: set<string>, w: World, script: nat -> Attempt, n: nat): (w': World)
    requires Fits(w) && n <= |w.held|
    ensures Fits(w')
  {
    if n == 0 then w
    else
      var v := FinishN(cfg, senders, w, script, n - 1);
      var sent := Exec(cfg, senders, v, SendStep(0, SendingOf(senders, w.held[n - 1].claim, script(n - 1))));
      Exec(cfg, senders, sent, MarkStep(0, script(n - 1).written))
  }

  /** processBatch is a sequence of enabled Send and Mark steps of the interleaved outbox: it leaves
      the same table. */
  lemma {:induction false} BatchIsRun(cfg: Config, senders: set<string>, w: World, claims: seq<Claim>, at: int,
                                      script: nat -> Attempt, n: nat)
    requires Fits(w) && n <= |w.held| == |claims|
    requires forall i | 0 <= i < |claims| ::
               claims[i].id < |w.jobs| && w.held[i].claim == claims[i] && w.held[i].at == at && w.held[i].sending.None?
    ensures var v := FinishN(cfg, senders, w, script, n);
            v.held == w.held[n..] && v.jobs == SettleAll(cfg, senders, w.jobs, claims[..n], script, at)
  {
    if n > 0 {
      BatchIsRun(cfg, senders, w, claims, at, script, n - 1);
      var v := FinishN(cfg, senders, w, script, n - 1);
      assert claims[..n][..n - 1] == claims[..n - 1];
      hide SettleAll, SettleRow;
      assert v.held[0] == w.held[n - 1];
      FinishOne(cfg, senders, v, script(n - 1));
      assert w.held[n - 1..][1..] == w.held[n..];
    }
  }

  lemma FinishOne(cfg: Config, senders: set<string>, v: World, a: Attempt)
    requires Fits(v) && v.held != [] && v.held[0].sending.None?
    ensures var c := v.held[0].claim;
            var sent := Exec(cfg, senders, v, SendStep(0, SendingOf(senders, c, a)));
            var v' := Exec(cfg, senders, sent, MarkStep(0, a.written));
            c.id < |v.jobs| && v'.held == v.held[1..] && v'.jobs == SettleOne(cfg, senders, v.jobs, c, a, v.held[0].at)
  {
    hide SettleRow;
    assert v.held[0] in v.held;
  }
}
