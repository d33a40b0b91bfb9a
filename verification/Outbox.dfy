/** The delivery_jobs table (server/internal/store/delivery.go), the retry delay, and what a worker
    does to a claimed job (server/internal/delivery/delivery.go). */
module Outbox {

  datatype Status = Pending | Sent | Dead

  /** A row of delivery_jobs. Rows are never deleted, so a row's id is its position. Times are unix
      seconds. */
  datatype Job = Job(
    alertId: string, channel: string, target: string, payload: string, maxAttempts: int,
    status: Status, attempts: int, nextAt: int, lastError: string, updatedAt: int)

  predicate SameKey(j: Job, k: Job) {
    j.alertId == k.alertId && j.channel == k.channel && j.target == k.target
  }

  /** INSERT ... ON CONFLICT (alert_id, channel, target) DO NOTHING. */
  function Enqueue(jobs: seq<Job>, alertId: string, channel: string, target: string, payload: string,
                   maxAttempts: int, now: int): seq<Job>
  {
    var j := Job(alertId, channel, target, payload, maxAttempts, Pending, 0, now, "", now);
    if exists k | 0 <= k < |jobs| :: SameKey(jobs[k], j) then jobs else jobs + [j]
  }

  predicate Due(j: Job, now: int) {
    j.status.Pending? && j.nextAt <= now
  }

  /** UPDATE ... SET attempts = attempts + 1, next_attempt_at = now + lease WHERE id IN (ids). */
  function Lease(jobs: seq<Job>, ids: seq<nat>, now: int, lease: int): (r: seq<Job>)
    ensures |r| == |jobs|
    ensures forall i | 0 <= i < |jobs| ::
              r[i] == if i in ids
                      then jobs[i].(attempts := jobs[i].attempts + 1, nextAt := now + lease, updatedAt := now)
                      else jobs[i]
  {
    seq(|jobs|, i requires 0 <= i < |jobs| =>
      if i in ids then jobs[i].(attempts := jobs[i].attempts + 1, nextAt := now + lease, updatedAt := now)
      else jobs[i])
  }

  /** The copy of a row a worker works from. */
  datatype Claim = Claim(id: nat, channel: string, attempts: int, maxAttempts: int)

  function ClaimOf(jobs: seq<Job>, id: nat): Claim
    requires id < |jobs|
  {
    Claim(id, jobs[id].channel, jobs[id].attempts, jobs[id].maxAttempts)
  }

  // ---- configuration ----

  /** Durations are nanoseconds, as in Go. */
  datatype Config = Config(maxAttempts: int, baseBackoff: int, maxBackoff: int, lease: int, batch: int)

  const SECOND := 1_000_000_000

  function WithDefaults(c: Config): (d: Config)
    ensures d.maxAttempts >= 1 && d.baseBackoff >= 1 && d.maxBackoff >= 1 && d.lease >= 1 && d.batch >= 1
  {
    Config(if c.maxAttempts <= 0 then 6 else c.maxAttempts,
           if c.baseBackoff <= 0 then 2 * SECOND else c.baseBackoff,
           if c.maxBackoff <= 0 then 300 * SECOND else c.maxBackoff,
           if c.lease <= 0 then 60 * SECOND else c.lease,
           if c.batch <= 0 then 50 else c.batch)
  }

  // ---- the retry delay ----

  const TWO63 := 0x8000_0000_0000_0000
  const TWO62 := 0x4000_0000_0000_0000

  /** Two's-complement int64. */
  function Wrap(x: int): int {
    (x + TWO63) % (2 * TWO63) - TWO63
  }

  /** The doubling loop of backoff, from iteration `i` with delay `d`. */
  function Doubling(d: int, max: int, i: int, attempts: int): int
    decreases attempts - i
  {
    if i >= attempts then d
    else if Wrap(2 * d) >= max then max
    else Doubling(Wrap(2 * d), max, i + 1, attempts)
  }

  function Backoff(base: int, max: int, attempts: int): int {
    Doubling(base, max, 1, attempts)
  }

  function Pow2(n: nat): nat {
    if n == 0 then 1 else 2 * Pow2(n - 1)
  }

  lemma WrapIsExact(x: int)
    requires -TWO63 <= x < TWO63
    ensures Wrap(x) == x
  {
  }

  lemma DoubleAtLeast(d: int, n: nat)
    requires d > 0
    ensures d * Pow2(n + 1) == 2 * d * Pow2(n)
    ensures d * Pow2(n) >= d
  {
    PowPositive(n);
    MulAtLeast(d, Pow2(n));
  }

  lemma MulAtLeast(d: int, p: int)
    requires d > 0 && p >= 1
    ensures d * p >= d
  {
  }

  lemma {:induction false} PowPositive(n: nat)
    ensures Pow2(n) >= 1
  {
    if n > 0 {
      PowPositive(n - 1);
    }
  }

  lemma {:induction false} DoublingIsMin(d: int, max: int, i: int, attempts: int)
    requires 0 < d < TWO62 && max <= TWO62
    requires i < attempts
    ensures Doubling(d, max, i, attempts) == if d * Pow2(attempts - i) < max then d * Pow2(attempts - i) else max
    decreases attempts - i
  {
    hide Wrap;
    var n := attempts - i - 1;
    WrapIsExact(2 * d);
    DoubleAtLeast(d, n);
    DoubleAtLeast(2 * d, n);
    if 2 * d < max && n > 0 {
      DoublingIsMin(2 * d, max, i + 1, attempts);
    }
  }

  /** For configured delays up to 2^62 nanoseconds nothing overflows: the first retry waits exactly
      BaseBackoff, the n-th min(BaseBackoff * 2^(n-1), MaxBackoff). */
  lemma BackoffClosedForm(base: int, max: int, attempts: int)
    requires 0 < base < TWO62 && max <= TWO62
    ensures Backoff(base, max, attempts) ==
              if attempts <= 1 then base
              else if base * Pow2(attempts - 1) < max then base * Pow2(attempts - 1) else max
  {
    if attempts > 1 {
      DoublingIsMin(base, max, 1, attempts);
    }
  }

  /** The documented cap holds for every attempt exactly when the base does not exceed it. */
  lemma BackoffCap(base: int, max: int)
    requires 0 < base < TWO62 && max <= TWO62
    ensures (forall attempts :: Backoff(base, max, attempts) <= max) <==> base <= max
  {
    BackoffClosedForm(base, max, 1);
    assert Backoff(base, max, 1) == base;
    if base <= max {
      forall attempts ensures Backoff(base, max, attempts) <= max {
        BackoffClosedForm(base, max, attempts);
      }
    }
  }

  // ---- settling a claimed job ----

  /** How a Send went; `NoSender` when the channel is not configured and nothing was sent. */
  datatype Sending = Delivered | Failed(error: string) | NoSender

  /** The row after a worker has tried claim `c` and written the outcome. */
  function SettleRow(cfg: Config, j: Job, c: Claim, s: Sending, now: int): Job {
    match s
    case NoSender => j.(status := Dead, lastError := "no sender for channel " + c.channel, updatedAt := now)
    case Delivered => j.(status := Sent, lastError := "", updatedAt := now)
    case Failed(error) =>
      if c.attempts >= c.maxAttempts then j.(status := Dead, lastError := error, updatedAt := now)
      else
        var next := now + Backoff(cfg.baseBackoff, cfg.maxBackoff, c.attempts) / SECOND;
        j.(nextAt := next, lastError := error, updatedAt := now)
  }

  /** min(BaseBackoff * 2^(n-1), MaxBackoff), except that the first retry waits BaseBackoff. */
  function RetryAfter(cfg: Config, attempts: int): int {
    if attempts <= 1 then cfg.baseBackoff
    else
      var uncapped := cfg.baseBackoff * Pow2(attempts - 1);
      if uncapped < cfg.maxBackoff then uncapped else cfg.maxBackoff
  }

  /** Delays for which the doubling does not overflow. */
  predicate ExactDelays(cfg: Config) {
    0 < cfg.baseBackoff < TWO62 && cfg.maxBackoff <= TWO62
  }

  /** What an outcome means for the row: nothing but status, error, due time and update time changes; a
      delivery or a missing sender settles it, and a failure does on the last attempt and else makes
      it due again after the documented delay. */
  ghost predicate Means(cfg: Config, j: Job, r: Job, c: Claim, s: Sending, now: int) {
    && SameKey(r, j) && r.payload == j.payload && r.maxAttempts == j.maxAttempts && r.attempts == j.attempts
    && r.updatedAt == now
    && (s.Delivered? ==> r.status == Sent && r.lastError == "" && r.nextAt == j.nextAt)
    && (s.NoSender? ==> r.status == Dead && r.lastError == "no sender for channel " + c.channel && r.nextAt == j.nextAt)
    && (s.Failed? ==> r.lastError == s.error)
    && (s.Failed? && c.maxAttempts <= c.attempts ==> r.status == Dead && r.nextAt == j.nextAt)
    && (s.Failed? && c.attempts < c.maxAttempts ==>
          r.status == j.status && (ExactDelays(cfg) ==> r.nextAt == now + RetryAfter(cfg, c.attempts) / SECOND))
  }

  lemma SettleOutcome(cfg: Config, j: Job, c: Claim, s: Sending, now: int)
    ensures Means(cfg, j, SettleRow(cfg, j, c, s, now), c, s, now)
  {
    if ExactDelays(cfg) {
      BackoffClosedForm(cfg.baseBackoff, cfg.maxBackoff, c.attempts);
    }
    hide Backoff, Pow2;
  }

  /** A configured value is kept, and one that is not positive is replaced by the documented default. */
  lemma DefaultsFill(c: Config)
    ensures WithDefaults(Config(0, 0, 0, 0, 0)) == Config(6, 2 * SECOND, 5 * 60 * SECOND, 60 * SECOND, 50)
    ensures var d, e := WithDefaults(c), WithDefaults(Config(0, 0, 0, 0, 0));
            && d.maxAttempts == (if c.maxAttempts > 0 then c.maxAttempts else e.maxAttempts)
            && d.baseBackoff == (if c.baseBackoff > 0 then c.baseBackoff else e.baseBackoff)
            && d.maxBackoff == (if c.maxBackoff > 0 then c.maxBackoff else e.maxBackoff)
            && d.lease == (if c.lease > 0 then c.lease else e.lease)
            && d.batch == (if c.batch > 0 then c.batch else e.batch)
    ensures SECOND == 1000 * 1000 * 1000
  {
  }

  /** The marks are unconditional updates by id: neither status nor holder is asked for. */
  function Settle(cfg: Config, jobs: seq<Job>, c: Claim, s: Sending, now: int): seq<Job>
    requires c.id < |jobs|
  {
    jobs[c.id := SettleRow(cfg, jobs[c.id], c, s, now)]
  }
}
