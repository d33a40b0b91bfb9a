/** The ledgers of the outbox counted off its runs, step by step. */
module OutboxLedger {
  import opened Text
  import opened Outbox
  import opened OutboxRuns
  import opened OutboxBudget

  datatype Happening = AClaim | ASend | ADelivery | ALateSend | AClosing

  /** What step `s` does to job `id`. */
  ghost predicate Happens(cfg: Config, senders: set<string>, w: World, s: Step, id: nat, what: Happening)
    requires Fits(w)
  {
    && Enabled(senders, w, s) && id < |w.jobs|
    && match what
       case AClaim => s.ClaimStep? && id in s.ids
       case ASend => s.SendStep? && w.held[s.k].claim.id == id && w.held[s.k].claim.channel in senders
       case ADelivery => s.SendStep? && w.held[s.k].claim.id == id && s.sending == Delivered
       case ALateSend =>
         && s.SendStep? && w.held[s.k].claim.id == id && w.held[s.k].claim.channel in senders
         && w.jobs[id].status != Pending
       case AClosing =>
         var jobs := Exec(cfg, senders, w, s).jobs;
         id < |jobs| && jobs[id].status != w.jobs[id].status
  }

  /** How often it happened in a run. */
  ghost function Count(cfg: Config, senders: set<string>, steps: seq<Step>, id: nat, what: Happening): nat {
    if steps == [] then 0
    else
      var n := |steps| - 1;
      Count(cfg, senders, steps[..n], id, what)
      + if Happens(cfg, senders, Run(cfg, senders, steps[..n]), steps[n], id, what) then 1 else 0
  }

  function Entry(l: Ledger, what: Happening): nat {
    match what
    case AClaim => l.claims
    case ASend => l.sends
    case ADelivery => l.delivered
    case ALateSend => l.lateSends
    case AClosing => l.closings
  }

  lemma EntryStep(cfg: Config, senders: set<string>, w: World, s: Step, id: nat, what: Happening)
    requires Fits(w)
    ensures var w' := Exec(cfg, senders, w, s);
            && |w.jobs| <= |w'.jobs|
            && (id < |w.jobs| ==>
                  Entry(w'.ledgers[id], what)
                  == Entry(w.ledgers[id], what) + if Happens(cfg, senders, w, s, id, what) then 1 else 0)
            && (|w.jobs| <= id < |w'.jobs| ==> Entry(w'.ledgers[id], what) == 0)
  {
    hide SettleRow;
    if Enabled(senders, w, s) && (s.SendStep? || s.MarkStep?) {
      assert w.held[s.k] in w.held;
    }
  }

  /** The ledgers say what happened: claims, sends, deliveries, sends after a change of status, and
      changes of status of every job. */
  lemma {:induction false} LedgersCount(cfg: Config, senders: set<string>, steps: seq<Step>, id: nat, what: Happening)
    ensures var w := Run(cfg, senders, steps);
            Count(cfg, senders, steps, id, what) == if id < |w.jobs| then Entry(w.ledgers[id], what) else 0
  {
    if steps != [] {
      var n := |steps| - 1;
      LedgersCount(cfg, senders, steps[..n], id, what);
      EntryStep(cfg, senders, Run(cfg, senders, steps[..n]), steps[n], id, what);
      hide Exec, Entry;
    }
  }

  /** The safety of the outbox counted in steps: over every run within leases a job has as many attempts
      as claims, changes its status once if it is settled and never if not, is not sent after that,
      and 'sent' only after a delivery; a pending one is due again within the lease or one of the
      configured delays of its last update; without crashes and lost writes it is sent at most MaxAttempts
      times. */
  lemma CountedSafety(cfg: Config, senders: set<string>, steps: seq<Step>, id: nat)
    requires Sensible(cfg) && Leased(cfg, senders, steps) && id < |Run(cfg, senders, steps).jobs|
    ensures var j := Run(cfg, senders, steps).jobs[id];
            && j.attempts == Count(cfg, senders, steps, id, AClaim)
            && Count(cfg, senders, steps, id, AClosing) == (if j.status == Pending then 0 else 1)
            && Count(cfg, senders, steps, id, ALateSend) == 0
            && (j.status == Sent ==> Count(cfg, senders, steps, id, ADelivery) >= 1)
            && (j.status == Pending ==>
                  exists wait | wait in [0, cfg.lease / SECOND, cfg.baseBackoff / SECOND, cfg.maxBackoff / SECOND] ::
                    j.nextAt <= j.updatedAt + wait)
            && (FaultFree(steps) ==> Count(cfg, senders, steps, id, ASend) <= cfg.maxAttempts)
  {
    hide *;
    JobIsOk(cfg, senders, steps, id);
    LongestWaitIsOne(cfg);
    if FaultFree(steps) {
      SendsBounded(cfg, senders, steps, id);
    }
    EntriesCount(cfg, senders, steps, id);
  }

  lemma JobIsOk(cfg: Config, senders: set<string>, steps: seq<Step>, id: nat)
    requires Sensible(cfg) && Leased(cfg, senders, steps) && id < |Run(cfg, senders, steps).jobs|
    ensures var j, l := Run(cfg, senders, steps).jobs[id], Run(cfg, senders, steps).ledgers[id];
            && j.attempts == l.claims && (j.status == Sent ==> l.delivered >= 1)
            && l.closings == (if j.status == Pending then 0 else 1) && l.lateSends == 0
            && (j.status == Pending ==> j.nextAt <= j.updatedAt + LongestWait(cfg))
  {
    hide Run, Leased, Sensible, HeldOk, UniqueKeys, Exclusive, LongestWait;
    OutboxSafety(cfg, senders, steps);
    var w := Run(cfg, senders, steps);
    assert JobOk(cfg, w.jobs[id], w.ledgers[id]);
  }

  lemma LongestWaitIsOne(cfg: Config)
    ensures LongestWait(cfg) in [0, cfg.lease / SECOND, cfg.baseBackoff / SECOND, cfg.maxBackoff / SECOND]
  {
  }

  lemma SendsBounded(cfg: Config, senders: set<string>, steps: seq<Step>, id: nat)
    requires Sensible(cfg) && Leased(cfg, senders, steps) && FaultFree(steps) && id < |Run(cfg, senders, steps).jobs|
    ensures Run(cfg, senders, steps).ledgers[id].sends <= cfg.maxAttempts
  {
    hide *;
    SendBudget(cfg, senders, steps);
  }

  lemma EntriesCount(cfg: Config, senders: set<string>, steps: seq<Step>, id: nat)
    requires id < |Run(cfg, senders, steps).jobs|
    ensures var l := Run(cfg, senders, steps).ledgers[id];
            && l.claims == Count(cfg, senders, steps, id, AClaim) && l.sends == Count(cfg, senders, steps, id, ASend)
            && l.delivered == Count(cfg, senders, steps, id, ADelivery)
            && l.lateSends == Count(cfg, senders, steps, id, ALateSend)
            && l.closings == Count(cfg, senders, steps, id, AClosing)
  {
    hide Run, Count;
    LedgersCount(cfg, senders, steps, id, AClaim);
    LedgersCount(cfg, senders, steps, id, ASend);
    LedgersCount(cfg, senders, steps, id, ADelivery);
    LedgersCount(cfg, senders, steps, id, ALateSend);
    LedgersCount(cfg, senders, steps, id, AClosing);
  }
}
