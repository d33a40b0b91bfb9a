/** Rows removed from or slipped into a stored log, and whole runs of appends and prunes. */
module AuditRuns {
  import opened AuditCodec
  import opened AuditLog
  import opened AuditChain
  import opened AuditRetention

  /** Deleting one row of an intact log is blamed on its successor, and goes unnoticed exactly
      when there is none. */
  lemma DeletedRow(sha: string -> string, log: Log, i: nat)
    requires IsSha(sha) && Intact(sha, log) && i < |log.rows|
    ensures var t := log.rows[..i] + log.rows[i + 1..];
            || HashClash(sha, log.history, log.history)
            || (FirstBad(sha, log.anchor, t) == i && (Chained(sha, log.anchor, t) <==> i == |log.rows| - 1))
  {
    hide AuditCodec.Canonical, Ascending;
    if !HashClash(sha, log.history, log.history) {
      var t, k := log.rows[..i] + log.rows[i + 1..], |log.history| - |log.rows|;
      IntactVerifies(sha, log);
      forall j | 0 <= j < i ensures LinkOk(sha, log.anchor, t, j) {
        assert LinkOk(sha, log.anchor, log.rows, j);
      }
      if i < |t| {
        AnchorsDiffer(sha, log.history, k + i, k + i + 1);
        SuffixRow(sha, log, i + 1);
      }
      FirstBadIs(sha, log.anchor, t, i);
      FirstBadEnd(sha, log.anchor, t);
    }
  }

  /** No well-made row other than a stored one can carry the hash its successor points back to. */
  lemma ForgedPredecessor(sha: string -> string, h: seq<Row>, n: nat, r: Row)
    requires IsSha(sha) && Chained(sha, "", h) && n <= |h|
    requires r.prevHash == Before("", h, n) && r.hash == sha(Preimage(r))
    requires !HashClash(sha, h, h) && !HashClash(sha, [r], h)
    ensures r.hash != Before("", h, n)
  {
    hide AuditCodec.Canonical;
    if n > 0 && r.hash == Before("", h, n) {
      assert LinkOk(sha, "", h, n - 1);
      SameHashSameRow(sha, [r], 0, h, n - 1);
      AnchorsDiffer(sha, h, n, n - 1);
    }
  }

  /** Inserting one row is noticed at that row when it does not check out by itself, else at the
      row pushed back; only a well-made row at the very end passes. */
  lemma InsertedRow(sha: string -> string, log: Log, i: nat, r: Row)
    requires IsSha(sha) && Intact(sha, log) && i <= |log.rows|
    ensures var t := log.rows[..i] + [r] + log.rows[i..];
            || HashClash(sha, log.history, log.history)
            || HashClash(sha, [r], log.history)
            || FirstBad(sha, log.anchor, t) ==
                 if r.prevHash != Before(log.anchor, log.rows, i) || r.hash != sha(Preimage(r)) then i
                 else if i == |log.rows| then |t|
                 else i + 1
  {
    hide AuditCodec.Canonical, Ascending, HashClash;
    if !HashClash(sha, log.history, log.history) && !HashClash(sha, [r], log.history) {
      var t, k := log.rows[..i] + [r] + log.rows[i..], |log.history| - |log.rows|;
      IntactVerifies(sha, log);
      forall j | 0 <= j < i ensures LinkOk(sha, log.anchor, t, j) {
        assert LinkOk(sha, log.anchor, log.rows, j);
      }
      var good := r.prevHash == Before(log.anchor, log.rows, i) && r.hash == sha(Preimage(r));
      if good && i < |log.rows| {
        SuffixRow(sha, log, i);
        ForgedPredecessor(sha, log.history, k + i, r);
        assert t[i + 1] == log.rows[i];
      }
      FirstBadIs(sha, log.anchor, t, if !good then i else if i == |log.rows| then |t| else i + 1);
    }
  }

  // ---- runs ----

  datatype Step =
    | AppendStep(content: Content, now: int)
    | PruneStep(before: int, actor: string, now: int)

  function Exec(sha: string -> string, rfc3339: int -> string, log: Log, s: Step): Log {
    match s
    case AppendStep(c, now) => if c.action == "" then log else Insert(sha, log, Normalise(c, now))
    case PruneStep(before, actor, now) => Prune(sha, rfc3339, log, before, actor, now, NoFault).0
  }

  function Run(sha: string -> string, rfc3339: int -> string, steps: seq<Step>): Log {
    if steps == [] then EMPTY
    else Exec(sha, rfc3339, Run(sha, rfc3339, steps[..|steps| - 1]), steps[|steps| - 1])
  }

  /** A run stores what it is given: an append with an action adds one row, the newest, that holds the
      entry with the missing time and actor type filled in; one without is refused. */
  lemma AppendIsStored(sha: string -> string, rfc3339: int -> string, steps: seq<Step>, c: Content, now: int)
    ensures var log, log' := Run(sha, rfc3339, steps), Run(sha, rfc3339, steps + [AppendStep(c, now)]);
            if c.action == "" then log' == log
            else
              && |log'.rows| == |log.rows| + 1 && log.rows <= log'.rows && log'.anchor == log.anchor
              && |log'.history| == |log.history| + 1 && log.history <= log'.history
              && var r := log'.rows[|log.rows|];
                 && log'.history[|log.history|] == r && r.id == log.nextId && log'.nextId == log.nextId + 1
                 && r.content.(at := c.at, actorType := c.actorType) == c
                 && r.content.at == (if c.at == 0 then now else c.at)
                 && r.content.actorType == (if c.actorType == "" then "system" else c.actorType)
  {
    hide AuditCodec.Canonical;
    assert (steps + [AppendStep(c, now)])[..|steps|] == steps;
  }

  /** ... and a prune in a run does what a completed prune means. */
  lemma PruneIsDone(sha: string -> string, rfc3339: int -> string, steps: seq<Step>, before: int, actor: string,
                    now: int)
    returns (r: PruneResult)
    ensures var log, log' := Run(sha, rfc3339, steps), Run(sha, rfc3339, steps + [PruneStep(before, actor, now)]);
            PruneMeans(rfc3339, log, before, actor, now, NoFault, log', r)
  {
    hide PruneMeans, Prune;
    var log, step := Run(sha, rfc3339, steps), PruneStep(before, actor, now);
    assert (steps + [step])[..|steps|] == steps;
    PruneOutcome(sha, rfc3339, log, before, actor, now, NoFault);
    r := Prune(sha, rfc3339, log, before, actor, now, NoFault).1;
  }

  /** A prune removes an id-prefix and nothing as young as its own entry. */
  ghost predicate SoundStep(log: Log, s: Step) {
    s.PruneStep? ==> s.before <= s.now && OldIsPrefix(log.rows, s.before)
  }

  ghost predicate SoundRun(sha: string -> string, rfc3339: int -> string, steps: seq<Step>) {
    forall i | 0 <= i < |steps| :: SoundStep(Run(sha, rfc3339, steps[..i]), steps[i])
  }

  lemma SoundStepKeepsIntact(sha: string -> string, rfc3339: int -> string, log: Log, s: Step)
    requires IsSha(sha) && Intact(sha, log) && SoundStep(log, s)
    ensures Intact(sha, Exec(sha, rfc3339, log, s))
  {
    hide AuditCodec.Canonical, Ascending;
    match s
    case AppendStep(c, now) => InsertKeepsSuffix(sha, log, Normalise(c, now));
    case PruneStep(before, actor, now) =>
      if LastOld(log.rows, before) >= 0 {
        var _ := PrunePrefix(sha, rfc3339, log, before, actor, now);
      }
  }

  lemma {:induction false} RunIsIntact(sha: string -> string, rfc3339: int -> string, steps: seq<Step>)
    requires IsSha(sha) && SoundRun(sha, rfc3339, steps)
    ensures Intact(sha, Run(sha, rfc3339, steps))
  {
    hide AuditCodec.Canonical, Exec, SoundStep;
    if steps != [] {
      var n := |steps| - 1;
      forall i | 0 <= i < n ensures SoundStep(Run(sha, rfc3339, steps[..n][..i]), steps[..n][i]) {
        assert steps[..n][..i] == steps[..i];
      }
      RunIsIntact(sha, rfc3339, steps[..n]);
      SoundStepKeepsIntact(sha, rfc3339, Run(sha, rfc3339, steps[..n]), steps[n]);
    }
  }

  /** After any run of appends and sound prunes: verification passes over every stored row, the
      rows are the end of everything ever appended with the anchor just before them, and no two
      hashes ever produced are equal (or SHA-256 has collided on strings of this very run). */
  lemma EveryRunVerifies(sha: string -> string, rfc3339: int -> string, steps: seq<Step>)
    requires IsSha(sha) && SoundRun(sha, rfc3339, steps)
    ensures var log := Run(sha, rfc3339, steps);
            && FirstBad(sha, log.anchor, log.rows) == |log.rows|
            && Intact(sha, log)
            && (|| HashClash(sha, log.history, log.history)
                || forall i, j | 0 <= i < j < |log.history| :: log.history[i].hash != log.history[j].hash)
  {
    hide AuditCodec.Canonical, Ascending;
    var log := Run(sha, rfc3339, steps);
    RunIsIntact(sha, rfc3339, steps);
    IntactVerifies(sha, log);
    FirstBadEnd(sha, log.anchor, log.rows);
    AllHashesDistinct(sha, log.history);
  }

  // ---- runs stamped by a clock ----

  /** Entries are stamped by a clock that never goes back, and no cutoff lies in the future. */
  ghost predicate Clocked(steps: seq<Step>) {
    && (forall i | 0 <= i < |steps| ::
          if steps[i].AppendStep? then steps[i].content.at == 0 else steps[i].before <= steps[i].now)
    && (forall i, j | 0 <= i < j < |steps| :: steps[i].now <= steps[j].now)
  }

  ghost predicate InTimeOrder(rows: seq<Row>, latest: int) {
    && (forall i, j | 0 <= i < j < |rows| :: rows[i].content.at <= rows[j].content.at)
    && (forall i | 0 <= i < |rows| :: rows[i].content.at <= latest)
  }

  lemma StoredInTimeOrder(sha: string -> string, log: Log, before: int, latest: int)
    requires Suffix(sha, log) && InTimeOrder(log.history, latest)
    ensures OldIsPrefix(log.rows, before)
  {
    hide AuditCodec.Canonical, Ascending, Chained;
    var k := |log.history| - |log.rows|;
    forall i, j | 0 <= i < j < |log.rows| ensures log.rows[i].content.at <= log.rows[j].content.at {
      assert log.rows[i] == log.history[k + i] && log.rows[j] == log.history[k + j];
    }
    OrderedTimesPruneSoundly(log.rows, before);
  }

  lemma ClockedStep(sha: string -> string, rfc3339: int -> string, log: Log, s: Step, latest: int)
    requires IsSha(sha) && Intact(sha, log) && InTimeOrder(log.history, latest) && latest <= s.now
    requires if s.AppendStep? then s.content.at == 0 else s.before <= s.now
    ensures SoundStep(log, s)
    ensures InTimeOrder(Exec(sha, rfc3339, log, s).history, s.now)
  {
    hide AuditCodec.Canonical, Ascending, Chained, OldIsPrefix, Prune;
    if s.PruneStep? {
      StoredInTimeOrder(sha, log, s.before, latest);
      if LastOld(log.rows, s.before) >= 0 {
        var entry := PruneSteps(sha, rfc3339, log, s.before, s.actor, s.now);
      } else {
        NothingToPrune(sha, rfc3339, log, s.before, s.actor, s.now);
      }
    }
  }

  lemma ClockedPrefix(steps: seq<Step>)
    requires Clocked(steps) && steps != []
    ensures var n := |steps| - 1;
            && Clocked(steps[..n]) && (n > 0 ==> steps[n - 1].now <= steps[n].now)
            && if steps[n].AppendStep? then steps[n].content.at == 0 else steps[n].before <= steps[n].now
  {
  }

  lemma SoundSnoc(sha: string -> string, rfc3339: int -> string, steps: seq<Step>)
    requires steps != [] && SoundRun(sha, rfc3339, steps[..|steps| - 1])
    requires SoundStep(Run(sha, rfc3339, steps[..|steps| - 1]), steps[|steps| - 1])
    ensures SoundRun(sha, rfc3339, steps)
  {
    hide SoundStep, Run;
    var n := |steps| - 1;
    forall i | 0 <= i < |steps| ensures SoundStep(Run(sha, rfc3339, steps[..i]), steps[i]) {
      if i < n {
        assert steps[..n][..i] == steps[..i] && steps[..n][i] == steps[i];
      }
    }
  }

  lemma {:induction false} ClockedRunIsSound(sha: string -> string, rfc3339: int -> string, steps: seq<Step>)
    requires IsSha(sha) && Clocked(steps)
    ensures SoundRun(sha, rfc3339, steps)
    ensures steps != [] ==> InTimeOrder(Run(sha, rfc3339, steps).history, steps[|steps| - 1].now)
  {
    hide AuditCodec.Canonical, Exec, SoundStep, Clocked, Intact, IsSha;
    if steps != [] {
      var n := |steps| - 1;
      var front := steps[..n];
      ClockedPrefix(steps);
      ClockedRunIsSound(sha, rfc3339, front);
      RunIsIntact(sha, rfc3339, front);
      ClockedStep(sha, rfc3339, Run(sha, rfc3339, front), steps[n], if n == 0 then steps[n].now else steps[n - 1].now);
      SoundSnoc(sha, rfc3339, steps);
    }
  }

  /** A cutoff later than the prune's own entry, over rows that are all old, deletes that entry
      too: the chain restarts from nothing behind a non-empty anchor, and the next append can never
      verify. */
  lemma FutureCutoffBreaksTheChain(sha: string -> string, rfc3339: int -> string, log: Log, before: int, actor: string,
                                   now: int, c: Content)
    requires IsSha(sha) && Intact(sha, log) && log.rows != []
    requires now < before && forall i | 0 <= i < |log.rows| :: Old(log.rows[i], before)
    ensures var log' := Prune(sha, rfc3339, log, before, actor, now, NoFault).0;
            && log'.rows == []
            && FirstBad(sha, log'.anchor, Insert(sha, log', c).rows) == 0
  {
    hide AuditCodec.Canonical, Ascending;
    var last := |log.rows| - 1;
    SuffixRow(sha, log, last);
    assert Old(log.rows[last], before);
    var entry := Normalise(PruneEntry(rfc3339, before, actor, log.rows[last].hash), now);
    KeptOfPrefix(log.rows, before, |log.rows|);
    KeptOfSnoc(log.rows, NewRow(sha, log, entry), before);
    var log' := Prune(sha, rfc3339, log, before, actor, now, NoFault).0;
    assert !LinkOk(sha, log'.anchor, Insert(sha, log', c).rows, 0);
  }
}
