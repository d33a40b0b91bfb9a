/** When retention overtakes the export: which entries a prune deletes before the collector took them. */
module ExportLoss {
  import opened AuditCodec
  import opened AuditLog
  import opened AuditExport
  import opened AuditRetention
  import opened ExportRuns

  /** The prune gets as far as its DELETE. */
  predicate Deletes(log: Log, before: int, fault: Fault) {
    var last := LastOld(log.rows, before);
    last >= 0 && |log.rows[last].hash| >= 12 && !fault.InsertFails? && !fault.DeleteFails?
  }

  function OldIds(rows: seq<Row>, before: int): set<int> {
    set r | r in rows && Old(r, before) :: r.id
  }

  /** The entry a prune writes about itself goes with the others. */
  function OwnId(log: Log, before: int, now: int): set<int> {
    if now < before then {log.nextId} else {}
  }

  // ---- what a prune takes away ----

  lemma GoneAfterInsert(sha: string -> string, log: Log, c: Content)
    requires LogOk(log)
    ensures Gone(Insert(sha, log, c)) == Gone(log)
  {
    hide NewRow;
    NewRowId(sha, log, c);
    var r, log' := NewRow(sha, log, c), Insert(sha, log, c);
    assert r !in log.history && r in log'.rows;
    assert forall x :: x in log'.rows <==> x in log.rows || x == r;
    assert forall x :: x in log'.history <==> x in log.history || x == r;
  }

  lemma PrunedRows(sha: string -> string, rfc3339: int -> string, log: Log, before: int, actor: string, now: int,
                   fault: Fault)
    returns (entry: Content)
    requires Deletes(log, before, fault)
    ensures var log' := AuditLog.Prune(sha, rfc3339, log, before, actor, now, fault).0;
            var r := NewRow(sha, log, entry);
            && log'.history == log.history + [r] && r.id == log.nextId && (Old(r, before) <==> now < before)
            && log'.rows == Kept(log.rows + [r], before)
  {
    entry := Normalise(PruneEntry(rfc3339, before, actor, log.rows[LastOld(log.rows, before)].hash), now);
    hide Kept, CountOld, AuditCodec.Canonical;
  }

  /** The ids no longer stored after a prune. */
  lemma GoneAfterPrune(sha: string -> string, rfc3339: int -> string, log: Log, before: int, actor: string, now: int,
                       fault: Fault)
    requires LogOk(log)
    ensures Gone(AuditLog.Prune(sha, rfc3339, log, before, actor, now, fault).0)
            == Gone(log) + if Deletes(log, before, fault)
                           then OldIds(log.rows, before) + OwnId(log, before, now) else {}
  {
    var log' := AuditLog.Prune(sha, rfc3339, log, before, actor, now, fault).0;
    if Deletes(log, before, fault) {
      var entry := PrunedRows(sha, rfc3339, log, before, actor, now, fault);
      hide *;
      var r := NewRow(sha, log, entry);
      KeptAreRows(log.rows + [r], before);
      GoneOf(log, log', r, before, now);
    } else {
      UndeletedLog(sha, rfc3339, log, before, actor, now, fault);
    }
  }

  lemma GoneOf(log: Log, log': Log, r: Row, before: int, now: int)
    requires LogOk(log) && r.id == log.nextId && (Old(r, before) <==> now < before)
    requires log'.history == log.history + [r]
    requires forall x :: x in log'.rows <==> x in log.rows + [r] && !Old(x, before)
    ensures Gone(log') == Gone(log) + OldIds(log.rows, before) + OwnId(log, before, now)
  {
    hide Old, IdsAscend;
    assert r in log.rows + [r] && r in log'.history;
    assert forall x :: x in log.rows + [r] <==> x in log.rows || x == r;
    assert forall x :: x in log'.history <==> x in log.history || x == r;
  }

  lemma UndeletedLog(sha: string -> string, rfc3339: int -> string, log: Log, before: int, actor: string, now: int,
                     fault: Fault)
    requires LogOk(log) && !Deletes(log, before, fault)
    ensures Gone(AuditLog.Prune(sha, rfc3339, log, before, actor, now, fault).0) == Gone(log)
  {
    hide LogOk, Gone, Insert;
    var last := LastOld(log.rows, before);
    if last >= 0 && |log.rows[last].hash| >= 12 {
      GoneAfterInsert(sha, log, Normalise(PruneEntry(rfc3339, before, actor, log.rows[last].hash), now));
    }
  }

  /** Ids of stored rows are not gone, and neither is one yet to be given out. */
  lemma StoredIsNotGone(log: Log)
    requires LogOk(log)
    ensures forall r | r in log.rows :: r.id !in Gone(log)
    ensures log.nextId !in Gone(log)
  {
    forall r, x | r in log.rows && x in log.history && r.id == x.id ensures r == x {
      var i :| 0 <= i < |log.history| && log.history[i] == r;
      var j :| 0 <= j < |log.history| && log.history[j] == x;
    }
  }

  /** Exactly what a prune loses: the old rows the collector has not taken, and its own entry if the
      cutoff is later than that. */
  lemma PruneLoses(sha: string -> string, rfc3339: int -> string, s: System, before: int, actor: string, now: int,
                   fault: Fault)
    requires Inv(s)
    ensures Exec(sha, rfc3339, s, ExportRuns.Prune(before, actor, now, fault)).lost
            == s.lost + if Deletes(s.log, before, fault)
                        then OldIds(s.log.rows, before) - s.accepted + OwnId(s.log, before, now) else {}
  {
    hide AuditLog.Prune, Deletes, Old, PhaseOk, Settled;
    GoneAfterPrune(sha, rfc3339, s.log, before, actor, now, fault);
    StoredIsNotGone(s.log);
    hide LogOk, Gone;
  }

  /** A prune that deletes comes after its cutoff, and after the collector took what it deletes. */
  ghost predicate Careful(s: System, step: Step) {
    step.Prune? && Deletes(s.log, step.before, step.fault) ==>
      step.before <= step.now && forall r | r in s.log.rows && Old(r, step.before) :: r.id in s.accepted
  }

  /** A step loses nothing if and only if it is not a careless prune. */
  lemma LosesNothingIff(sha: string -> string, rfc3339: int -> string, s: System, step: Step)
    requires Inv(s)
    ensures Exec(sha, rfc3339, s, step).lost == s.lost <==> Careful(s, step)
  {
    hide Deletes, Old, PhaseOk, Settled, AuditLog.Prune;
    if step.Prune? {
      PruneLoses(sha, rfc3339, s, step.before, step.actor, step.now, step.fault);
      StoredIsNotGone(s.log);
      hide Exec, LogOk, Gone;
    } else if step.Append? && step.content.action != "" {
      GoneAfterInsert(sha, s.log, Normalise(step.content, step.now));
      hide Gone, LogOk, Insert;
    }
  }

  /** The collector has taken every stored row the cursor has passed. */
  lemma PassedIsAccepted(s: System)
    requires Inv(s)
    ensures forall r | r in s.log.rows && r.id <= s.cursor :: r.id in s.accepted
  {
    StoredIsNotGone(s.log);
    hide Gone, PhaseOk;
  }

  /** What a caller can check beforehand: a cutoff not later than now whose last row the cursor has
      passed loses nothing. */
  lemma CaughtUpPruneLosesNothing(sha: string -> string, rfc3339: int -> string, s: System, before: int, actor: string,
                                  now: int, fault: Fault)
    requires Inv(s) && before <= now
    requires LastOld(s.log.rows, before) >= 0 ==> s.log.rows[LastOld(s.log.rows, before)].id <= s.cursor
    ensures Exec(sha, rfc3339, s, ExportRuns.Prune(before, actor, now, fault)).lost == s.lost
  {
    assert IdsAscend(s.log.rows);
    hide Exec, Inv, IdsAscend, LastOld, Old, Deletes;
    OldArePassed(s.log.rows, before, s.cursor);
    PassedIsAccepted(s);
    LosesNothingIff(sha, rfc3339, s, ExportRuns.Prune(before, actor, now, fault));
  }

  lemma OldArePassed(rows: seq<Row>, before: int, pos: int)
    requires IdsAscend(rows) && (LastOld(rows, before) >= 0 ==> rows[LastOld(rows, before)].id <= pos)
    ensures forall r | r in rows && Old(r, before) :: r.id <= pos
  {
    hide Old;
    forall r | r in rows && Old(r, before) ensures r.id <= pos {
      var i :| 0 <= i < |rows| && rows[i] == r;
    }
  }

  // ---- whole runs ----

  ghost predicate CarefulRun(sha: string -> string, rfc3339: int -> string, steps: seq<Step>) {
    forall i | 0 <= i < |steps| :: Careful(Run(sha, rfc3339, steps[..i]), steps[i])
  }

  /** A run has lost nothing if and only if each of its prunes was careful. Then every entry ever
      appended up to the cursor was taken by the collector. */
  lemma {:induction false} RunLosesNothingIff(sha: string -> string, rfc3339: int -> string, steps: seq<Step>)
    ensures var s := Run(sha, rfc3339, steps);
            && (s.lost == {} <==> CarefulRun(sha, rfc3339, steps))
            && (s.lost == {} ==> forall r | r in s.log.history && r.id <= s.cursor :: r.id in s.accepted)
  {
    ExportConservation(sha, rfc3339, steps);
    hide Inv, Exec, Careful;
    if steps != [] {
      var n := |steps| - 1;
      var s := Run(sha, rfc3339, steps[..n]);
      RunLosesNothingIff(sha, rfc3339, steps[..n]);
      ExportConservation(sha, rfc3339, steps[..n]);
      LosesNothingIff(sha, rfc3339, s, steps[n]);
      StepKeepsInv(sha, rfc3339, s, steps[n]);
      CarefulSnoc(sha, rfc3339, steps);
    }
  }

  lemma CarefulSnoc(sha: string -> string, rfc3339: int -> string, steps: seq<Step>)
    requires steps != []
    ensures var n := |steps| - 1;
            CarefulRun(sha, rfc3339, steps)
            <==> CarefulRun(sha, rfc3339, steps[..n]) && Careful(Run(sha, rfc3339, steps[..n]), steps[n])
  {
    hide Run, Careful;
    var n := |steps| - 1;
    forall i | 0 <= i < n ensures steps[..n][..i] == steps[..i] && steps[..n][i] == steps[i] {}
    if CarefulRun(sha, rfc3339, steps[..n]) && Careful(Run(sha, rfc3339, steps[..n]), steps[n]) {
      forall i | 0 <= i < |steps| ensures Careful(Run(sha, rfc3339, steps[..i]), steps[i]) {
        if i < n {
          assert Careful(Run(sha, rfc3339, steps[..n][..i]), steps[..n][i]);
        }
      }
    }
  }

  /** Deleted, never taken, and not in a batch on its way. */
  ghost predicate Missing(s: System, id: int) {
    id in Gone(s.log) && id !in s.accepted && (s.phase.Idle? || id !in Ids(s.phase.batch))
  }

  /** An entry lost like that stays so, whatever follows: no later pass ships it. */
  lemma MissingForGood(sha: string -> string, rfc3339: int -> string, s: System, step: Step, id: int)
    requires Inv(s) && Missing(s, id)
    ensures Missing(Exec(sha, rfc3339, s, step), id)
  {
    hide Settled, PhaseOk;
    match step
    case Append(c, now) =>
      GoneAfterInsert(sha, s.log, Normalise(c, now));
      hide Gone, LogOk, Insert, Ids;
    case Prune(before, actor, now, fault) =>
      GoneAfterPrune(sha, rfc3339, s.log, before, actor, now, fault);
      hide AuditLog.Prune, Gone, LogOk, Ids;
    case Fetch(limit) =>
      StoredIsNotGone(s.log);
      SinceIsStored(s.log.rows, s.cursor, limit);
      hide Gone, LogOk, Since;
    case ShipOk => hide Gone, LogOk;
    case ShipFails(n) => hide Gone, LogOk;
    case _ => hide Gone, LogOk, Ids;
  }

  lemma SinceIsStored(rows: seq<Row>, pos: int, limit: int)
    ensures forall r | r in Since(rows, pos, limit) :: r in rows
  {
    AboveIsStored(rows, pos);
    hide Above;
  }

  lemma {:induction false} AboveIsStored(rows: seq<Row>, pos: int)
    ensures forall r | r in Above(rows, pos) :: r in rows
  {
    if rows != [] {
      AboveIsStored(rows[..|rows| - 1], pos);
    }
  }

  /** ... over whole runs: what is missing at some point is never accepted after it. */
  lemma {:induction false} MissingAfterRun(sha: string -> string, rfc3339: int -> string, steps: seq<Step>, n: nat,
                                           id: int)
    requires n <= |steps| && Missing(Run(sha, rfc3339, steps[..n]), id)
    ensures Missing(Run(sha, rfc3339, steps), id)
    decreases |steps|
  {
    hide Missing, Exec, Inv;
    if n == |steps| {
      assert steps[..n] == steps;
    } else {
      var front := steps[..|steps| - 1];
      assert front[..n] == steps[..n];
      MissingAfterRun(sha, rfc3339, front, n, id);
      ExportConservation(sha, rfc3339, front);
      MissingForGood(sha, rfc3339, Run(sha, rfc3339, front), steps[|steps| - 1], id);
    }
  }

  // ---- two runs that lose an entry ----

  lemma RunSnoc(sha: string -> string, rfc3339: int -> string, steps: seq<Step>, step: Step)
    ensures Run(sha, rfc3339, steps + [step]) == Exec(sha, rfc3339, Run(sha, rfc3339, steps), step)
  {
    assert (steps + [step])[..|steps|] == steps;
  }

  /** One entry has been appended. */
  function OneEntry(sha: string -> string, c: Content, now: int): Log {
    Insert(sha, EMPTY, Normalise(c, now))
  }

  lemma FirstAppend(sha: string -> string, rfc3339: int -> string, c: Content, now: int)
    requires IsSha(sha) && c.action != ""
    ensures var s := Run(sha, rfc3339, [Append(c, now)]);
            s.log == OneEntry(sha, c, now) && s == INITIAL.(log := s.log)
    ensures var log := OneEntry(sha, c, now);
            && Intact(sha, log) && |log.rows| == 1 && log.rows[0].id == 1 && log.nextId == 2
            && log.rows[0].content == Normalise(c, now) && |log.rows[0].hash| == 64
  {
    hide AuditCodec.Canonical;
    RunSnoc(sha, rfc3339, [], Append(c, now));
    assert [] + [Append(c, now)] == [Append(c, now)];
    InsertKeepsSuffix(sha, EMPTY, Normalise(c, now));
  }

  /** Retention faster than the export: an entry pruned before the exporter came round is missing for
      good, and the log verifies all the same. */
  lemma OvertakenRun(sha: string -> string, rfc3339: int -> string, c: Content, at: int, before: int, actor: string,
                     now: int)
    requires IsSha(sha) && c.action != "" && Normalise(c, at).at < before <= now
    ensures var s := Run(sha, rfc3339, [Append(c, at), ExportRuns.Prune(before, actor, now, NoFault)]);
            s.lost == {1} && Missing(s, 1) && Chained(sha, s.log.anchor, s.log.rows)
  {
    hide AuditCodec.Canonical, Normalise, Run, Inv, Intact, Chained, AuditLog.Prune;
    FirstAppend(sha, rfc3339, c, at);
    ExportConservation(sha, rfc3339, [Append(c, at)]);
    var s1, prune := Run(sha, rfc3339, [Append(c, at)]), ExportRuns.Prune(before, actor, now, NoFault);
    RunSnoc(sha, rfc3339, [Append(c, at)], prune);
    assert [Append(c, at)] + [prune] == [Append(c, at), prune];
    hide OneEntry;
    PruneLoses(sha, rfc3339, s1, before, actor, now, NoFault);
    GoneAfterPrune(sha, rfc3339, s1.log, before, actor, now, NoFault);
    PrefixPruneVerifies(sha, rfc3339, s1.log, before, actor, now);
    assert s1.log.rows[0] in s1.log.rows;
  }

  /** A cutoff in the future loses the prune's own entry even when the exporter has fully caught up. */
  lemma FutureCutoffRun(sha: string -> string, rfc3339: int -> string, c: Content, at: int, before: int,
                        actor: string, now: int)
    requires IsSha(sha) && c.action != "" && Normalise(c, at).at < before && now < before
    ensures var shipped := [Append(c, at), Fetch(200), ShipOk, WriteCursor];
            var caughtUp := Run(sha, rfc3339, shipped);
            var s := Run(sha, rfc3339, shipped + [ExportRuns.Prune(before, actor, now, NoFault)]);
            && Above(caughtUp.log.rows, caughtUp.cursor) == [] && caughtUp.lost == {}
            && s.lost == {2} && Missing(s, 2)
  {
    hide AuditCodec.Canonical, Normalise;
    var shipped := [Append(c, at), Fetch(200), ShipOk, WriteCursor];
    ShippedRun(sha, rfc3339, c, at);
    FirstAppend(sha, rfc3339, c, at);
    ExportConservation(sha, rfc3339, shipped);
    var s4, prune := Run(sha, rfc3339, shipped), ExportRuns.Prune(before, actor, now, NoFault);
    RunSnoc(sha, rfc3339, shipped, prune);
    hide Run, Inv, OneEntry, AuditLog.Prune;
    PruneLoses(sha, rfc3339, s4, before, actor, now, NoFault);
    GoneAfterPrune(sha, rfc3339, s4.log, before, actor, now, NoFault);
    assert s4.log.rows[0] in s4.log.rows;
  }

  lemma ShippedRun(sha: string -> string, rfc3339: int -> string, c: Content, at: int)
    requires IsSha(sha) && c.action != ""
    ensures Run(sha, rfc3339, [Append(c, at), Fetch(200), ShipOk, WriteCursor])
            == System(OneEntry(sha, c, at), 1, Idle, {1}, {})
    ensures Above(OneEntry(sha, c, at).rows, 1) == []
  {
    hide *;
    FirstAppend(sha, rfc3339, c, at);
    FourSteps(sha, rfc3339, Append(c, at), Fetch(200), ShipOk, WriteCursor);
    AboveIs(OneEntry(sha, c, at).rows, 1, 1);
    ShipOneRow(sha, rfc3339, OneEntry(sha, c, at));
  }

  lemma ShipOneRow(sha: string -> string, rfc3339: int -> string, log: Log)
    requires |log.rows| == 1 && log.rows[0].id == 1
    ensures var s := INITIAL.(log := log);
            Exec(sha, rfc3339, Exec(sha, rfc3339, Exec(sha, rfc3339, s, Fetch(200)), ShipOk), WriteCursor)
            == System(log, 1, Idle, {1}, {})
  {
    AboveIs(log.rows, 0, 0);
    hide Above, AuditLog.Prune, Insert;
    assert Since(log.rows, 0, 200) == log.rows;
    hide Since;
    assert Ids(log.rows) == {1};
    hide Ids;
  }

  lemma FourSteps(sha: string -> string, rfc3339: int -> string, a: Step, b: Step, c: Step, d: Step)
    ensures var s := Run(sha, rfc3339, [a]);
            Run(sha, rfc3339, [a, b, c, d])
            == Exec(sha, rfc3339, Exec(sha, rfc3339, Exec(sha, rfc3339, s, b), c), d)
  {
    hide Run, Exec;
    RunSnoc(sha, rfc3339, [a], b);
    RunSnoc(sha, rfc3339, [a, b], c);
    RunSnoc(sha, rfc3339, [a, b, c], d);
    assert [a] + [b] == [a, b] && [a, b] + [c] == [a, b, c] && [a, b, c] + [d] == [a, b, c, d];
  }
}
