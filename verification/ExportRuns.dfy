/** The exporter interleaved with appends and prunes, statement by statement, with crashes. */
module ExportRuns {
  import opened AuditCodec
  import opened AuditLog
  import opened AuditExport
  import opened AuditRetention

  /** What the exporter goroutine holds between two statements. */
  datatype Phase = Idle | Fetched(batch: seq<Row>) | Taken(batch: seq<Row>)

  /** `accepted` are the ids the collector has taken at least once; `lost` those deleted by a prune
      before it had (of which a batch already fetched may still bring some). Neither is read by any step. */
  datatype System = System(log: Log, cursor: int, phase: Phase, accepted: set<int>, lost: set<int>)

  const INITIAL := System(EMPTY, 0, Idle, {}, {})

  datatype Step =
    | Append(content: Content, now: int)
    | Prune(before: int, actor: string, now: int, fault: Fault)
    | Fetch(limit: int)
    | ShipOk
    | ShipFails(taken: nat)       // the first `taken` records were out before the error
    | WriteCursor
    | Crash                       // or a failed cursor write: nothing is remembered but the tables

  function Ids(rows: seq<Row>): set<int> {
    set r | r in rows :: r.id
  }

  /** Entries that were appended and are no longer stored. */
  function Gone(log: Log): set<int> {
    set r | r in log.history && r !in log.rows :: r.id
  }

  function ChangeLog(s: System, log': Log): System {
    s.(log := log', lost := s.lost + (Gone(log') - Gone(s.log) - s.accepted))
  }

  function Exec(sha: string -> string, rfc3339: int -> string, s: System, step: Step): System {
    match step
    case Append(c, now) =>
      if c.action == "" then s else ChangeLog(s, Insert(sha, s.log, Normalise(c, now)))
    case Prune(before, actor, now, fault) =>
      ChangeLog(s, AuditLog.Prune(sha, rfc3339, s.log, before, actor, now, fault).0)
    case Fetch(limit) =>
      var b := Since(s.log.rows, s.cursor, limit);
      if s.phase.Idle? && b != [] then s.(phase := Fetched(b)) else s
    case ShipOk =>
      if s.phase.Fetched? then s.(phase := Taken(s.phase.batch), accepted := s.accepted + Ids(s.phase.batch)) else s
    case ShipFails(n) =>
      if s.phase.Fetched? && n <= |s.phase.batch|
      then s.(phase := Idle, accepted := s.accepted + Ids(s.phase.batch[..n])) else s
    case WriteCursor =>
      if s.phase.Taken? && s.phase.batch != []
      then s.(phase := Idle, cursor := s.phase.batch[|s.phase.batch| - 1].id) else s
    case Crash => s.(phase := Idle)
  }

  function Run(sha: string -> string, rfc3339: int -> string, steps: seq<Step>): System {
    if steps == [] then INITIAL
    else Exec(sha, rfc3339, Run(sha, rfc3339, steps[..|steps| - 1]), steps[|steps| - 1])
  }

  // ---- the invariant ----

  ghost predicate LogOk(log: Log) {
    && IdsAscend(log.history) && IdsAscend(log.rows)
    && (forall r | r in log.history :: 0 < r.id < log.nextId)
    && (forall r | r in log.rows :: r in log.history)
  }

  /** Everything up to `pos` was taken by the collector or pruned before it could be. */
  ghost predicate Settled(s: System, pos: int, extra: set<int>) {
    forall r | r in s.log.history && r.id <= pos :: r.id in s.accepted + s.lost + extra
  }

  ghost predicate PhaseOk(s: System) {
    s.phase.Idle? ||
    var b := s.phase.batch;
    && b != [] && IdsAscend(b)
    && s.cursor < b[0].id && b[|b| - 1].id < s.log.nextId
    && Settled(s, b[|b| - 1].id, Ids(b))
    && (s.phase.Taken? ==> Ids(b) <= s.accepted)
  }

  ghost predicate Inv(s: System) {
    && LogOk(s.log)
    && s.lost <= Gone(s.log) <= s.accepted + s.lost
    && (forall id | id in s.accepted :: id < s.log.nextId)
    && Settled(s, s.cursor, {})
    && 0 < s.log.nextId && s.cursor < s.log.nextId
    && PhaseOk(s)
  }

  // ---- changes of the table ----

  /** At most one row is appended, and stored rows only disappear. */
  ghost predicate Grows(log: Log, log': Log) {
    && LogOk(log')
    && log.nextId <= log'.nextId
    && (forall r | r in log.history :: r in log'.history)
    && (forall r | r in log'.history && r !in log.history :: r.id >= log.nextId)
    && (forall r | r in log'.rows :: r in log.rows || r.id >= log.nextId)
  }

  lemma InsertGrows(sha: string -> string, log: Log, c: Content)
    requires LogOk(log) && 0 < log.nextId
    ensures Grows(log, Insert(sha, log, c))
  {
    hide NewRow;
    var r := NewRow(sha, log, c);
    assert r.id == log.nextId by { NewRowId(sha, log, c); }
    assert forall x | x in log.rows + [r] :: x in log.rows || x == r;
    assert forall x | x in log.history + [r] :: x in log.history || x == r;
  }

  lemma NewRowId(sha: string -> string, log: Log, c: Content)
    ensures NewRow(sha, log, c).id == log.nextId
  {
  }

  lemma {:induction false} KeptRows(rows: seq<Row>, before: int)
    ensures forall r | r in Kept(rows, before) :: r in rows
    ensures IdsAscend(rows) ==> IdsAscend(Kept(rows, before))
  {
    KeptAreRows(rows, before);
    if rows != [] {
      KeptRows(rows[1..], before);
      KeptAreRows(rows[1..], before);
      if IdsAscend(rows) && Kept(rows[1..], before) != [] {
        var k := Kept(rows[1..], before);
        forall i | 0 <= i < |k| ensures rows[0].id < k[i].id {
          assert k[i] in rows[1..];
        }
      }
    }
  }

  lemma PruneGrows(sha: string -> string, rfc3339: int -> string, log: Log, before: int, actor: string, now: int,
                   fault: Fault)
    requires LogOk(log) && 0 < log.nextId
    ensures Grows(log, AuditLog.Prune(sha, rfc3339, log, before, actor, now, fault).0)
  {
    var last := LastOld(log.rows, before);
    if last >= 0 && |log.rows[last].hash| >= 12 && !fault.InsertFails? {
      var entry := Normalise(PruneEntry(rfc3339, before, actor, log.rows[last].hash), now);
      InsertGrows(sha, log, entry);
      KeptRows(Insert(sha, log, entry).rows, before);
    }
  }

  /** What is gone stays gone. */
  lemma GoneGrows(log: Log, log': Log)
    requires LogOk(log) && Grows(log, log')
    ensures Gone(log) <= Gone(log')
  {
    forall r | r in log.history && r !in log.rows ensures r !in log'.rows {}
  }

  lemma ChangeKeepsInv(s: System, log': Log)
    requires Inv(s) && Grows(s.log, log')
    ensures Inv(ChangeLog(s, log'))
  {
    var s' := ChangeLog(s, log');
    GoneGrows(s.log, log');
    if !s.phase.Idle? {
      var b := s.phase.batch;
      assert Settled(s', b[|b| - 1].id, Ids(b));
    }
  }

  /** A fetched batch holds every stored row from the cursor to its own last id. */
  lemma FetchedRows(rows: seq<Row>, cursor: int, limit: int)
    requires IdsAscend(rows) && Since(rows, cursor, limit) != []
    ensures var b := Since(rows, cursor, limit);
            && IdsAscend(b) && cursor < b[0].id && b[|b| - 1] in rows
            && forall r | r in rows && cursor < r.id <= b[|b| - 1].id :: r in b
  {
    var n := AboveIsSuffix(rows, cursor);
    var b := Since(rows, cursor, limit);
    assert b == rows[n..][..|b|];
    hide Since, Above;
    WindowRows(rows, n, |b|, cursor);
  }

  /** Consecutive rows from the first one above the cursor. */
  lemma WindowRows(rows: seq<Row>, n: nat, k: nat, cursor: int)
    requires IdsAscend(rows) && 0 < k <= |rows| - n
    requires forall i | 0 <= i < |rows| :: rows[i].id > cursor <==> i >= n
    ensures var b := rows[n..][..k];
            && IdsAscend(b) && cursor < b[0].id && b[k - 1] in rows
            && forall r | r in rows && cursor < r.id <= b[k - 1].id :: r in b
  {
    var b := rows[n..][..k];
    assert forall i | 0 <= i < k :: b[i] == rows[n + i];
    forall r | r in rows && cursor < r.id <= b[k - 1].id ensures r in b {
      var i :| 0 <= i < |rows| && rows[i] == r;
      assert rows[i] == b[i - n];
    }
  }

  lemma FetchKeepsInv(s: System, limit: int)
    requires Inv(s) && s.phase.Idle? && Since(s.log.rows, s.cursor, limit) != []
    ensures Inv(s.(phase := Fetched(Since(s.log.rows, s.cursor, limit))))
  {
    var b := Since(s.log.rows, s.cursor, limit);
    FetchedRows(s.log.rows, s.cursor, limit);
    hide Since;
    forall r | r in s.log.history && r.id <= b[|b| - 1].id ensures r.id in s.accepted + s.lost + Ids(b) {
      if r.id > s.cursor && r !in s.log.rows {
        assert r.id in Gone(s.log);
      }
    }
  }

  lemma ShipKeepsInv(sha: string -> string, rfc3339: int -> string, s: System, step: Step)
    requires Inv(s) && (step.ShipOk? || step.ShipFails? || step.WriteCursor? || step.Crash?)
    ensures var s' := Exec(sha, rfc3339, s, step);
            Inv(s') && s.cursor <= s'.cursor && s.accepted <= s'.accepted && s.lost <= s'.lost
  {
    hide LogOk, Gone, Since;
    match step
    case ShipFails(n) =>
      if s.phase.Fetched? && n <= |s.phase.batch| {
        AcceptKeepsInv(s, s.phase.batch[..n], Idle);
      }
    case ShipOk =>
      if s.phase.Fetched? {
        AcceptKeepsInv(s, s.phase.batch, Taken(s.phase.batch));
      }
    case _ =>
      hide IdsAscend;
  }

  /** Taking a part of the batch in hand. */
  lemma AcceptKeepsInv(s: System, taken: seq<Row>, phase: Phase)
    requires Inv(s) && s.phase.Fetched? && taken <= s.phase.batch
    requires phase == Idle || (phase == Taken(s.phase.batch) && taken == s.phase.batch)
    ensures Inv(s.(phase := phase, accepted := s.accepted + Ids(taken)))
  {
    BatchIdsBelow(s.phase.batch, taken, s.log.nextId);
    hide LogOk, Gone, IdsAscend;
  }

  lemma BatchIdsBelow(batch: seq<Row>, taken: seq<Row>, next: int)
    requires batch != [] && IdsAscend(batch) && batch[|batch| - 1].id < next && taken <= batch
    ensures forall id | id in Ids(taken) :: id < next
  {
    forall r | r in taken ensures r.id < next {
      var i :| 0 <= i < |taken| && taken[i] == r;
      assert batch[i] == r;
    }
  }

  lemma StepKeepsInv(sha: string -> string, rfc3339: int -> string, s: System, step: Step)
    requires Inv(s)
    ensures var s' := Exec(sha, rfc3339, s, step);
            Inv(s') && s.cursor <= s'.cursor && s.accepted <= s'.accepted && s.lost <= s'.lost
  {
    match step
    case Append(c, now) =>
      if c.action != "" {
        InsertGrows(sha, s.log, Normalise(c, now));
        ChangeKeepsInv(s, Insert(sha, s.log, Normalise(c, now)));
      }
    case Prune(before, actor, now, fault) =>
      PruneGrows(sha, rfc3339, s.log, before, actor, now, fault);
      ChangeKeepsInv(s, AuditLog.Prune(sha, rfc3339, s.log, before, actor, now, fault).0);
    case Fetch(limit) =>
      if s.phase.Idle? && Since(s.log.rows, s.cursor, limit) != [] {
        FetchKeepsInv(s, limit);
      }
    case _ =>
      ShipKeepsInv(sha, rfc3339, s, step);
      hide Inv;
  }

  /** Over every interleaving of appends, prunes (sound or not, complete or cut short), shipments,
      cursor writes and crashes: each entry ever appended whose id the cursor has passed was taken
      by the collector, or a prune deleted it first. */
  lemma {:induction false} ExportConservation(sha: string -> string, rfc3339: int -> string, steps: seq<Step>)
    ensures var s := Run(sha, rfc3339, steps);
            && Inv(s)
            && forall r | r in s.log.history && r.id <= s.cursor :: r.id in s.accepted || r.id in s.lost
  {
    if steps != [] {
      var front := steps[..|steps| - 1];
      ExportConservation(sha, rfc3339, front);
      StepKeepsInv(sha, rfc3339, Run(sha, rfc3339, front), steps[|steps| - 1]);
    }
  }

  /** The cursor never goes back over a run, and nothing taken is forgotten. */
  lemma {:induction false} CursorMonotone(sha: string -> string, rfc3339: int -> string, steps: seq<Step>, n: nat)
    requires n <= |steps|
    ensures Run(sha, rfc3339, steps[..n]).cursor <= Run(sha, rfc3339, steps).cursor
    ensures Run(sha, rfc3339, steps[..n]).accepted <= Run(sha, rfc3339, steps).accepted
    decreases |steps|
  {
    if n == |steps| {
      assert steps[..n] == steps;
    } else {
      var front := steps[..|steps| - 1];
      CursorMonotone(sha, rfc3339, front, n);
      assert front[..n] == steps[..n];
      ExportConservation(sha, rfc3339, front);
      StepKeepsInv(sha, rfc3339, Run(sha, rfc3339, front), steps[|steps| - 1]);
    }
  }
}
