/** The hash-chained audit table as a value, and what appending, pruning and verifying do to it
    (server/internal/store/audit.go and audit_prune.go). */
module AuditLog {
  import opened AuditCodec

  datatype Row = Row(id: int, content: Content, prevHash: string, hash: string)

  /** The table in id order, the anchor setting ("" when unset), the next AUTOINCREMENT id, and
      every row ever inserted, which no operation reads. */
  datatype Log = Log(rows: seq<Row>, anchor: string, nextId: int, history: seq<Row>)

  const EMPTY := Log([], "", 1, [])

  /** SHA-256 in hex: any function from byte strings to 64 characters. */
  ghost predicate IsSha(sha: string -> string) {
    forall b :: |sha(b)| == 64
  }

  /** The bytes a row's hash is taken over. */
  function Preimage(r: Row): string {
    Canonical(r.content, r.prevHash)
  }

  /** The hash the row at `i` has to point back to. */
  function Before(anchor: string, rows: seq<Row>, i: nat): string
    requires i <= |rows|
  {
    if i == 0 then anchor else rows[i - 1].hash
  }

  ghost predicate LinkOk(sha: string -> string, anchor: string, rows: seq<Row>, i: nat)
    requires i < |rows|
  {
    rows[i].prevHash == Before(anchor, rows, i) && rows[i].hash == sha(Preimage(rows[i]))
  }

  ghost predicate Chained(sha: string -> string, anchor: string, rows: seq<Row>) {
    forall i | 0 <= i < |rows| :: LinkOk(sha, anchor, rows, i)
  }

  /** The first row that does not check out, or |rows|. */
  ghost function FirstBad(sha: string -> string, anchor: string, rows: seq<Row>, from: nat := 0): (b: nat)
    requires from <= |rows|
    ensures from <= b <= |rows|
    ensures forall i | from <= i < b :: LinkOk(sha, anchor, rows, i)
    ensures b < |rows| ==> !LinkOk(sha, anchor, rows, b)
    decreases |rows| - from
  {
    if from == |rows| || !LinkOk(sha, anchor, rows, from) then from else FirstBad(sha, anchor, rows, from + 1)
  }

  // ---- appending ----

  /** The defaults AppendAudit fills in before hashing. */
  function Normalise(c: Content, now: int): Content {
    c.(at := if c.at == 0 then now else c.at, actorType := if c.actorType == "" then "system" else c.actorType)
  }

  function NewRow(sha: string -> string, log: Log, c: Content): Row {
    var prev := Before("", log.rows, |log.rows|);
    Row(log.nextId, c, prev, sha(Canonical(c, prev)))
  }

  function Insert(sha: string -> string, log: Log, c: Content): Log {
    var r := NewRow(sha, log, c);
    Log(log.rows + [r], log.anchor, log.nextId + 1, log.history + [r])
  }

  // ---- pruning ----

  predicate Old(r: Row, before: int) {
    r.content.at < before
  }

  /** The index of the last row by id that is old enough to go, or -1. */
  function LastOld(rows: seq<Row>, before: int): (i: int)
    ensures -1 <= i < |rows|
    ensures i >= 0 ==> Old(rows[i], before)
    ensures forall j | i < j < |rows| :: !Old(rows[j], before)
  {
    if rows == [] then -1
    else if Old(rows[|rows| - 1], before) then |rows| - 1
    else LastOld(rows[..|rows| - 1], before)
  }

  /** SELECT COUNT(*) ... WHERE at < before. */
  function CountOld(rows: seq<Row>, before: int): nat {
    if rows == [] then 0 else (if Old(rows[0], before) then 1 else 0) + CountOld(rows[1..], before)
  }

  /** What DELETE ... WHERE at < before leaves. */
  function Kept(rows: seq<Row>, before: int): seq<Row> {
    if rows == [] then []
    else if Old(rows[0], before) then Kept(rows[1..], before)
    else [rows[0]] + Kept(rows[1..], before)
  }

  /** The entry a prune leaves about itself. `rfc3339` formats unix seconds. */
  function PruneEntry(rfc3339: int -> string, before: int, actor: string, anchor: string): Content
    requires |anchor| >= 12
  {
    Content(0, 0, "system", 0, actor, "audit.prune", "audit_log", anchor[..12],
            "pruned entries older than " + rfc3339(before), "")
  }

  /** Which statement of a prune fails; the ones before it have taken effect. */
  datatype Fault = NoFault | InsertFails | DeleteFails | AnchorFails

  /** `Panicked` is the slice anchor[:12] of a stored hash shorter than 12 bytes. */
  datatype PruneResult = Pruned(count: nat) | Failed | Panicked

  function Prune(sha: string -> string, rfc3339: int -> string, log: Log,
                 before: int, actor: string, now: int, fault: Fault): (Log, PruneResult)
  {
    var last := LastOld(log.rows, before);
    if last < 0 then (log, Pruned(0))
    else
      var anchor := log.rows[last].hash;
      if |anchor| < 12 then (log, Panicked)
      else if fault.InsertFails? then (log, Failed)
      else
        var recorded := Insert(sha, log, Normalise(PruneEntry(rfc3339, before, actor, anchor), now));
        if fault.DeleteFails? then (recorded, Failed)
        else
          var shortened := recorded.(rows := Kept(recorded.rows, before));
          if fault.AnchorFails? then (shortened, Failed)
          else (shortened.(anchor := anchor), Pruned(CountOld(log.rows, before)))
  }

  /** The rows a prune removes are the oldest ids, with no younger-looking row among them. */
  ghost predicate OldIsPrefix(rows: seq<Row>, before: int) {
    forall i | 0 <= i <= LastOld(rows, before) :: Old(rows[i], before)
  }
}
