/** What an operator is told after a row of the log was edited, removed or slipped in. */
module AuditReports {
  import opened AuditCodec
  import opened AuditLog
  import opened AuditChain
  import opened AuditRetention
  import opened AuditRuns
  import opened AuditStore

  /** Editing a row but not its hash, or its hash alone, is reported under that row's id, with the count of
      rows read so far, and as a broken link exactly if the hash of its predecessor was edited. */
  lemma EditIsReported(sha: string -> string, anchor: string, rows: seq<Row>, i: nat, r: Row)
    requires Chained(sha, anchor, rows) && i < |rows|
    requires r.hash == rows[i].hash <==> (r.content, r.prevHash) != (rows[i].content, rows[i].prevHash)
    ensures || HashClash(sha, [r], rows)
            || Report(sha, anchor, rows[i := r])
               == ChainResult(false, i + 1, r.id, if r.prevHash == rows[i].prevHash then EditedRow else BrokenLink)
  {
    EditIsLocated(sha, anchor, rows, i, r);
    assert LinkOk(sha, anchor, rows, i);
    hide FirstBad, HashClash, AuditCodec.Canonical;
  }

  /** An edit that recomputes the row's hash is reported as a broken link at the row after it, and an edit
      of the last row like that is not reported. */
  lemma RehashedEditIsReported(sha: string -> string, anchor: string, rows: seq<Row>, i: nat, r: Row)
    requires Chained(sha, anchor, rows) && i < |rows| && r.prevHash == rows[i].prevHash && r.hash == sha(Preimage(r))
    requires r.hash != rows[i].hash
    ensures Report(sha, anchor, rows[i := r])
            == if i + 1 == |rows| then ChainResult(true, |rows|, 0, Reason.Intact)
               else ChainResult(false, i + 2, rows[i + 1].id, BrokenLink)
  {
    ReplacedRow(sha, anchor, rows, i, r);
    if i + 1 < |rows| {
      assert LinkOk(sha, anchor, rows, i + 1);
    }
    hide FirstBad, AuditCodec.Canonical;
  }

  /** A removed row is reported as a broken link at its successor; the last row can go unreported. */
  lemma DeletionIsReported(sha: string -> string, log: Log, i: nat)
    requires IsSha(sha) && AuditRetention.Intact(sha, log) && i < |log.rows|
    ensures || HashClash(sha, log.history, log.history)
            || Report(sha, log.anchor, log.rows[..i] + log.rows[i + 1..])
               == if i + 1 == |log.rows| then ChainResult(true, |log.rows| - 1, 0, Reason.Intact)
                  else ChainResult(false, i + 1, log.rows[i + 1].id, BrokenLink)
  {
    DeletedRow(sha, log, i);
    if i + 1 < |log.rows| && !HashClash(sha, log.history, log.history) {
      var t := log.rows[..i] + log.rows[i + 1..];
      assert t[i] == log.rows[i + 1];
      SuccessorMisses(sha, log, i);
    }
    hide FirstBad, AuditCodec.Canonical, AuditRetention.Intact, HashClash, Chained;
  }

  lemma SuccessorMisses(sha: string -> string, log: Log, i: nat)
    requires IsSha(sha) && AuditRetention.Intact(sha, log) && i + 1 < |log.rows|
    requires !HashClash(sha, log.history, log.history)
    ensures log.rows[i + 1].prevHash != Before(log.anchor, log.rows[..i] + log.rows[i + 1..], i)
  {
    hide AuditCodec.Canonical, Ascending, HashClash;
    var k := |log.history| - |log.rows|;
    SuffixRow(sha, log, i + 1);
    if i > 0 {
      SuffixRow(sha, log, i - 1);
    }
    AnchorsDiffer(sha, log.history, k + i, k + i + 1);
  }

  /** A row slipped in before a stored one is reported at itself if it does not check out, and otherwise as
      a broken link at the row it pushed back. */
  lemma InsertionIsReported(sha: string -> string, log: Log, i: nat, r: Row)
    requires IsSha(sha) && AuditRetention.Intact(sha, log) && i < |log.rows|
    ensures var v := Report(sha, log.anchor, log.rows[..i] + [r] + log.rows[i..]);
            || HashClash(sha, log.history, log.history)
            || HashClash(sha, [r], log.history)
            || if r.prevHash != Before(log.anchor, log.rows, i) then v == ChainResult(false, i + 1, r.id, BrokenLink)
               else if r.hash != sha(Preimage(r)) then v == ChainResult(false, i + 1, r.id, EditedRow)
               else v == ChainResult(false, i + 2, log.rows[i].id, BrokenLink)
  {
    InsertedRow(sha, log, i, r);
    var t := log.rows[..i] + [r] + log.rows[i..];
    assert t[i] == r && t[i + 1] == log.rows[i] && (i > 0 ==> t[i - 1] == log.rows[i - 1]);
    if !HashClash(sha, log.history, log.history) && !HashClash(sha, [r], log.history)
       && r.prevHash == Before(log.anchor, log.rows, i) && r.hash == sha(Preimage(r)) {
      PushedBackMisses(sha, log, i, r);
    }
    hide FirstBad, AuditCodec.Canonical, AuditRetention.Intact, HashClash, Chained;
  }

  lemma PushedBackMisses(sha: string -> string, log: Log, i: nat, r: Row)
    requires IsSha(sha) && AuditRetention.Intact(sha, log) && i < |log.rows|
    requires !HashClash(sha, log.history, log.history) && !HashClash(sha, [r], log.history)
    requires r.prevHash == Before(log.anchor, log.rows, i) && r.hash == sha(Preimage(r))
    ensures log.rows[i].prevHash != r.hash
  {
    hide AuditCodec.Canonical, Ascending, HashClash;
    SuffixRow(sha, log, i);
    if i > 0 {
      SuffixRow(sha, log, i - 1);
    }
    ForgedPredecessor(sha, log.history, |log.history| - |log.rows| + i, r);
  }

  /** After any run of appends and sound prunes the report is OK and counts every stored row. */
  lemma RunIsReportedIntact(sha: string -> string, rfc3339: int -> string, steps: seq<Step>)
    requires IsSha(sha) && SoundRun(sha, rfc3339, steps)
    ensures var log := Run(sha, rfc3339, steps);
            Report(sha, log.anchor, log.rows) == ChainResult(true, |log.rows|, 0, Reason.Intact)
  {
    EveryRunVerifies(sha, rfc3339, steps);
    hide FirstBad, Run, AuditRetention.Intact, HashClash;
  }
}
