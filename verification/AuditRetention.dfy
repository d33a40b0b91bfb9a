/** Pruning: when a shortened log still verifies, and what every run of appends and prunes keeps. */
module AuditRetention {
  import opened AuditCodec
  import opened AuditLog
  import opened AuditChain

  /** Ids grow from row to row and stay below the next one to be given out. */
  ghost predicate Ascending(rows: seq<Row>, nextId: int) {
    && (forall i, j | 0 <= i < j < |rows| :: rows[i].id < rows[j].id)
    && (forall i | 0 <= i < |rows| :: rows[i].id < nextId)
  }

  /** The stored rows are a suffix of an unbroken history, which is never forgotten entirely. */
  ghost predicate Suffix(sha: string -> string, log: Log) {
    && |log.rows| <= |log.history|
    && Chained(sha, "", log.history)
    && log.rows == log.history[|log.history| - |log.rows|..]
    && (log.rows == [] ==> log.history == [])
    && Ascending(log.history, log.nextId)
  }

  /** ... and the anchor is the hash of the row just before that suffix. */
  ghost predicate Intact(sha: string -> string, log: Log) {
    Suffix(sha, log) && log.anchor == Before("", log.history, |log.history| - |log.rows|)
  }

  lemma SuffixRow(sha: string -> string, log: Log, i: nat)
    requires Suffix(sha, log) && i < |log.rows|
    ensures log.rows[i] == log.history[|log.history| - |log.rows| + i]
    ensures LinkOk(sha, "", log.history, |log.history| - |log.rows| + i)
  {
  }

  /** An intact log verifies. */
  lemma IntactVerifies(sha: string -> string, log: Log)
    requires Intact(sha, log)
    ensures Chained(sha, log.anchor, log.rows)
  {
    hide AuditCodec.Canonical;
    forall i | 0 <= i < |log.rows| ensures LinkOk(sha, log.anchor, log.rows, i) {
      SuffixRow(sha, log, i);
    }
  }

  lemma InsertKeepsSuffix(sha: string -> string, log: Log, c: Content)
    requires Suffix(sha, log)
    ensures Suffix(sha, Insert(sha, log, c))
    ensures Intact(sha, log) ==> Intact(sha, Insert(sha, log, c))
  {
    hide AuditCodec.Canonical;
    var log' := Insert(sha, log, c);
    var n := |log.history|;
    forall i | 0 <= i < |log'.history| ensures LinkOk(sha, "", log'.history, i) {
      if i < n {
        assert LinkOk(sha, "", log.history, i);
      }
    }
  }

  // ---- what the DELETE leaves ----

  lemma {:induction false} CountIsDeleted(rows: seq<Row>, before: int)
    ensures CountOld(rows, before) + |Kept(rows, before)| == |rows|
  {
    if rows != [] {
      CountIsDeleted(rows[1..], before);
    }
  }

  lemma {:induction false} KeptOfSnoc(rows: seq<Row>, r: Row, before: int)
    ensures Kept(rows + [r], before) == Kept(rows, before) + (if Old(r, before) then [] else [r])
  {
    if rows == [] {
      assert rows + [r] == [r];
      assert [r][1..] == [];
    } else {
      KeptOfSnoc(rows[1..], r, before);
      assert (rows + [r])[1..] == rows[1..] + [r];
    }
  }

  /** If the first `n` rows are old and no later one is, exactly those go. */
  lemma {:induction false} KeptOfPrefix(rows: seq<Row>, before: int, n: nat)
    requires n <= |rows|
    requires forall i | 0 <= i < |rows| :: Old(rows[i], before) <==> i < n
    ensures Kept(rows, before) == rows[n..]
  {
    if rows != [] {
      KeptOfPrefix(rows[1..], before, if n == 0 then 0 else n - 1);
    }
  }

  /** Otherwise a row with a smaller id than the anchor's survives and comes first. */
  lemma {:induction false} KeptHead(rows: seq<Row>, before: int, i: nat) returns (j: nat)
    requires i < |rows| && !Old(rows[i], before)
    ensures j <= i && !Old(rows[j], before) && Kept(rows, before) != [] && Kept(rows, before)[0] == rows[j]
  {
    if Old(rows[0], before) {
      var k := KeptHead(rows[1..], before, i - 1);
      j := k + 1;
    } else {
      j := 0;
    }
  }

  lemma {:induction false} KeptAreRows(rows: seq<Row>, before: int)
    ensures forall r :: r in Kept(rows, before) <==> r in rows && !Old(r, before)
  {
    if rows != [] {
      KeptAreRows(rows[1..], before);
    }
  }

  // ---- one prune ----

  /** What a prune says about itself: who, when, up to which time, and the start of the hash it anchors. */
  ghost predicate Describes(e: Content, rfc3339: int -> string, before: int, actor: string, now: int, anchor: string) {
    && e.action == "audit.prune" && e.actorType == "system" && e.actorName == actor && e.at == now
    && e.targetType == "audit_log" && |e.targetId| == 12 && e.targetId <= anchor
    && e.detail == "pruned entries older than " + rfc3339(before)
    && e.org == 0 && e.actorId == 0 && e.ip == ""
  }

  function OwnEntry(rfc3339: int -> string, before: int, actor: string, now: int, anchor: string): Content
    requires |anchor| >= 12
  {
    Normalise(PruneEntry(rfc3339, before, actor, anchor), now)
  }

  lemma OwnEntryDescribes(rfc3339: int -> string, before: int, actor: string, now: int, anchor: string)
    requires |anchor| >= 12
    ensures Describes(OwnEntry(rfc3339, before, actor, now, anchor), rfc3339, before, actor, now, anchor)
  {
  }

  /** A prune from its outcome alone, for any table and any point of failure. */
  ghost predicate PruneMeans(rfc3339: int -> string, log: Log, before: int, actor: string, now: int, fault: Fault,
                             log': Log, r: PruneResult)
  {
    var last := LastOld(log.rows, before);
    if last < 0 then r == Pruned(0) && log' == log
    else if |log.rows[last].hash| < 12 then r == Panicked && log' == log
    else if fault.InsertFails? then r == Failed && log' == log
    else
      && |log'.history| == |log.history| + 1 && log.history <= log'.history && log'.nextId == log.nextId + 1
      && var own := log'.history[|log.history|];
         && own.id == log.nextId && Describes(own.content, rfc3339, before, actor, now, log.rows[last].hash)
         && (fault.DeleteFails? ==> log'.rows == log.rows + [own])
         && (!fault.DeleteFails? ==>
               forall x :: x in log'.rows <==> (x in log.rows || x == own) && before <= x.content.at)
         && (if fault.NoFault? then log'.anchor == log.rows[last].hash else log'.anchor == log.anchor && r == Failed)
         && (fault.NoFault? ==>
               r.Pruned? && r.count + |log'.rows| == |log.rows| + (if before <= now then 1 else 0))
  }

  lemma PruneOutcome(sha: string -> string, rfc3339: int -> string, log: Log, before: int, actor: string, now: int,
                     fault: Fault)
    ensures var (log', r) := Prune(sha, rfc3339, log, before, actor, now, fault);
            PruneMeans(rfc3339, log, before, actor, now, fault, log', r)
  {
    hide AuditCodec.Canonical;
    var last := LastOld(log.rows, before);
    if last >= 0 && |log.rows[last].hash| >= 12 && !fault.InsertFails? {
      var entry := OwnEntry(rfc3339, before, actor, now, log.rows[last].hash);
      OwnEntryDescribes(rfc3339, before, actor, now, log.rows[last].hash);
      var own := NewRow(sha, log, entry);
      assert own.content == entry && own.id == log.nextId;
      KeptRowsOf(log.rows, own, before, now);
      hide Kept, CountOld, Describes, OwnEntry, NewRow, LastOld;
      assert OwnEntry(rfc3339, before, actor, now, log.rows[last].hash) == entry;
    }
  }

  /** The rows a delete leaves of the old rows and the prune's own, and how many they are. */
  lemma KeptRowsOf(rows: seq<Row>, own: Row, before: int, now: int)
    requires own.content.at == now
    ensures forall x :: x in Kept(rows + [own], before) <==> (x in rows || x == own) && before <= x.content.at
    ensures CountOld(rows, before) + |Kept(rows + [own], before)| == |rows| + if before <= now then 1 else 0
  {
    KeptAreRows(rows + [own], before);
    KeptOfSnoc(rows, own, before);
    CountIsDeleted(rows, before);
    hide Kept, CountOld;
    assert forall x :: x in rows + [own] <==> x in rows || x == own;
  }

  /** What the statements of a prune leave, when something is old enough: its own entry goes with the
      others if the cutoff is later than that. */
  lemma PruneSteps(sha: string -> string, rfc3339: int -> string, log: Log, before: int, actor: string, now: int)
    returns (entry: Content)
    requires IsSha(sha) && Suffix(sha, log)
    requires LastOld(log.rows, before) >= 0
    ensures var inserted := Insert(sha, log, entry);
            var own := if before <= now then [NewRow(sha, log, entry)] else [];
            var kept := inserted.(rows := Kept(log.rows, before) + own);
            && Suffix(sha, inserted) && (Intact(sha, log) ==> Intact(sha, inserted))
            && Prune(sha, rfc3339, log, before, actor, now, DeleteFails) == (inserted, Failed)
            && Prune(sha, rfc3339, log, before, actor, now, AnchorFails) == (kept, Failed)
            && Prune(sha, rfc3339, log, before, actor, now, NoFault)
               == (kept.(anchor := log.rows[LastOld(log.rows, before)].hash), Pruned(CountOld(log.rows, before)))
    ensures entry == OwnEntry(rfc3339, before, actor, now, log.rows[LastOld(log.rows, before)].hash)
  {
    hide AuditCodec.Canonical, Ascending;
    var last := LastOld(log.rows, before);
    SuffixRow(sha, log, last);
    entry := OwnEntry(rfc3339, before, actor, now, log.rows[last].hash);
    InsertKeepsSuffix(sha, log, entry);
    KeptOfSnoc(log.rows, NewRow(sha, log, entry), before);
    hide Suffix, Intact, Kept, CountOld;
  }

  lemma NothingToPrune(sha: string -> string, rfc3339: int -> string, log: Log, before: int, actor: string, now: int)
    requires LastOld(log.rows, before) < 0
    ensures Prune(sha, rfc3339, log, before, actor, now, NoFault) == (log, Pruned(0))
  {
  }

  /** A log without its first `n` rows, anchored behind them, with one more entry at its end. */
  function Cut(sha: string -> string, log: Log, n: nat, entry: Content): Log
    requires 0 < n <= |log.rows|
  {
    var r := NewRow(sha, log, entry);
    Log(log.rows[n..] + [r], log.rows[n - 1].hash, log.nextId + 1, log.history + [r])
  }

  /** Without its first `n` rows and anchored behind them, a log is intact. */
  lemma TailIsIntact(sha: string -> string, log: Log, n: nat)
    requires Suffix(sha, log) && 0 < n < |log.rows|
    ensures Intact(sha, log.(rows := log.rows[n..], anchor := log.rows[n - 1].hash))
  {
    hide AuditCodec.Canonical, Ascending, Chained;
    SuffixRow(sha, log, n - 1);
    SuffixOfSuffix(log.history, log.rows, n);
  }

  lemma CutIsIntact(sha: string -> string, log: Log, n: nat, entry: Content)
    requires Suffix(sha, log) && 0 < n <= |log.rows|
    ensures Intact(sha, Cut(sha, log, n, entry))
  {
    hide Suffix, Intact, NewRow;
    InsertKeepsSuffix(sha, log, entry);
    DropOfAppend(log.rows, NewRow(sha, log, entry), n);
    TailIsIntact(sha, Insert(sha, log, entry), n);
  }

  lemma DropOfAppend(t: seq<Row>, r: Row, n: nat)
    requires n <= |t|
    ensures (t + [r])[n..] == t[n..] + [r] && n < |t + [r]|
  {
  }

  lemma SuffixOfSuffix(h: seq<Row>, t: seq<Row>, n: nat)
    requires n <= |t| <= |h| && t == h[|h| - |t|..]
    ensures t[n..] == h[|h| - |t[n..]|..]
  {
  }

  lemma KeptOfOldPrefix(rows: seq<Row>, before: int)
    requires OldIsPrefix(rows, before)
    ensures Kept(rows, before) == rows[LastOld(rows, before) + 1..]
    ensures CountOld(rows, before) == LastOld(rows, before) + 1
  {
    KeptOfPrefix(rows, before, LastOld(rows, before) + 1);
    CountIsDeleted(rows, before);
  }

  /** A completed prune whose deleted rows are an id-prefix removes just those, records itself, and
      leaves an intact log, even where the anchor was stale before. */
  lemma PrunePrefix(sha: string -> string, rfc3339: int -> string, log: Log, before: int, actor: string, now: int)
    returns (entry: Content)
    requires IsSha(sha) && Suffix(sha, log)
    requires before <= now && LastOld(log.rows, before) >= 0
    requires OldIsPrefix(log.rows, before)
    ensures entry.action == "audit.prune" && entry.actorName == actor && entry.at == now
    ensures var n := LastOld(log.rows, before) + 1;
            && Prune(sha, rfc3339, log, before, actor, now, NoFault) == (Cut(sha, log, n, entry), Pruned(n))
            && Intact(sha, Cut(sha, log, n, entry))
  {
    entry := PruneSteps(sha, rfc3339, log, before, actor, now);
    KeptOfOldPrefix(log.rows, before);
    hide Suffix, Intact, Prune, NewRow, IsSha, OldIsPrefix, Kept, CountOld;
    CutIsIntact(sha, log, LastOld(log.rows, before) + 1, entry);
  }

  /** A hash of an intact log's history differs from every anchor an earlier point could leave. */
  lemma AnchorsDiffer(sha: string -> string, h: seq<Row>, i: nat, j: nat)
    requires IsSha(sha) && Chained(sha, "", h) && !HashClash(sha, h, h)
    requires i <= |h| && j <= |h| && i != j
    ensures Before("", h, i) != Before("", h, j)
  {
    hide AuditCodec.Canonical;
    if i > 0 {
      assert LinkOk(sha, "", h, i - 1);
    }
    if j > 0 {
      assert LinkOk(sha, "", h, j - 1);
    }
    if 0 < i < j {
      HashesDiffer(sha, h, i - 1, j - 1);
    } else if 0 < j < i {
      HashesDiffer(sha, h, j - 1, i - 1);
    }
  }

  /** A verifying log still verifies without its first `n` rows from the hash of the last of them. */
  lemma TailChained(sha: string -> string, anchor: string, rows: seq<Row>, n: nat)
    requires Chained(sha, anchor, rows) && n <= |rows|
    ensures Chained(sha, Before(anchor, rows, n), rows[n..])
  {
    hide AuditCodec.Canonical;
    forall i | 0 <= i < |rows| - n ensures LinkOk(sha, Before(anchor, rows, n), rows[n..], i) {
      assert LinkOk(sha, anchor, rows, n + i);
    }
  }

  /** Exactness: whatever the cutoff, the pruned log verifies from its new anchor if and only if the
      deleted rows were an id-prefix. */
  lemma PruneExact(sha: string -> string, rfc3339: int -> string, log: Log, before: int, actor: string, now: int)
    requires IsSha(sha) && Intact(sha, log)
    ensures var (log', r) := Prune(sha, rfc3339, log, before, actor, now, NoFault);
            && (LastOld(log.rows, before) < 0 ==> (log', r) == (log, Pruned(0)))
            && (LastOld(log.rows, before) >= 0 ==>
                  r.Pruned? && r.count + |log'.rows| == |log.rows| + (if before <= now then 1 else 0))
            && (|| (Chained(sha, log'.anchor, log'.rows) <==> OldIsPrefix(log.rows, before))
                || HashClash(sha, log'.history, log'.history))
  {
    hide AuditCodec.Canonical, Ascending;
    IntactVerifies(sha, log);
    if LastOld(log.rows, before) < 0 {
      NothingToPrune(sha, rfc3339, log, before, actor, now);
    } else {
      hide Prune;
      var log' := Prune(sha, rfc3339, log, before, actor, now, NoFault).0;
      var entry := PruneSteps(sha, rfc3339, log, before, actor, now);
      CountIsDeleted(log.rows, before);
      if OldIsPrefix(log.rows, before) {
        PrefixPruneVerifies(sha, rfc3339, log, before, actor, now);
      } else if !HashClash(sha, log'.history, log'.history) {
        UnsoundPruneFails(sha, log, before, log');
      }
    }
  }

  lemma PrefixPruneVerifies(sha: string -> string, rfc3339: int -> string, log: Log, before: int, actor: string,
                            now: int)
    requires IsSha(sha) && Intact(sha, log) && LastOld(log.rows, before) >= 0 && OldIsPrefix(log.rows, before)
    ensures var log' := Prune(sha, rfc3339, log, before, actor, now, NoFault).0;
            Chained(sha, log'.anchor, log'.rows)
  {
    hide *;
    if before <= now {
      PastPruneVerifies(sha, rfc3339, log, before, actor, now);
    } else {
      FuturePruneVerifies(sha, rfc3339, log, before, actor, now);
    }
  }

  lemma IntactIsSuffix(sha: string -> string, log: Log)
    requires Intact(sha, log)
    ensures Suffix(sha, log)
  {
  }

  lemma FuturePruneVerifies(sha: string -> string, rfc3339: int -> string, log: Log, before: int, actor: string,
                            now: int)
    requires IsSha(sha) && Intact(sha, log) && LastOld(log.rows, before) >= 0 && OldIsPrefix(log.rows, before)
    requires now < before
    ensures var log' := Prune(sha, rfc3339, log, before, actor, now, NoFault).0;
            Chained(sha, log'.anchor, log'.rows)
  {
    hide *;
    FuturePruneRows(sha, rfc3339, log, before, actor, now);
    IntactVerifies(sha, log);
    TailChained(sha, log.anchor, log.rows, LastOld(log.rows, before) + 1);
  }

  lemma PastPruneVerifies(sha: string -> string, rfc3339: int -> string, log: Log, before: int, actor: string, now: int)
    requires IsSha(sha) && Intact(sha, log) && LastOld(log.rows, before) >= 0 && OldIsPrefix(log.rows, before)
    requires before <= now
    ensures var log' := Prune(sha, rfc3339, log, before, actor, now, NoFault).0;
            Chained(sha, log'.anchor, log'.rows)
  {
    hide *;
    IntactIsSuffix(sha, log);
    var entry := PrunePrefix(sha, rfc3339, log, before, actor, now);
    IntactVerifies(sha, Cut(sha, log, LastOld(log.rows, before) + 1, entry));
  }

  lemma FuturePruneRows(sha: string -> string, rfc3339: int -> string, log: Log, before: int, actor: string, now: int)
    requires IsSha(sha) && Intact(sha, log) && LastOld(log.rows, before) >= 0 && OldIsPrefix(log.rows, before)
    requires now < before
    ensures var (log', n) := (Prune(sha, rfc3339, log, before, actor, now, NoFault).0, LastOld(log.rows, before) + 1);
            log'.rows == log.rows[n..] && log'.anchor == Before(log.anchor, log.rows, n)
  {
    hide Prune, Suffix, Intact, Kept, OldIsPrefix, CountOld, LastOld, NewRow;
    IntactIsSuffix(sha, log);
    var entry := PruneSteps(sha, rfc3339, log, before, actor, now);
    KeptOfOldPrefix(log.rows, before);
  }

  /** A prune that deletes anything leaves its own entry behind if and only if the cutoff is not later
      than that entry. */
  lemma PruneEntryStored(sha: string -> string, rfc3339: int -> string, log: Log, before: int, actor: string, now: int)
    returns (entry: Content)
    requires IsSha(sha) && Suffix(sha, log)
    requires LastOld(log.rows, before) >= 0
    ensures entry.action == "audit.prune" && entry.actorName == actor && entry.at == now
    ensures var log' := Prune(sha, rfc3339, log, before, actor, now, NoFault).0;
            var r := NewRow(sha, log, entry);
            r in log'.history && (r in log'.rows <==> before <= now)
  {
    hide AuditCodec.Canonical;
    entry := PruneSteps(sha, rfc3339, log, before, actor, now);
    var r := NewRow(sha, log, entry);
    assert r.id == log.nextId;
    KeptAreRows(log.rows, before);
    StoredIdsBelow(sha, log);
    hide Prune, Kept, Suffix, NewRow, CountOld, LastOld;
    assert Insert(sha, log, entry).history[|log.history|] == r;
  }

  lemma StoredIdsBelow(sha: string -> string, log: Log)
    requires Suffix(sha, log)
    ensures forall x | x in log.rows :: x.id < log.nextId
  {
    hide Chained;
    forall x | x in log.rows ensures x.id < log.nextId {
      var i :| 0 <= i < |log.rows| && log.rows[i] == x;
      assert x == log.history[|log.history| - |log.rows| + i];
    }
  }

  /** Appending to a log continues its chain, except behind an anchor with no rows. */
  lemma InsertChained(sha: string -> string, log: Log, c: Content)
    ensures Chained(sha, log.anchor, Insert(sha, log, c).rows)
            <==> Chained(sha, log.anchor, log.rows) && (log.rows == [] ==> log.anchor == "")
  {
    hide AuditCodec.Canonical;
    var rows' := Insert(sha, log, c).rows;
    var n := |log.rows|;
    forall i | 0 <= i < n ensures LinkOk(sha, log.anchor, rows', i) <==> LinkOk(sha, log.anchor, log.rows, i) {}
    assert LinkOk(sha, log.anchor, rows', n) <==> (log.rows == [] ==> log.anchor == "");
    if Chained(sha, log.anchor, rows') {
      assert LinkOk(sha, log.anchor, rows', n);
      forall i | 0 <= i < n ensures LinkOk(sha, log.anchor, log.rows, i) {
        assert LinkOk(sha, log.anchor, rows', i);
      }
    }
  }

  /** The append after a prune verifies if and only if the deleted rows were an id-prefix and the
      prune left a row to append to. */
  lemma AppendAfterPrune(sha: string -> string, rfc3339: int -> string, log: Log, before: int, actor: string,
                         now: int, c: Content)
    requires IsSha(sha) && Intact(sha, log) && LastOld(log.rows, before) >= 0
    ensures var log' := Prune(sha, rfc3339, log, before, actor, now, NoFault).0;
            || (Chained(sha, log'.anchor, Insert(sha, log', c).rows) <==>
                  OldIsPrefix(log.rows, before) && log'.rows != [])
            || HashClash(sha, log'.history, log'.history)
  {
    hide AuditCodec.Canonical, Ascending;
    var log' := Prune(sha, rfc3339, log, before, actor, now, NoFault).0;
    PruneExact(sha, rfc3339, log, before, actor, now);
    var entry := PruneSteps(sha, rfc3339, log, before, actor, now);
    SuffixRow(sha, log, LastOld(log.rows, before));
    assert |log'.anchor| == 64;
    InsertChained(sha, log', c);
    hide Prune, Insert, Chained, Suffix, Intact, OldIsPrefix, HashClash;
  }

  /** When a younger-looking row sits among the deleted ones, the first survivor does not point at
      the anchor. */
  lemma UnsoundPruneFails(sha: string -> string, log: Log, before: int, log': Log)
    requires IsSha(sha) && Intact(sha, log) && Chained(sha, "", log'.history)
    requires !OldIsPrefix(log.rows, before) && log.history <= log'.history
    requires Kept(log.rows, before) <= log'.rows
    requires log'.anchor == log.rows[LastOld(log.rows, before)].hash
    requires !HashClash(sha, log'.history, log'.history)
    ensures !Chained(sha, log'.anchor, log'.rows)
  {
    hide Chained, IsSha, HashClash, Suffix;
    var last := LastOld(log.rows, before);
    var i :| 0 <= i <= last && !Old(log.rows[i], before);
    var j := KeptHead(log.rows, before, i);
    assert log'.rows[0] == log.rows[j] && j < last by {
      hide Kept;
    }
    HeadMissesAnchor(sha, log, j, last, log');
  }

  /** A row other than the one after the anchor's cannot come first. */
  lemma HeadMissesAnchor(sha: string -> string, log: Log, j: nat, last: nat, log': Log)
    requires IsSha(sha) && Suffix(sha, log) && Chained(sha, "", log'.history)
    requires log.history <= log'.history && !HashClash(sha, log'.history, log'.history)
    requires j < |log.rows| && last < |log.rows| && j != last + 1
    requires log'.rows != [] && log'.rows[0] == log.rows[j] && log'.anchor == log.rows[last].hash
    ensures !Chained(sha, log'.anchor, log'.rows)
  {
    hide *;
    RowsOfHistory(sha, log, j, last);
    var k := |log.history| - |log.rows|;
    BeforesDiffer(sha, log.history, log'.history, k + j, k + last + 1);
    FirstLinkOk(sha, log');
  }

  lemma BeforesDiffer(sha: string -> string, h: seq<Row>, h': seq<Row>, i: nat, j: nat)
    requires IsSha(sha) && Chained(sha, "", h') && !HashClash(sha, h', h')
    requires h <= h' && i <= |h| && j <= |h| && i != j
    ensures Before("", h, i) != Before("", h, j)
  {
    hide *;
    AnchorsDiffer(sha, h', i, j);
    BeforeOfPrefix(h, h', i);
    BeforeOfPrefix(h, h', j);
  }

  lemma RowsOfHistory(sha: string -> string, log: Log, j: nat, last: nat)
    requires Suffix(sha, log) && j < |log.rows| && last < |log.rows|
    ensures var k := |log.history| - |log.rows|;
            k >= 0 && log.rows[j].prevHash == Before("", log.history, k + j)
            && log.rows[last].hash == Before("", log.history, k + last + 1)
  {
    hide AuditCodec.Canonical, Ascending;
    SuffixRow(sha, log, j);
    SuffixRow(sha, log, last);
  }

  lemma BeforeOfPrefix(h: seq<Row>, h': seq<Row>, i: nat)
    requires h <= h' && i <= |h|
    ensures Before("", h, i) == Before("", h', i)
  {
  }

  lemma FirstLinkOk(sha: string -> string, log: Log)
    requires log.rows != []
    ensures Chained(sha, log.anchor, log.rows) ==> log.rows[0].prevHash == log.anchor
  {
    hide AuditCodec.Canonical;
    assert Chained(sha, log.anchor, log.rows) ==> LinkOk(sha, log.anchor, log.rows, 0);
  }

  /** Timestamps that never go backwards are enough for every prune to be sound. */
  lemma OrderedTimesPruneSoundly(rows: seq<Row>, before: int)
    requires forall i, j | 0 <= i < j < |rows| :: rows[i].content.at <= rows[j].content.at
    ensures OldIsPrefix(rows, before)
  {
  }

  /** A log whose anchor is the hash of some other point of its history fails at its first row. */
  lemma StaleAnchorFails(sha: string -> string, log: Log, k: nat)
    requires IsSha(sha) && Suffix(sha, log) && log.rows != []
    requires k <= |log.history| && log.anchor == Before("", log.history, k)
    requires k != |log.history| - |log.rows|
    ensures FirstBad(sha, log.anchor, log.rows) == 0 || HashClash(sha, log.history, log.history)
  {
    hide AuditCodec.Canonical, Ascending;
    if !HashClash(sha, log.history, log.history) {
      AnchorsDiffer(sha, log.history, k, |log.history| - |log.rows|);
      SuffixRow(sha, log, 0);
      assert !LinkOk(sha, log.anchor, log.rows, 0);
    }
  }

  /** The rows a prune removes are the newest ids. */
  ghost predicate OldIsSuffix(rows: seq<Row>, before: int) {
    forall i, j | 0 <= i < j < |rows| && Old(rows[i], before) :: Old(rows[j], before)
  }

  lemma {:induction false} KeptOfSuffix(rows: seq<Row>, before: int)
    requires OldIsSuffix(rows, before)
    ensures Kept(rows, before) <= rows
  {
    if rows != [] {
      if Old(rows[0], before) {
        KeptOfPrefix(rows, before, |rows|);
      } else {
        KeptOfSuffix(rows[1..], before);
      }
    }
  }

  /** Where the rows left part from the rows there were. */
  lemma {:induction false} KeptGap(rows: seq<Row>, before: int, i: nat, j: nat) returns (k: nat, m: nat)
    requires i < j < |rows| && Old(rows[i], before) && !Old(rows[j], before)
    ensures var kept := Kept(rows, before);
            k < |kept| && k < m < |rows| && kept[..k] == rows[..k] && kept[k] == rows[m]
  {
    if Old(rows[0], before) {
      k := 0;
      m := KeptHead(rows, before, j);
    } else {
      k, m := KeptGap(rows[1..], before, i - 1, j - 1);
      k, m := k + 1, m + 1;
      assert rows[..k] == [rows[0]] + rows[1..][..k - 1];
    }
  }

  /** Deleting old rows without moving the anchor goes unnoticed if and only if only the newest went. */
  lemma DeleteWithoutAnchor(sha: string -> string, log: Log, before: int)
    requires IsSha(sha) && Intact(sha, log)
    ensures || (Chained(sha, log.anchor, Kept(log.rows, before)) <==> OldIsSuffix(log.rows, before))
            || HashClash(sha, log.history, log.history)
  {
    hide AuditCodec.Canonical, Ascending, HashClash;
    IntactVerifies(sha, log);
    var kept := Kept(log.rows, before);
    if OldIsSuffix(log.rows, before) {
      KeptOfSuffix(log.rows, before);
      assert kept == log.rows[..|kept|];
      ChainedPrefix(sha, log.anchor, log.rows, |kept|);
    } else if !HashClash(sha, log.history, log.history) {
      var i, j :| 0 <= i < j < |log.rows| && Old(log.rows[i], before) && !Old(log.rows[j], before);
      var k, m := KeptGap(log.rows, before, i, j);
      MovedRowFails(sha, log, kept, k, m);
    }
  }

  /** A row that has moved up behind an earlier one no longer points at its predecessor. */
  lemma MovedRowFails(sha: string -> string, log: Log, rows: seq<Row>, k: nat, m: nat)
    requires IsSha(sha) && Intact(sha, log) && !HashClash(sha, log.history, log.history)
    requires k < |rows| && k < m < |log.rows| && rows[..k] == log.rows[..k] && rows[k] == log.rows[m]
    ensures !Chained(sha, log.anchor, rows)
  {
    hide AuditCodec.Canonical, Ascending, HashClash;
    var off := |log.history| - |log.rows|;
    SuffixRow(sha, log, m);
    assert rows[k].prevHash == Before("", log.history, off + m);
    assert Before(log.anchor, rows, k) == Before("", log.history, off + k) by {
      if k > 0 {
        assert rows[..k][k - 1] == log.rows[..k][k - 1];
      }
    }
    AnchorsDiffer(sha, log.history, off + k, off + m);
    assert !LinkOk(sha, log.anchor, rows, k);
  }

  /** The delete done but the anchor write lost: the log verifies only where the cutoff was later than
      the prune's own entry and the deleted rows were the newest; so never with a cutoff up to now. When they
      were an id-prefix nothing of the record is gone, verification fails at the first surviving
      row, and the next completed prune repairs it (PrunePrefix asks only for a suffix). */
  lemma LostAnchorFails(sha: string -> string, rfc3339: int -> string, log: Log, before: int, actor: string, now: int)
    requires IsSha(sha) && Intact(sha, log)
    requires LastOld(log.rows, before) >= 0
    ensures var (log', r) := Prune(sha, rfc3339, log, before, actor, now, AnchorFails);
            && r == Failed
            && (|| (Chained(sha, log'.anchor, log'.rows) <==> now < before && OldIsSuffix(log.rows, before))
                || HashClash(sha, log'.history, log'.history))
            && (before <= now && OldIsPrefix(log.rows, before) ==>
                  && Suffix(sha, log') && log'.rows != []
                  && (FirstBad(sha, log'.anchor, log'.rows) == 0 || HashClash(sha, log'.history, log'.history)))
  {
    hide AuditCodec.Canonical, Prune, Ascending;
    var log' := Prune(sha, rfc3339, log, before, actor, now, AnchorFails).0;
    var entry := PruneSteps(sha, rfc3339, log, before, actor, now);
    var inserted := Insert(sha, log, entry);
    var r := NewRow(sha, log, entry);
    assert Old(r, before) <==> now < before;
    KeptOfSnoc(log.rows, r, before);
    DeleteWithoutAnchor(sha, inserted, before);
    OldIsSuffixSnoc(log.rows, r, before);
    hide Kept, NewRow;
    if before <= now && OldIsPrefix(log.rows, before) {
      LostAnchorAtFirst(sha, rfc3339, log, before, actor, now);
    }
    hide Suffix, Intact, Chained, OldIsPrefix, OldIsSuffix, FirstBad;
  }

  lemma OldIsSuffixSnoc(rows: seq<Row>, r: Row, before: int)
    requires LastOld(rows, before) >= 0
    ensures OldIsSuffix(rows + [r], before) <==> Old(r, before) && OldIsSuffix(rows, before)
  {
    var all, last := rows + [r], LastOld(rows, before);
    assert all[last] == rows[last] && all[|rows|] == r;
    if OldIsSuffix(all, before) {
      forall i, j | 0 <= i < j < |rows| && Old(rows[i], before) ensures Old(rows[j], before) {
        assert all[i] == rows[i] && all[j] == rows[j];
      }
    }
  }

  lemma LostAnchorAtFirst(sha: string -> string, rfc3339: int -> string, log: Log, before: int, actor: string, now: int)
    requires IsSha(sha) && Intact(sha, log)
    requires before <= now && LastOld(log.rows, before) >= 0
    requires OldIsPrefix(log.rows, before)
    ensures var log' := Prune(sha, rfc3339, log, before, actor, now, AnchorFails).0;
            && Suffix(sha, log') && log'.rows != []
            && (FirstBad(sha, log'.anchor, log'.rows) == 0 || HashClash(sha, log'.history, log'.history))
  {
    hide AuditCodec.Canonical, Prune, Kept, NewRow, Ascending, OldIsPrefix, OwnEntry, CountOld, Chained;
    var log' := Prune(sha, rfc3339, log, before, actor, now, AnchorFails).0;
    var entry := PruneSteps(sha, rfc3339, log, before, actor, now);
    var _ := PrunePrefix(sha, rfc3339, log, before, actor, now);
    var k := |log.history| - |log.rows|;
    BeforeOfPrefix(log.history, log'.history, k);
    StaleAnchorFails(sha, log', k);
  }
}
