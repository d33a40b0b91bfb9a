/** The store's audit methods and the exporter's drain loop as they change state. Clock readings and
    the outcome of each statement or shipment are inputs. */
module AuditStore {
  import opened AuditCodec
  import opened AuditLog
  import opened AuditExport
  import AuditChain
  import AuditRetention

  datatype AppendResult = Appended(row: Row) | ActionRequired | StoreFailed

  datatype Reason = Intact | BrokenLink | EditedRow

  /** AuditChainResult. */
  datatype ChainResult = ChainResult(ok: bool, entries: nat, badId: int, reason: Reason)

  /** What VerifyAuditChain has to report. */
  ghost function Report(sha: string -> string, anchor: string, rows: seq<Row>): ChainResult {
    var b := FirstBad(sha, anchor, rows);
    if b == |rows| then ChainResult(true, |rows|, 0, Intact)
    else ChainResult(false, b + 1, rows[b].id,
                     if rows[b].prevHash != Before(anchor, rows, b) then BrokenLink else EditedRow)
  }

  /** The row holds what the caller passed, with the time and the actor's type filled in if missing. */
  ghost predicate Stores(r: Row, c: Content, now: int) {
    && r.content.(at := c.at, actorType := c.actorType) == c
    && r.content.at == (if c.at == 0 then now else c.at)
    && r.content.actorType == (if c.actorType == "" then "system" else c.actorType)
  }

  /** A result fits a table: OK with all entries counted exactly for a chain; otherwise the first row that
      does not check out, its position counted from one, and whether its link or its contents fail. */
  ghost predicate Fits(sha: string -> string, anchor: string, rows: seq<Row>, v: ChainResult) {
    && (v.ok <==> Chained(sha, anchor, rows))
    && (v.ok ==> v.entries == |rows| && v.badId == 0 && v.reason == Intact)
    && (!v.ok ==>
          && 1 <= v.entries <= |rows|
          && var n := v.entries - 1;
             && (forall i | 0 <= i < n :: LinkOk(sha, anchor, rows, i)) && !LinkOk(sha, anchor, rows, n)
             && v.badId == rows[n].id
             && (v.reason == BrokenLink <==> rows[n].prevHash != Before(anchor, rows, n))
             && (v.reason == EditedRow <==>
                   rows[n].prevHash == Before(anchor, rows, n) && rows[n].hash != sha(Preimage(rows[n]))))
  }

  lemma ReportFits(sha: string -> string, anchor: string, rows: seq<Row>)
    ensures Fits(sha, anchor, rows, Report(sha, anchor, rows))
  {
    hide AuditCodec.Canonical;
    AuditChain.FirstBadEnd(sha, anchor, rows);
  }

  class Store {
    const sha: string -> string
    const rfc3339: int -> string
    var rows: seq<Row>
    var nextId: int
    var anchor: string
    var cursor: int
    ghost var history: seq<Row>

    ghost function State(): Log
      reads this
    {
      Log(rows, anchor, nextId, history)
    }

    constructor (sha: string -> string, rfc3339: int -> string)
      ensures this.sha == sha && this.rfc3339 == rfc3339
      ensures State() == EMPTY && cursor == 0
    {
      this.sha, this.rfc3339 := sha, rfc3339;
      rows, nextId, anchor, cursor := [], 1, "", 0;
      history := [];
    }

    method AuditHash(c: Content, prevHash: string) returns (hash: string)
      ensures hash == sha(Canonical(c, prevHash))
    {
      var bytes := CanonicalAudit(c, prevHash);
      hash := sha(bytes);
    }

    method AppendAudit(c: Content, now: int, inserts: bool) returns (r: AppendResult)
      modifies this
      ensures cursor == old(cursor)
      ensures c.action == "" ==> r == ActionRequired
      ensures c.action != "" && !inserts ==> r == StoreFailed
      ensures c.action != "" && inserts ==>
        && r == Appended(NewRow(sha, old(State()), Normalise(c, now)))
        && State() == Insert(sha, old(State()), Normalise(c, now))
      ensures !r.Appended? ==> State() == old(State())
      ensures r.Appended? ==> rows == old(rows) + [r.row] && Stores(r.row, c, now)
      ensures r.Appended? ==> r.row.id == old(nextId) && nextId == old(nextId) + 1 && anchor == old(anchor)
      ensures r.Appended? ==>
        && r.row.prevHash == (if old(rows) == [] then "" else old(rows)[|old(rows)| - 1].hash)
        && r.row.hash == sha(Canonical(r.row.content, r.row.prevHash))
    {
      if c.action == "" {
        return ActionRequired;
      }
      var e := c;
      if e.at == 0 {
        e := e.(at := now);
      }
      if e.actorType == "" {
        e := e.(actorType := "system");
      }
      r := AppendAuditLocked(e, now, inserts);
      assert Normalise(e, now) == e;
    }

    method AppendAuditLocked(c: Content, now: int, inserts: bool) returns (r: AppendResult)
      modifies this
      ensures cursor == old(cursor)
      ensures c.action == "" ==> r == ActionRequired
      ensures c.action != "" && !inserts ==> r == StoreFailed
      ensures c.action != "" && inserts ==>
        && r == Appended(NewRow(sha, old(State()), Normalise(c, now)))
        && State() == Insert(sha, old(State()), Normalise(c, now))
      ensures !r.Appended? ==> State() == old(State())
      ensures r.Appended? ==> rows == old(rows) + [r.row] && Stores(r.row, c, now)
      ensures r.Appended? ==> r.row.id == old(nextId) && nextId == old(nextId) + 1 && anchor == old(anchor)
      ensures r.Appended? ==>
        && r.row.prevHash == (if old(rows) == [] then "" else old(rows)[|old(rows)| - 1].hash)
        && r.row.hash == sha(Canonical(r.row.content, r.row.prevHash))
    {
      hide AuditCodec.Canonical;
      if c.action == "" {
        return ActionRequired;
      }
      var e := c;
      if e.at == 0 {
        e := e.(at := now);
      }
      if e.actorType == "" {
        e := e.(actorType := "system");
      }
      var prev := if rows == [] then "" else rows[|rows| - 1].hash;
      var hash := AuditHash(e, prev);
      if !inserts {
        return StoreFailed;
      }
      var row := Row(nextId, e, prev, hash);
      rows, nextId := rows + [row], nextId + 1;
      history := history + [row];
      r := Appended(row);
    }

    method PruneAudit(before: int, actor: string, now: int, fault: Fault) returns (r: PruneResult)
      modifies this
      ensures cursor == old(cursor)
      ensures (State(), r) == Prune(sha, rfc3339, old(State()), before, actor, now, fault)
      ensures AuditRetention.PruneMeans(rfc3339, old(State()), before, actor, now, fault, State(), r)
    {
      AuditRetention.PruneOutcome(sha, rfc3339, State(), before, actor, now, fault);
      hide AuditCodec.Canonical;
      var last := LastOld(rows, before);
      if last < 0 {
        return Pruned(0);
      }
      var newAnchor := rows[last].hash;
      var n := CountOld(rows, before);
      if |newAnchor| < 12 {
        return Panicked;
      }
      var appended := AppendAuditLocked(PruneEntry(rfc3339, before, actor, newAnchor), now, !fault.InsertFails?);
      if !appended.Appended? {
        return Failed;
      }
      if fault.DeleteFails? {
        return Failed;
      }
      rows := Kept(rows, before);
      if fault.AnchorFails? {
        return Failed;
      }
      anchor := newAnchor;
      r := Pruned(n);
    }

    method VerifyAuditChain() returns (v: ChainResult)
      ensures v == Report(sha, anchor, rows)
      ensures Fits(sha, anchor, rows, v)
    {
      ReportFits(sha, anchor, rows);
      hide Fits;
      hide AuditCodec.Canonical;
      var prev, n := anchor, 0;
      AuditChain.FirstBadEnd(sha, anchor, rows);
      while n < |rows|
        invariant n <= |rows|
        invariant prev == Before(anchor, rows, n)
        invariant forall i | 0 <= i < n :: LinkOk(sha, anchor, rows, i)
      {
        var e := rows[n];
        n := n + 1;
        if e.prevHash != prev {
          AuditChain.FirstBadIs(sha, anchor, rows, n - 1);
          return ChainResult(false, n, e.id, BrokenLink);
        }
        var want := AuditHash(e.content, prev);
        if want != e.hash {
          AuditChain.FirstBadIs(sha, anchor, rows, n - 1);
          return ChainResult(false, n, e.id, EditedRow);
        }
        prev := e.hash;
      }
      AuditChain.FirstBadIs(sha, anchor, rows, n);
      v := ChainResult(true, n, 0, Intact);
    }

    method AuditSince(afterId: int, limit: int) returns (out: seq<Row>)
      ensures out == Since(rows, afterId, limit)
      ensures IsPage(rows, afterId, limit, out)
    {
      SinceIsPage(rows, afterId, limit);
      hide IsPage;
      var lim := limit;
      if lim <= 0 || lim > 1000 {
        lim := 200;
      }
      out := [];
      var i := 0;
      while i < |rows| && |out| < lim
        invariant i <= |rows| && |out| <= lim
        invariant out == Above(rows[..i], afterId)
      {
        assert rows[..i + 1][..i] == rows[..i];
        if rows[i].id > afterId {
          out := out + [rows[i]];
        }
        i := i + 1;
      }
      AbovePrefix(rows, afterId, i);
      if i == |rows| {
        assert rows[..i] == rows;
      }
    }

    /** exportOnce. `accepted` is what the collector took during this pass, in order. */
    method ExportOnce(batch: int, script: nat -> Shipment) returns (accepted: seq<Row>, ok: bool)
      requires IdsAscend(rows)
      modifies this`cursor
      ensures Finished(rows, old(cursor), cursor, batch, script, accepted, ok)
    {
      hide Pass, Above, Since, Progress;
      accepted, ok := [], true;
      var i := 0;
      ghost var start := cursor;
      ProgressStart(rows, start, batch, script);
      while true
        invariant ok && Progress(rows, start, cursor, batch, script, i, accepted)
        decreases |Above(rows, cursor)|
      {
        ProgressStops(rows, start, cursor, batch, script, i, accepted);
        if script(i).Unread? {
          return accepted, false;
        }
        var b := AuditSince(cursor, batch);
        if |b| == 0 {
          return;
        }
        if script(i).Refused? {
          return accepted, false;
        }
        accepted := accepted + b;
        if script(i).CursorLost? {
          return accepted, false;
        }
        ProgressStep(rows, start, cursor, batch, script, i, accepted[..|accepted| - |b|]);
        SinceShrinks(rows, cursor, batch);
        cursor := b[|b| - 1].id;
        if |b| < batch {
          return;
        }
        i := i + 1;
      }
    }
  }

  lemma SinceShrinks(rows: seq<Row>, pos: int, limit: int)
    requires IdsAscend(rows) && Since(rows, pos, limit) != []
    ensures var b := Since(rows, pos, limit);
            |Above(rows, b[|b| - 1].id)| < |Above(rows, pos)|
  {
    AboveAfter(rows, pos, |Since(rows, pos, limit)|);
  }

  lemma {:induction false} AbovePrefix(rows: seq<Row>, pos: int, i: nat)
    requires i <= |rows|
    ensures Above(rows[..i], pos) <= Above(rows, pos)
    decreases |rows|
  {
    if i == |rows| {
      assert rows[..i] == rows;
    } else {
      var front := rows[..|rows| - 1];
      assert front[..i] == rows[..i];
      AbovePrefix(front, pos, i);
    }
  }
}
