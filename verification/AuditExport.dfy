/** Shipping the audit log from a durable cursor (server/internal/store/audit_export.go and
    server/internal/siem/siem.go). */
module AuditExport {
  import opened AuditLog

  /** AuditSince's limit. */
  function Clamp(limit: int): (l: nat)
    ensures 1 <= l <= 1000
  {
    if limit <= 0 || limit > 1000 then 200 else limit
  }

  /** The rows with an id above the cursor, in id order. */
  function Above(rows: seq<Row>, pos: int): seq<Row> {
    if rows == [] then []
    else Above(rows[..|rows| - 1], pos) + (if rows[|rows| - 1].id > pos then [rows[|rows| - 1]] else [])
  }

  function Since(rows: seq<Row>, pos: int, limit: int): seq<Row> {
    Batch(Above(rows, pos), limit)
  }

  function Batch(todo: seq<Row>, limit: int): seq<Row> {
    todo[..if |todo| < Clamp(limit) then |todo| else Clamp(limit)]
  }

  /** What becomes of one batch: taken by the collector and the cursor advanced, taken but the cursor
      write lost, refused, or not even read because the cursor or the rows could not be. */
  datatype Shipment = Accepted | CursorLost | Refused | Unread

  /** One drain pass over the rows still to be shipped: the batches the collector took, how many of
      those rows the cursor has passed, and whether the pass ended without an error. `script` says
      how the i-th shipment goes. */
  datatype PassResult = PassResult(shipped: seq<Row>, passed: nat, ok: bool)

  function Pass(todo: seq<Row>, batch: int, script: nat -> Shipment, i: nat): (r: PassResult)
    ensures r.passed <= |r.shipped| <= |todo|
    ensures r.shipped == todo[..|r.shipped|]
    decreases |todo|
  {
    var b := Batch(todo, batch);
    if script(i).Unread? then PassResult([], 0, false)
    else if b == [] then PassResult([], 0, true)
    else if script(i).Refused? then PassResult([], 0, false)
    else if script(i).CursorLost? then PassResult(b, 0, false)
    else if |b| < batch then PassResult(b, |b|, true)
    else Resume(b, Pass(todo[|b|..], batch, script, i + 1))
  }

  /** A pass that goes on after `done` was shipped and passed. */
  function Resume(done: seq<Row>, rest: PassResult): PassResult {
    PassResult(done + rest.shipped, |done| + rest.passed, rest.ok)
  }

  lemma ResumeTwice(a: seq<Row>, b: seq<Row>, rest: PassResult)
    ensures Resume(a, Resume(b, rest)) == Resume(a + b, rest)
  {
    assert a + (b + rest.shipped) == a + b + rest.shipped;
  }

  /** The pass whose first batch is neither empty, nor refused, nor left unrecorded. */
  lemma PassStep(todo: seq<Row>, batch: int, script: nat -> Shipment, i: nat)
    requires Batch(todo, batch) != [] && script(i).Accepted?
    ensures var b := Batch(todo, batch);
            Pass(todo, batch, script, i) ==
              Resume(b, if |b| < batch then PassResult([], 0, true) else Pass(todo[|b|..], batch, script, i + 1))
  {
    var b := Batch(todo, batch);
    assert b + [] == b;
  }

  function CursorAfter(todo: seq<Row>, pos: int, passed: nat): int
    requires passed <= |todo|
  {
    if passed == 0 then pos else todo[passed - 1].id
  }

  ghost predicate IdsAscend(rows: seq<Row>) {
    forall i, j | 0 <= i < j < |rows| :: rows[i].id < rows[j].id
  }

  lemma {:induction false} AboveIs(rows: seq<Row>, pos: int, n: nat)
    requires n <= |rows|
    requires forall i | 0 <= i < |rows| :: rows[i].id > pos <==> i >= n
    ensures Above(rows, pos) == rows[n..]
  {
    if rows != [] {
      var m := |rows| - 1;
      if n < |rows| {
        AboveIs(rows[..m], pos, n);
        TailWithoutLast(rows, n);
      } else {
        AboveIs(rows[..m], pos, m);
      }
    }
  }

  lemma TailWithoutLast(rows: seq<Row>, n: nat)
    requires n < |rows|
    ensures rows[..|rows| - 1][n..] + [rows[|rows| - 1]] == rows[n..]
  {
  }

  /** What is above the cursor is a suffix of the table: nothing before it, everything after. */
  lemma AboveIsSuffix(rows: seq<Row>, pos: int) returns (n: nat)
    requires IdsAscend(rows)
    ensures n <= |rows| && Above(rows, pos) == rows[n..]
    ensures forall i | 0 <= i < |rows| :: rows[i].id > pos <==> i >= n
  {
    n := 0;
    while n < |rows| && rows[n].id <= pos
      invariant n <= |rows|
      invariant forall i | 0 <= i < n :: rows[i].id <= pos
    {
      n := n + 1;
    }
    AboveIs(rows, pos, n);
  }

  /** Moving the cursor over the first `k` pending rows leaves the other pending rows. */
  lemma AboveAfter(rows: seq<Row>, pos: int, k: nat)
    requires IdsAscend(rows) && 0 < k <= |Above(rows, pos)|
    ensures Above(rows, Above(rows, pos)[k - 1].id) == Above(rows, pos)[k..]
    ensures Above(rows, pos)[k - 1].id > pos
  {
    var n := AboveIsSuffix(rows, pos);
    AboveIs(rows, rows[n + k - 1].id, n + k);
  }

  /** A pass without errors drains the table when the configured batch is not above the store's
      limit; otherwise it stops after one clamped batch. */
  lemma {:induction false} PassDrains(todo: seq<Row>, batch: int, script: nat -> Shipment, i: nat)
    requires batch >= 1
    requires Pass(todo, batch, script, i).ok
    ensures var r := Pass(todo, batch, script, i);
            && r.passed == |r.shipped|
            && |r.shipped| == (if batch <= 1000 || |todo| <= 200 then |todo| else 200)
    decreases |todo|
  {
    var b := Batch(todo, batch);
    if b != [] && |b| >= batch {
      PassDrains(todo[|b|..], batch, script, i + 1);
    }
  }

  /** Every row the cursor moves over is one of the rows passed. */
  lemma PassedRows(rows: seq<Row>, pos: int, k: nat)
    requires IdsAscend(rows) && k <= |Above(rows, pos)|
    ensures var todo := Above(rows, pos);
            forall r | r in rows && pos < r.id <= CursorAfter(todo, pos, k) :: r in todo[..k]
  {
    var n := AboveIsSuffix(rows, pos);
    var todo := Above(rows, pos);
    forall r | r in rows && pos < r.id <= CursorAfter(todo, pos, k) ensures r in todo[..k] {
      var i :| 0 <= i < |rows| && rows[i] == r;
      assert rows[i] == todo[..k][i - n];
    }
  }

  /** A page of the log: rows above the cursor, ascending and without a gap, at most as many as asked for
      (200 if that is not between 1 and 1000), and all there are if it is shorter. */
  ghost predicate IsPage(rows: seq<Row>, pos: int, limit: int, page: seq<Row>) {
    var most := if 1 <= limit <= 1000 then limit else 200;
    && |page| <= most
    && (forall r | r in page :: r in rows && r.id > pos)
    && (|page| < most ==> forall r | r in rows && r.id > pos :: r in page)
    && (IdsAscend(rows) ==>
          IdsAscend(page) && forall r, p | r in rows && p in page && pos < r.id <= p.id :: r in page)
  }

  lemma {:induction false} AboveHas(rows: seq<Row>, pos: int)
    ensures forall r :: r in Above(rows, pos) <==> r in rows && r.id > pos
  {
    if rows != [] {
      AboveHas(rows[..|rows| - 1], pos);
      assert rows == rows[..|rows| - 1] + [rows[|rows| - 1]];
    }
  }

  lemma SinceIsPage(rows: seq<Row>, pos: int, limit: int)
    ensures IsPage(rows, pos, limit, Since(rows, pos, limit))
  {
    hide Above, IdsAscend;
    AboveHas(rows, pos);
    var todo, page := Above(rows, pos), Since(rows, pos, limit);
    assert forall r | r in page :: r in todo;
    if IdsAscend(rows) {
      var n := AboveIsSuffix(rows, pos);
      PrefixHasNoGap(rows, n, |page|, pos);
    }
  }

  lemma PrefixHasNoGap(rows: seq<Row>, n: nat, k: nat, pos: int)
    requires IdsAscend(rows) && n + k <= |rows|
    requires forall i | 0 <= i < |rows| :: rows[i].id > pos <==> i >= n
    ensures var page := rows[n..][..k];
            IdsAscend(page) && forall r, p | r in rows && p in page && pos < r.id <= p.id :: r in page
  {
    var page := rows[n..][..k];
    assert forall i | 0 <= i < k :: page[i] == rows[n + i];
    forall r, p | r in rows && p in page && pos < r.id <= p.id ensures r in page {
      var i :| 0 <= i < |rows| && rows[i] == r;
      var j :| 0 <= j < k && page[j] == p;
      assert page[i - n] == r;
    }
  }

  /** One pass over a table: the collector is sent the rows above the cursor in id order without a
      gap, the cursor never goes back and never passes a row the collector did not take, and an
      error-free pass leaves nothing above the cursor exactly when the batch was not clamped or one
      clamped batch was enough. */
  lemma PassOverTable(rows: seq<Row>, pos: int, batch: int, script: nat -> Shipment, i: nat)
    requires IdsAscend(rows) && batch >= 1
    ensures var todo := Above(rows, pos);
            var r := Pass(todo, batch, script, i);
            var pos' := CursorAfter(todo, pos, r.passed);
            && r.shipped <= todo && pos <= pos'
            && (forall e | e in rows && pos < e.id <= pos' :: e in r.shipped)
            && Above(rows, pos') == todo[r.passed..]
            && (r.ok ==> (Above(rows, pos') == [] <==> batch <= 1000 || |todo| <= 200))
  {
    hide Pass, Above;
    var todo := Above(rows, pos);
    var r := Pass(todo, batch, script, i);
    PassedRows(rows, pos, r.passed);
    ShorterPrefix(todo, r.passed, |r.shipped|);
    if r.passed > 0 {
      AboveAfter(rows, pos, r.passed);
    }
    if r.ok {
      PassDrains(todo, batch, script, i);
    }
  }

  lemma ShorterPrefix(todo: seq<Row>, k: nat, n: nat)
    requires k <= n <= |todo|
    ensures forall e | e in todo[..k] :: e in todo[..n]
    ensures todo[0..] == todo
  {
    assert todo[..k] == todo[..n][..k];
  }

  // ---- the drain loop, one iteration at a time ----

  /** Where the loop stands: `accepted` rows shipped and passed, `i` shipments made. */
  ghost predicate Progress(rows: seq<Row>, start: int, pos: int, batch: int, script: nat -> Shipment, i: nat,
                           accepted: seq<Row>) {
    var todo := Above(rows, start);
    && accepted <= todo
    && Above(rows, pos) == todo[|accepted|..]
    && pos == CursorAfter(todo, start, |accepted|)
    && Pass(todo, batch, script, 0) == Resume(accepted, Pass(todo[|accepted|..], batch, script, i))
  }

  ghost predicate Finished(rows: seq<Row>, start: int, pos: int, batch: int, script: nat -> Shipment,
                           accepted: seq<Row>, ok: bool) {
    var todo := Above(rows, start);
    var p := Pass(todo, batch, script, 0);
    accepted == p.shipped && ok == p.ok && pos == CursorAfter(todo, start, p.passed)
  }

  lemma ProgressStart(rows: seq<Row>, start: int, batch: int, script: nat -> Shipment)
    ensures Progress(rows, start, start, batch, script, 0, [])
  {
    var todo := Above(rows, start);
    assert todo[0..] == todo;
    assert [] + Pass(todo, batch, script, 0).shipped == Pass(todo, batch, script, 0).shipped;
  }

  lemma ProgressStops(rows: seq<Row>, start: int, pos: int, batch: int, script: nat -> Shipment, i: nat,
                      accepted: seq<Row>)
    requires Progress(rows, start, pos, batch, script, i, accepted)
    ensures var b := Since(rows, pos, batch);
            && (script(i).Unread? ==> Finished(rows, start, pos, batch, script, accepted, false))
            && (b == [] && !script(i).Unread? ==> Finished(rows, start, pos, batch, script, accepted, true))
            && (b != [] && script(i).Refused? ==> Finished(rows, start, pos, batch, script, accepted, false))
            && (b != [] && script(i).CursorLost? ==> Finished(rows, start, pos, batch, script, accepted + b, false))
  {
    hide Above;
    assert accepted + [] == accepted;
  }

  lemma ExtendPrefix(a: seq<Row>, b: seq<Row>, todo: seq<Row>)
    requires a <= todo && b <= todo[|a|..] && b != []
    ensures a + b <= todo && todo[|a|..][|b|..] == todo[|a + b|..]
    ensures todo[|a + b| - 1] == b[|b| - 1]
    ensures a + b + [] == a + b
  {
  }

  lemma ProgressStep(rows: seq<Row>, start: int, pos: int, batch: int, script: nat -> Shipment, i: nat,
                     accepted: seq<Row>)
    requires IdsAscend(rows) && Progress(rows, start, pos, batch, script, i, accepted)
    requires Since(rows, pos, batch) != [] && script(i).Accepted?
    ensures var b := Since(rows, pos, batch);
            var pos' := b[|b| - 1].id;
            if |b| < batch then Finished(rows, start, pos', batch, script, accepted + b, true)
            else Progress(rows, start, pos', batch, script, i + 1, accepted + b)
  {
    var todo := Above(rows, start);
    var rest, b := todo[|accepted|..], Since(rows, pos, batch);
    PassStep(rest, batch, script, i);
    AboveAfter(rows, pos, |b|);
    ExtendPrefix(accepted, b, todo);
    hide Pass, Above, Since, Batch;
    var after := if |b| < batch then PassResult([], 0, true) else Pass(rest[|b|..], batch, script, i + 1);
    ResumeTwice(accepted, b, after);
  }
}
