/** The exporter's drain pass as steps of the interleaved system. */
module ExportPass {
  import opened AuditLog
  import opened AuditExport
  import opened ExportRuns

  /** Further steps from a state. */
  function Continue(sha: string -> string, rfc3339: int -> string, s: System, steps: seq<Step>): System
    decreases |steps|
  {
    if steps == [] then s else Continue(sha, rfc3339, Exec(sha, rfc3339, s, steps[0]), steps[1..])
  }

  lemma {:induction false} RunContinues(sha: string -> string, rfc3339: int -> string, before: seq<Step>,
                                        steps: seq<Step>)
    ensures Run(sha, rfc3339, before + steps) == Continue(sha, rfc3339, Run(sha, rfc3339, before), steps)
    decreases |steps|
  {
    hide Exec;
    if steps == [] {
      assert before + steps == before;
    } else {
      assert before + steps == before + [steps[0]] + steps[1..];
      RunContinues(sha, rfc3339, before + [steps[0]], steps[1..]);
      assert (before + [steps[0]])[..|before|] == before;
    }
  }

  lemma {:induction false} ContinueTwice(sha: string -> string, rfc3339: int -> string, s: System, a: seq<Step>,
                                         b: seq<Step>)
    ensures Continue(sha, rfc3339, s, a + b) == Continue(sha, rfc3339, Continue(sha, rfc3339, s, a), b)
    decreases |a|
  {
    hide Exec;
    if a == [] {
      assert a + b == b;
    } else {
      assert (a + b)[0] == a[0] && (a + b)[1..] == a[1..] + b;
      ContinueTwice(sha, rfc3339, Exec(sha, rfc3339, s, a[0]), a[1..], b);
    }
  }

  /** The steps of a pass: each batch is fetched and shipped and the cursor moved, until a read or a
      shipment or a cursor write fails, the log is drained, or a batch comes back short. */
  function PassSteps(todo: seq<Row>, batch: int, script: nat -> Shipment, i: nat): seq<Step>
    decreases |todo|
  {
    var b := Batch(todo, batch);
    if script(i).Unread? || b == [] then []
    else if script(i).Refused? then [Fetch(batch), ShipFails(0)]
    else if script(i).CursorLost? then [Fetch(batch), ShipOk, Crash]
    else [Fetch(batch), ShipOk, WriteCursor] + if |b| < batch then [] else PassSteps(todo[|b|..], batch, script, i + 1)
  }

  lemma ThreeSteps(sha: string -> string, rfc3339: int -> string, s: System, a: Step, b: Step, c: Step)
    ensures Continue(sha, rfc3339, s, [a, b, c])
            == Exec(sha, rfc3339, Exec(sha, rfc3339, Exec(sha, rfc3339, s, a), b), c)
    ensures Continue(sha, rfc3339, s, [a, b]) == Exec(sha, rfc3339, Exec(sha, rfc3339, s, a), b)
  {
    hide Exec, Continue;
    var s1 := Exec(sha, rfc3339, s, a);
    var s2 := Exec(sha, rfc3339, s1, b);
    ContinueCons(sha, rfc3339, s, a, [b, c]);
    ContinueCons(sha, rfc3339, s1, b, [c]);
    ContinueCons(sha, rfc3339, s2, c, []);
    ContinueCons(sha, rfc3339, s, a, [b]);
    ContinueCons(sha, rfc3339, s1, b, []);
    assert [a] + [b, c] == [a, b, c] && [b] + [c] == [b, c] && [c] + [] == [c];
    assert [a] + [b] == [a, b] && [b] + [] == [b];
    ContinueNothing(sha, rfc3339, s2);
    ContinueNothing(sha, rfc3339, Exec(sha, rfc3339, s2, c));
  }

  lemma ContinueCons(sha: string -> string, rfc3339: int -> string, s: System, a: Step, rest: seq<Step>)
    ensures Continue(sha, rfc3339, s, [a] + rest) == Continue(sha, rfc3339, Exec(sha, rfc3339, s, a), rest)
  {
    assert ([a] + rest)[1..] == rest;
  }

  lemma ContinueNothing(sha: string -> string, rfc3339: int -> string, s: System)
    ensures Continue(sha, rfc3339, s, []) == s
  {
  }

  /** A batch taken and recorded moves the cursor to its last row; one taken and not recorded, or refused,
      leaves the cursor where it was. */
  lemma BatchOutcome(sha: string -> string, rfc3339: int -> string, s: System, limit: int)
    requires s.phase.Idle? && Since(s.log.rows, s.cursor, limit) != []
    ensures var b := Since(s.log.rows, s.cursor, limit);
            && Continue(sha, rfc3339, s, [Fetch(limit), ShipOk, WriteCursor])
               == s.(cursor := b[|b| - 1].id, accepted := s.accepted + Ids(b))
            && Continue(sha, rfc3339, s, [Fetch(limit), ShipOk, Crash]) == s.(accepted := s.accepted + Ids(b))
            && Continue(sha, rfc3339, s, [Fetch(limit), ShipFails(0)]) == s
  {
    hide Since, Continue, Ids;
    ThreeSteps(sha, rfc3339, s, Fetch(limit), ShipOk, WriteCursor);
    ThreeSteps(sha, rfc3339, s, Fetch(limit), ShipOk, Crash);
    ThreeSteps(sha, rfc3339, s, Fetch(limit), ShipFails(0), Crash);
    ExporterSteps(sha, rfc3339, s, limit);
    hide Exec;
  }

  lemma ExporterSteps(sha: string -> string, rfc3339: int -> string, s: System, limit: int)
    requires s.phase.Idle? && Since(s.log.rows, s.cursor, limit) != []
    ensures var b := Since(s.log.rows, s.cursor, limit);
            var fetched, taken := s.(phase := Fetched(b)), s.(phase := Taken(b), accepted := s.accepted + Ids(b));
            && Exec(sha, rfc3339, s, Fetch(limit)) == fetched
            && Exec(sha, rfc3339, fetched, ShipOk) == taken
            && Exec(sha, rfc3339, fetched, ShipFails(0)) == s
            && Exec(sha, rfc3339, taken, WriteCursor) == s.(cursor := b[|b| - 1].id, accepted := s.accepted + Ids(b))
            && Exec(sha, rfc3339, taken, Crash) == s.(accepted := s.accepted + Ids(b))
  {
    NoIds();
    hide Since, Insert, AuditLog.Prune, Ids;
    assert Since(s.log.rows, s.cursor, limit)[..0] == [];
  }

  lemma NoIds()
    ensures Ids([]) == {}
  {
  }

  /** The drain loop refines the interleaved system: on a fixed log its pass is a run of steps that ends
      with the same cursor and has the collector take the same rows. */
  lemma {:induction false} PassIsRun(sha: string -> string, rfc3339: int -> string, s: System, batch: int,
                                     script: nat -> Shipment, i: nat)
    requires s.phase.Idle? && IdsAscend(s.log.rows)
    ensures var todo := Above(s.log.rows, s.cursor);
            var p := Pass(todo, batch, script, i);
            Continue(sha, rfc3339, s, PassSteps(todo, batch, script, i))
            == s.(cursor := CursorAfter(todo, s.cursor, p.passed), accepted := s.accepted + Ids(p.shipped))
    decreases |Above(s.log.rows, s.cursor)|
  {
    hide Above, Exec, Ids, IdsAscend, Pass, PassSteps, Continue, CursorAfter;
    var b := Since(s.log.rows, s.cursor, batch);
    if b != [] && script(i).Accepted? {
      AboveAfter(s.log.rows, s.cursor, |b|);
      if |b| >= batch {
        PassIsRun(sha, rfc3339, s.(cursor := b[|b| - 1].id, accepted := s.accepted + Ids(b)), batch, script, i + 1);
      }
      AcceptedBatch(sha, rfc3339, s, batch, script, i);
    } else {
      LastBatch(sha, rfc3339, s, batch, script, i);
    }
  }

  /** The cases in which the pass ends without moving the cursor. */
  lemma LastBatch(sha: string -> string, rfc3339: int -> string, s: System, batch: int, script: nat -> Shipment, i: nat)
    requires s.phase.Idle? && (Since(s.log.rows, s.cursor, batch) == [] || !script(i).Accepted?)
    ensures var todo := Above(s.log.rows, s.cursor);
            var p := Pass(todo, batch, script, i);
            Continue(sha, rfc3339, s, PassSteps(todo, batch, script, i))
            == s.(cursor := CursorAfter(todo, s.cursor, p.passed), accepted := s.accepted + Ids(p.shipped))
  {
    hide Above, Exec, Ids, Continue;
    NoIds();
    ContinueNothing(sha, rfc3339, s);
    if Since(s.log.rows, s.cursor, batch) != [] {
      BatchOutcome(sha, rfc3339, s, batch);
    }
  }

  /** The case of a batch taken and recorded. */
  lemma AcceptedBatch(sha: string -> string, rfc3339: int -> string, s: System, batch: int, script: nat -> Shipment,
                      i: nat)
    requires var b := Since(s.log.rows, s.cursor, batch);
             && s.phase.Idle? && b != [] && script(i).Accepted?
             && var s' := s.(cursor := b[|b| - 1].id, accepted := s.accepted + Ids(b));
                var rest := Above(s.log.rows, s.cursor)[|b|..];
                |b| >= batch ==>
                  Continue(sha, rfc3339, s', PassSteps(rest, batch, script, i + 1))
                  == s'.(cursor := CursorAfter(rest, s'.cursor, Pass(rest, batch, script, i + 1).passed),
                         accepted := s'.accepted + Ids(Pass(rest, batch, script, i + 1).shipped))
    ensures var todo := Above(s.log.rows, s.cursor);
            var p := Pass(todo, batch, script, i);
            Continue(sha, rfc3339, s, PassSteps(todo, batch, script, i))
            == s.(cursor := CursorAfter(todo, s.cursor, p.passed), accepted := s.accepted + Ids(p.shipped))
  {
    hide Above, Exec, Ids, IdsAscend, Continue;
    var todo := Above(s.log.rows, s.cursor);
    var b := Batch(todo, batch);
    var s' := s.(cursor := b[|b| - 1].id, accepted := s.accepted + Ids(b));
    var more := if |b| < batch then [] else PassSteps(todo[|b|..], batch, script, i + 1);
    var p := if |b| < batch then PassResult([], 0, true) else Pass(todo[|b|..], batch, script, i + 1);
    BatchOutcome(sha, rfc3339, s, batch);
    PassStep(todo, batch, script, i);
    ContinueTwice(sha, rfc3339, s, [Fetch(batch), ShipOk, WriteCursor], more);
    ContinueNothing(sha, rfc3339, s');
    NoIds();
    IdsOfAppend(b, p.shipped);
    hide Pass;
    assert p.passed > 0 ==> todo[|b|..][p.passed - 1] == todo[|b| + p.passed - 1];
    assert b[|b| - 1] == todo[|b| - 1];
  }

  lemma IdsOfAppend(a: seq<Row>, b: seq<Row>)
    ensures Ids(a + b) == Ids(a) + Ids(b)
  {
    assert forall r :: r in a + b <==> r in a || r in b;
  }
}
