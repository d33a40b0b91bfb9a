/** Two relays as goroutines (server/internal/eew/p2pquake.go, server/main.go): the deduper's lock is
    released before the alert is stamped, so emitting and stamping are two steps. */
module EewRelays {
  import opened Severity
  import opened AcceptGate
  import opened GateRefinement
  import opened Eew

  /** A relay hands a report to the deduper, or stamps and publishes the report it got through. */
  datatype Action = Receive(relay: int, report: Report, now: int) | Publish(relay: int, now: int)

  /** The reports in the order in which they reached the deduper, which of them a relay has yet to
      publish, the stamps given so far, and the clock. */
  datatype World = World(reports: seq<Report>, holding: map<int, nat>, stamps: map<int, int>, clock: int)

  /** A relay works on one report at a time, and the clock does not go back. */
  predicate Possible(w: World, a: Action) {
    w.clock <= a.now && (a.Receive? <==> a.relay !in w.holding)
  }

  function Act(w: World, a: Action): World {
    if !Possible(w, a) then w
    else match a
      case Receive(relay, report, now) =>
        var reports, k := w.reports + [report], |w.reports|;
        World(reports, if Emitted(reports, k) then w.holding[relay := k] else w.holding, w.stamps, now)
      case Publish(relay, now) =>
        World(w.reports, w.holding - {relay}, w.stamps[w.holding[relay] := now], now)
  }

  function Run(start: int, actions: seq<Action>): World {
    if actions == [] then World([], map[], map[], start)
    else Act(Run(start, actions[..|actions| - 1]), actions[|actions| - 1])
  }

  /** The stamp of a report; one not yet published will get a later one than all so far. */
  function StampOf(w: World): int -> int {
    k => if k in w.stamps then w.stamps[k] else w.clock
  }

  predicate About(reports: seq<Report>, k: int, event: string) {
    0 <= k < |reports| && reports[k].event == event && Emitted(reports, k)
  }

  /** No relay is between emitting and stamping a report of the event when the next one comes in. */
  ghost predicate Calm(w: World, a: Action, event: string) {
    Possible(w, a) && a.Receive? && a.report.event == event ==>
      forall relay | relay in w.holding :: !About(w.reports, w.holding[relay], event)
  }

  ghost predicate Serial(start: int, actions: seq<Action>, event: string) {
    forall i | 0 <= i < |actions| :: Calm(Run(start, actions[..i]), actions[i], event)
  }

  // ---- the invariant ----

  /** Every report emitted and not stamped is in a relay's hands. */
  ghost predicate NoneDropped(w: World) {
    forall k | 0 <= k < |w.reports| && Emitted(w.reports, k) && k !in w.stamps ::
      exists r :: r in w.holding && w.holding[r] == k
  }

  ghost predicate Sane(w: World) {
    && (forall k | k in w.stamps :: 0 <= k < |w.reports| && w.stamps[k] <= w.clock)
    && (forall relay | relay in w.holding :: w.holding[relay] < |w.reports| && w.holding[relay] !in w.stamps)
    && (forall r, q | r in w.holding && q in w.holding && r != q :: w.holding[r] != w.holding[q])
    && NoneDropped(w)
  }

  /** Of two emitted reports of the event the earlier one is stamped, and not later. */
  ghost predicate Ordered(w: World, event: string) {
    forall j, k | About(w.reports, j, event) && About(w.reports, k, event) && j < k ::
      j in w.stamps && (k in w.stamps ==> w.stamps[j] <= w.stamps[k])
  }

  lemma EmittedBefore(reports: seq<Report>, r: Report)
    ensures forall k | 0 <= k < |reports| :: Emitted(reports + [r], k) == Emitted(reports, k)
  {
    forall k | 0 <= k < |reports| ensures Emitted(reports + [r], k) == Emitted(reports, k) {
      assert (reports + [r])[..k] == reports[..k];
    }
  }

  lemma ReceiveIsSane(w: World, a: Action)
    requires a.Receive? && Possible(w, a) && Sane(w)
    ensures Sane(Act(w, a))
  {
    EmittedBefore(w.reports, a.report);
    hide Emitted;
    var w' := Act(w, a);
    forall k | 0 <= k < |w'.reports| && Emitted(w'.reports, k) && k !in w'.stamps
      ensures exists r :: r in w'.holding && w'.holding[r] == k
    {
      if k == |w.reports| {
        assert w'.holding[a.relay] == k;
      } else {
        var r :| r in w.holding && w.holding[r] == k;
        assert r in w'.holding && w'.holding[r] == k;
      }
    }
    assert NoneDropped(w');
    hide NoneDropped;
  }

  lemma ReceiveIsOrdered(w: World, a: Action, event: string)
    requires a.Receive? && Possible(w, a) && Sane(w) && Ordered(w, event) && Calm(w, a, event)
    ensures Ordered(Act(w, a), event)
  {
    EmittedBefore(w.reports, a.report);
    hide Emitted;
    var w' := Act(w, a);
    forall j, k | About(w'.reports, j, event) && About(w'.reports, k, event) && j < k
      ensures j in w'.stamps && (k in w'.stamps ==> w'.stamps[j] <= w'.stamps[k])
    {
      assert About(w.reports, j, event);
      assert k < |w.reports| ==> About(w.reports, k, event);
    }
  }

  lemma PublishIsSane(w: World, a: Action)
    requires a.Publish? && Possible(w, a) && Sane(w)
    ensures Sane(Act(w, a))
  {
    hide Emitted, NoneDropped;
    PublishDropsNone(w, a);
  }

  lemma PublishDropsNone(w: World, a: Action)
    requires a.Publish? && Possible(w, a) && NoneDropped(w)
    ensures NoneDropped(Act(w, a))
  {
    hide Emitted;
    var w' := Act(w, a);
    forall k | 0 <= k < |w'.reports| && Emitted(w'.reports, k) && k !in w'.stamps
      ensures exists r :: r in w'.holding && w'.holding[r] == k
    {
      var r :| r in w.holding && w.holding[r] == k;
      assert r in w'.holding && w'.holding[r] == k;
    }
  }

  lemma PublishIsOrdered(w: World, a: Action, event: string)
    requires a.Publish? && Possible(w, a) && Sane(w) && Ordered(w, event)
    ensures Ordered(Act(w, a), event)
  {
    hide Emitted;
  }

  lemma {:induction false} RunIsSane(start: int, actions: seq<Action>, event: string)
    ensures Sane(Run(start, actions))
    ensures Serial(start, actions, event) ==> Ordered(Run(start, actions), event)
  {
    if actions != [] {
      var n := |actions| - 1;
      RunIsSane(start, actions[..n], event);
      ActKeeps(Run(start, actions[..n]), actions[n], event);
      hide Sane, Ordered, Calm, Serial, Act;
      if Serial(start, actions, event) {
        SerialFront(start, actions, event);
      }
    }
  }

  lemma ActKeeps(w: World, a: Action, event: string)
    requires Sane(w)
    ensures Sane(Act(w, a))
    ensures Ordered(w, event) && Calm(w, a, event) ==> Ordered(Act(w, a), event)
  {
    hide Sane, Ordered, Calm;
    if Possible(w, a) {
      if a.Receive? {
        ReceiveIsSane(w, a);
      } else {
        PublishIsSane(w, a);
      }
      if Ordered(w, event) && Calm(w, a, event) {
        if a.Receive? {
          ReceiveIsOrdered(w, a, event);
        } else {
          PublishIsOrdered(w, a, event);
        }
      }
    }
  }

  lemma SerialFront(start: int, actions: seq<Action>, event: string)
    requires actions != [] && Serial(start, actions, event)
    ensures var n := |actions| - 1;
            Serial(start, actions[..n], event) && Calm(Run(start, actions[..n]), actions[n], event)
  {
    hide Run, Calm;
    var n := |actions| - 1;
    forall i | 0 <= i < n ensures Calm(Run(start, actions[..n][..i]), actions[..n][i], event) {
      assert actions[..n][..i] == actions[..i];
    }
  }

  // ---- what the order of the two steps decides ----

  /** If each report of an event is stamped before the next one is emitted, stamps are in emit order,
      and no upgrade is ever quiet. */
  lemma SerialNeverQuiet(start: int, actions: seq<Action>, event: string, lo: nat, calls: seq<Call>, maxSkew: int)
    requires Serial(start, actions, event)
    requires var w := Run(start, actions);
             Epoch(w.reports, event, lo) && Delivered(w.reports, event, lo, StampOf(w), calls)
    ensures var w := Run(start, actions);
            StampsOrdered(w.reports, event, lo, StampOf(w))
    ensures NeverQuiet(event, RunBounded(BLANK, calls, maxSkew).verdicts, calls)
  {
    var w := Run(start, actions);
    RunIsSane(start, actions, event);
    OrderedStamps(w, event, lo);
    hide Run, Serial, Sane, Ordered, Epoch, StampsOrdered, Delivered;
    UpgradesAreNeverQuiet(w.reports, event, lo, StampOf(w), BLANK, calls, maxSkew);
  }

  lemma OrderedStamps(w: World, event: string, lo: nat)
    requires Sane(w) && Ordered(w, event)
    ensures StampsOrdered(w.reports, event, lo, StampOf(w))
  {
    hide Emitted;
    forall j, k | Issued(w.reports, event, lo, j) && Issued(w.reports, event, lo, k) && j < k
      ensures StampOf(w)(j) <= StampOf(w)(k)
    {
      assert About(w.reports, j, event) && About(w.reports, k, event);
    }
  }

  /** A single relay is always serial. */
  lemma {:induction false} OneRelayIsSerial(start: int, actions: seq<Action>, relay: int, event: string)
    requires forall i | 0 <= i < |actions| :: actions[i].relay == relay
    ensures Serial(start, actions, event) && Run(start, actions).holding.Keys <= {relay}
  {
    hide Emitted, About;
    if actions != [] {
      var n := |actions| - 1;
      OneRelayIsSerial(start, actions[..n], relay, event);
      forall i | 0 <= i < |actions| ensures Calm(Run(start, actions[..i]), actions[i], event) {
        if i < n {
          assert actions[..n][..i] == actions[..i] && actions[..n][i] == actions[i];
          assert Calm(Run(start, actions[..n][..i]), actions[..n][i], event);
        }
      }
    }
  }

  /** The other relay overtakes: it receives an upgrade and publishes it before the report it revises
      has been stamped. */
  function Overtake(slow: int, fast: int, upgrade: Report, t: int): seq<Action> {
    [Receive(fast, upgrade, t), Publish(fast, t), Publish(slow, t + 1)]
  }

  /** The race: from every state in which one relay has emitted a report of the event and not yet
      stamped it, an upgrade through another relay can overtake it. The clock never goes back, and
      still there is a delivery in which a report of the event is a quiet renewal; delivered in
      emit order, the upgrade itself is dropped (SameSecondUpgradeIsDropped). */
  lemma RacingRelays(w: World, event: string, lo: nat, slow: int, fast: int, severity: string, maxSkew: int)
    returns (calls: seq<Call>)
    requires Sane(w) && Epoch(w.reports, event, lo) && maxSkew >= 0
    requires slow in w.holding && fast !in w.holding && lo <= w.holding[slow]
      && About(w.reports, w.holding[slow], event)
    requires Emitted(w.reports + [Quake(event, severity)], |w.reports|)
    ensures var upgrade := Quake(event, severity);
            var race := Overtake(slow, fast, upgrade, w.clock);
            var w' := Act(Act(Act(w, race[0]), race[1]), race[2]);
            && w'.reports == w.reports + [upgrade] && w'.clock == w.clock + 1
            && StampOf(w')(|w.reports|) < StampOf(w')(w.holding[slow])
            && Epoch(w'.reports, event, lo) && !StampsOrdered(w'.reports, event, lo, StampOf(w'))
            && Delivered(w'.reports, event, lo, StampOf(w'), calls)
            && !NeverQuiet(event, RunBounded(BLANK, calls, maxSkew).verdicts, calls)
  {
    var upgrade := Quake(event, severity);
    var race := Overtake(slow, fast, upgrade, w.clock);
    var j, k := w.holding[slow], |w.reports|;
    var w1 := Act(w, race[0]);
    var w2 := Act(w1, race[1]);
    var w' := Act(w2, race[2]);
    EmittedBefore(w.reports, upgrade);
    hide Emitted;
    assert w'.stamps[k] == w.clock && w'.stamps[j] == w.clock + 1;
    assert Issued(w'.reports, event, lo, j) && Issued(w'.reports, event, lo, k);
    assert Epoch(w'.reports, event, lo);
    hide Act, Sane, Delivered, NeverQuiet, RunBounded;
    calls := OutOfOrderQuiets(w'.reports, event, lo, StampOf(w'), j, k, maxSkew);
  }

  /** Such a state is one report away from the start: two relays, one earthquake, the second report
      outranking the first. */
  lemma RaceFromTheStart(start: int, event: string, first: string, second: string, slow: int, fast: int, maxSkew: int)
    returns (calls: seq<Call>)
    requires Rank(first) < Rank(second) && slow != fast && maxSkew >= 0
    ensures var race := Overtake(slow, fast, Quake(event, second), start);
            var w := Run(start, [Receive(slow, Quake(event, first), start)] + race);
            && w.reports == [Quake(event, first), Quake(event, second)]
            && Delivered(w.reports, event, 0, StampOf(w), calls)
            && !NeverQuiet(event, RunBounded(BLANK, calls, maxSkew).verdicts, calls)
  {
    var a, b := Quake(event, first), Quake(event, second);
    var receive, race := Receive(slow, a, start), Overtake(slow, fast, b, start);
    EmitsRunningMaxima([a], 0);
    EmitsRunningMaxima([a, b], 1);
    assert Live([a, b], event, 0, 1);
    hide Rank, EmissionAt;
    RunIsSane(start, [receive], event);
    FourActions(start, receive, race[0], race[1], race[2]);
    var w := Act(World([], map[], map[], start), receive);
    assert w.reports == [a] && [a] + [b] == [a, b];
    calls := RacingRelays(w, event, 0, slow, fast, second, maxSkew);
  }

  lemma FourActions(start: int, a: Action, b: Action, c: Action, d: Action)
    ensures var w := Act(World([], map[], map[], start), a);
            && Run(start, [a]) == w
            && Run(start, [a] + [b, c, d]) == Act(Act(Act(w, b), c), d)
  {
    hide Act, Run;
    RunSnoc(start, [], a);
    RunSnoc(start, [a], b);
    RunSnoc(start, [a, b], c);
    RunSnoc(start, [a, b, c], d);
    assert [] + [a] == [a] && [a] + [b] == [a, b] && [a, b] + [c] == [a, b, c];
    assert [a, b, c] + [d] == [a] + [b, c, d];
    RunEmpty(start);
  }

  lemma RunSnoc(start: int, actions: seq<Action>, a: Action)
    ensures Run(start, actions + [a]) == Act(Run(start, actions), a)
  {
    assert (actions + [a])[..|actions|] == actions;
  }

  lemma RunEmpty(start: int)
    ensures Run(start, []) == World([], map[], map[], start)
  {
  }
}
