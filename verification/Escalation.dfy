/** The acknowledgement ladder (server/internal/api/escalation.go). Clock readings are nanoseconds,
    stamps on alerts unix seconds. */
module Escalation {
  import opened Text

  const SECOND := 1_000_000_000

  predicate Tracked(severity: string) {
    severity == "emergency" || severity == "critical"
  }

  /** escalationSchedule: when phase i + 1 is due. */
  function Threshold(severity: string, i: nat): int
    requires i < 3
  {
    if severity == "emergency" then [15, 45, 120][i] * SECOND
    else if severity == "critical" then [30, 90, 180][i] * SECOND
    else 0
  }

  /** DefaultTTL. */
  function DefaultTTL(severity: string): int {
    if Tracked(severity) then 120 else 600
  }

  /** Two minutes for what is tracked, ten for everything else. */
  lemma DefaultTTLIs(severity: string)
    ensures DefaultTTL(severity) == (if severity in ["critical", "emergency"] then 2 * 60 else 10 * 60)
  {
  }

  /** EscalationState, with the two fields of its alert the ladder reads. */
  datatype Item = Item(
    severity: string, phase: nat, startedAt: int, pending: set<string>, unreached: set<string>, done: bool,
    issuedAt: int, ttl: int, lastPhase: int)

  datatype Alert = Alert(id: string, typ: string, severity: string, issuedAt: int, ttl: int)

  function NewItem(a: Alert, now: int): Item {
    Item(a.severity, 0, now / SECOND, {}, {}, false, a.issuedAt, a.ttl, now)
  }

  /** The phase loop from index `i`: the highest threshold passed wins. */
  function Advance(severity: string, elapsed: int, i: nat, next: nat): nat
    decreases 3 - i
  {
    if i >= 3 then next
    else Advance(severity, elapsed, i + 1, if elapsed >= Threshold(severity, i) then i + 1 else next)
  }

  predicate Expired(it: Item, now: int) {
    now / SECOND > it.issuedAt + it.ttl
  }

  /** One evaluation of one item, and the phase of the notification it sends, if any. */
  function Tick(it: Item, now: int, silent: set<string>): (Item, Option<nat>) {
    if it.done then (it, None)
    else if Expired(it, now) then (it.(done := true), None)
    else if silent == {} then (it.(done := true, pending := {}), None)
    else
      var next := Advance(it.severity, now - it.startedAt * SECOND, it.phase, it.phase);
      var seen := it.(pending := silent);
      var it' := if next > it.phase
                 then seen.(phase := next, lastPhase := now, unreached := if next >= 3 then silent else it.unreached)
                 else seen;
      (it', if next > 0 && now == it'.lastPhase then Some(it'.phase) else None)
  }

  /** Devices that are online and not among those on the acknowledgement list; a list that cannot be
      read counts as empty. */
  function Silent(presence: map<string, bool>, acks: Option<set<string>>): set<string> {
    set d | d in presence && presence[d] && (acks.Some? ==> d !in acks.value)
  }

  /** How evaluating all items but `left` turns the items `was` into `items` and what it announces. */
  ghost predicate Evaluated(was: map<string, Item>, items: map<string, Item>, fired: map<string, nat>,
                            left: set<string>, now: int, presence: map<string, bool>,
                            acks: map<string, Option<set<string>>>) {
    && left <= was.Keys == items.Keys <= acks.Keys
    && (forall id | id in left :: items[id] == was[id])
    && (forall id | id in was.Keys - left :: items[id] == Tick(was[id], now, Silent(presence, acks[id])).0)
    && fired.Keys <= items.Keys - left
    && (forall id | id in was.Keys - left ::
          Tick(was[id], now, Silent(presence, acks[id])).1 == if id in fired then Some(fired[id]) else None)
  }

  lemma EvaluatedOne(was: map<string, Item>, items: map<string, Item>, fired: map<string, nat>, left: set<string>,
                     now: int, presence: map<string, bool>, acks: map<string, Option<set<string>>>, id: string)
    requires Evaluated(was, items, fired, left, now, presence, acks) && id in left
    ensures var (it, notice) := Tick(items[id], now, Silent(presence, acks[id]));
            Evaluated(was, items[id := it], if notice.Some? then fired[id := notice.value] else fired, left - {id},
                      now, presence, acks)
  {
    hide Tick, Silent;
  }

  /** What ends a ladder: an item is done afterwards if and only if it was, or its alert has expired, or every
      online device has acknowledged. Then nothing is sent and it stays where it stands, except that a
      complete acknowledgement clears the pending devices. */
  ghost predicate Ends(it: Item, now: int, silent: set<string>, it': Item, notice: Option<nat>) {
    var expired := now / 1_000_000_000 > it.issuedAt + it.ttl;
    && (it'.done <==> it.done || expired || silent == {})
    && (it'.done ==> notice == None && it' == it.(done := true, pending := it'.pending))
    && (it'.done ==> it'.pending == if it.done || expired then it.pending else {})
  }

  lemma TickEnds(it: Item, now: int, silent: set<string>)
    ensures var (it', notice) := Tick(it, now, silent);
            Ends(it, now, silent, it', notice)
  {
    hide Advance;
  }

  class Escalator {
    var items: map<string, Item>

    constructor ()
      ensures items == map[]
    {
      items := map[];
    }

    method TrackForAck(a: Alert, now: int)
      modifies this
      ensures items == if a.typ == "alert" && Tracked(a.severity) then old(items)[a.id := NewItem(a, now)]
                       else old(items)
      ensures a.typ == "alert" && a.severity in ["critical", "emergency"] ==>
        a.id in items && var it := items[a.id];
        && it.severity == a.severity && it.issuedAt == a.issuedAt && it.ttl == a.ttl
        && it.phase == 0 && !it.done && it.pending == {} == it.unreached && it.startedAt == now / 1_000_000_000
      ensures a.typ != "alert" || a.severity !in ["critical", "emergency"] ==> items == old(items)
    {
      if a.typ != "alert" {
        return;
      }
      if !Tracked(a.severity) {
        return;
      }
      items := items[a.id := Item(a.severity, 0, now / SECOND, {}, {}, false, a.issuedAt, a.ttl, now)];
    }

    method StopEscalation(id: string)
      modifies this
      ensures items == if id in old(items) then old(items)[id := old(items)[id].(done := true)] else old(items)
    {
      if id in items {
        items := items[id := items[id].(done := true)];
      }
    }

    method PendingDevices(presence: map<string, bool>, acks: Option<set<string>>) returns (out: set<string>)
      ensures out == Silent(presence, acks)
      ensures forall d :: d in out <==> d in presence && presence[d] && !(acks.Some? && d in acks.value)
    {
      var acked: set<string> := {};
      if acks.Some? {
        acked := acks.value;
      }
      out := {};
      var left := presence.Keys;
      while left != {}
        invariant left <= presence.Keys
        invariant out == set d | d in presence && d !in left && presence[d] && d !in acked
        decreases left
      {
        var d :| d in left;
        if presence[d] && d !in acked {
          out := out + {d};
        }
        left := left - {d};
      }
    }

    /** evalEscalations. `fired` are the notifications, by alert. */
    method EvalEscalations(now: int, presence: map<string, bool>, acks: map<string, Option<set<string>>>)
      returns (fired: map<string, nat>)
      requires items.Keys <= acks.Keys
      modifies this
      ensures items.Keys == old(items).Keys
      ensures forall id | id in items :: items[id] == Tick(old(items)[id], now, Silent(presence, acks[id])).0
      ensures fired.Keys <= items.Keys
      ensures forall id | id in items ::
                Tick(old(items)[id], now, Silent(presence, acks[id])).1 == if id in fired then Some(fired[id]) else None
      ensures forall id | id in items ::
                Ends(old(items)[id], now, Silent(presence, acks[id]), items[id],
                     if id in fired then Some(fired[id]) else None)
    {
      hide Tick, Silent, Ends;
      fired := map[];
      var left := items.Keys;
      while left != {}
        invariant Evaluated(old(items), items, fired, left, now, presence, acks)
        decreases left
      {
        var id :| id in left;
        EvaluatedOne(old(items), items, fired, left, now, presence, acks, id);
        var silent := PendingDevices(presence, acks[id]);
        var it, notice := Evaluate(items[id], now, silent);
        items := items[id := it];
        if notice.Some? {
          fired := fired[id := notice.value];
        }
        left := left - {id};
      }
      forall id | id in items
        ensures Ends(old(items)[id], now, Silent(presence, acks[id]), items[id],
                     if id in fired then Some(fired[id]) else None)
      {
        TickEnds(old(items)[id], now, Silent(presence, acks[id]));
      }
    }

    /** The body of the evaluation loop for one item. */
    method Evaluate(st: Item, now: int, silent: set<string>) returns (it: Item, notice: Option<nat>)
      ensures (it, notice) == Tick(st, now, silent)
      ensures Ends(st, now, silent, it, notice)
    {
      TickEnds(st, now, silent);
      hide Ends;
      it, notice := st, None;
      if it.done {
        return;
      }
      if now / SECOND > it.issuedAt + it.ttl {
        it := it.(done := true);
        return;
      }
      if |silent| == 0 {
        it := it.(done := true, pending := {});
        return;
      }
      var next: nat, i: nat := it.phase, it.phase;
      while i < 3
        invariant Advance(st.severity, now - st.startedAt * SECOND, i, next)
                  == Advance(st.severity, now - st.startedAt * SECOND, st.phase, st.phase)
      {
        if now - it.startedAt * SECOND >= Threshold(it.severity, i) {
          next := i + 1;
        }
        i := i + 1;
      }
      it := it.(pending := silent);
      if next > it.phase {
        it := it.(phase := next, lastPhase := now);
        if next >= 3 {
          it := it.(unreached := silent);
        }
      }
      if next > 0 && now == it.lastPhase {
        notice := Some(it.phase);
      }
    }
  }

  // ---- the ladder in closed form ----

  /** How many of the documented times have elapsed: 15, 45 and 120 seconds for an emergency, 30, 90 and
      180 for a critical alert. */
  function Reached(severity: string, elapsed: int): (n: nat)
    ensures n <= 3
  {
    var seconds := elapsed / 1_000_000_000;
    if severity == "emergency" then
      if seconds >= 120 then 3 else if seconds >= 45 then 2 else if seconds >= 15 then 1 else 0
    else
      if seconds >= 180 then 3 else if seconds >= 90 then 2 else if seconds >= 30 then 1 else 0
  }

  lemma ReachedThreshold(severity: string, elapsed: int, i: nat)
    requires Tracked(severity) && i < 3
    ensures elapsed >= Threshold(severity, i) <==> Reached(severity, elapsed) > i
  {
  }

  lemma AdvanceReaches(severity: string, elapsed: int, phase: nat)
    requires Tracked(severity) && phase <= 3
    ensures Advance(severity, elapsed, phase, phase)
            == if Reached(severity, elapsed) > phase then Reached(severity, elapsed) else phase
  {
    var e := elapsed;
    ReachedThreshold(severity, e, 0);
    ReachedThreshold(severity, e, 1);
    ReachedThreshold(severity, e, 2);
    hide Reached, Threshold;
    assert Advance(severity, e, 3, 0) == 0 && Advance(severity, e, 3, 1) == 1 && Advance(severity, e, 3, 2) == 2;
    assert Advance(severity, e, 2, 0) == if e >= Threshold(severity, 2) then 3 else 0;
    assert Advance(severity, e, 2, 1) == if e >= Threshold(severity, 2) then 3 else 1;
    assert Advance(severity, e, 2, 2) == if e >= Threshold(severity, 2) then 3 else 2;
    assert Advance(severity, e, 1, 0) == Advance(severity, e, 2, if e >= Threshold(severity, 1) then 2 else 0);
    assert Advance(severity, e, 1, 1) == Advance(severity, e, 2, if e >= Threshold(severity, 1) then 2 else 1);
  }

  /** One evaluation: the phase becomes the number of elapsed thresholds unless it was higher, and a
      notification goes out exactly when it rose. */
  lemma TickClosedForm(it: Item, now: int, silent: set<string>)
    requires Tracked(it.severity) && 0 <= it.phase <= 3
    requires !it.done && !Expired(it, now) && silent != {} && it.lastPhase < now
    ensures var (it', notice) := Tick(it, now, silent);
            var n := Reached(it.severity, now - it.startedAt * SECOND);
            && !it'.done && it'.pending == silent
            && it'.phase == (if n > it.phase then n else it.phase)
            && notice == (if n > it.phase then Some(n) else None)
            && it'.unreached == (if n > it.phase && n >= 3 then silent else it.unreached)
  {
    AdvanceReaches(it.severity, now - it.startedAt * SECOND, it.phase);
  }

  // ---- whole ladders ----

  datatype Round = Round(now: int, silent: set<string>)

  datatype Ladder = Ladder(item: Item, notices: seq<nat>)

  /** A tracked alert after some evaluations, and the notifications sent for it. */
  function Climb(start: Item, rounds: seq<Round>): Ladder
  {
    if rounds == [] then Ladder(start, [])
    else
      var l, r := Climb(start, rounds[..|rounds| - 1]), rounds[|rounds| - 1];
      var (it, notice) := Tick(l.item, r.now, r.silent);
      Ladder(it, if notice.Some? then l.notices + [notice.value] else l.notices)
  }

  ghost predicate Later(start: Item, rounds: seq<Round>) {
    && (forall i | 0 <= i < |rounds| :: start.lastPhase < rounds[i].now)
    && (forall i, j | 0 <= i < j < |rounds| :: rounds[i].now < rounds[j].now)
  }

  /** Phases strictly rise from notification to notification and end at the current one. */
  ghost predicate NoticesOk(l: Ladder) {
    && (forall i, j | 0 <= i < j < |l.notices| :: l.notices[i] < l.notices[j])
    && (forall i | 0 <= i < |l.notices| :: 1 <= l.notices[i] <= 3)
    && l.item.phase == (if l.notices == [] then 0 else l.notices[|l.notices| - 1])
    && 0 <= |l.notices| <= l.item.phase <= 3
  }

  /** What a ladder looks like after its evaluations so far, the last of them at `last`. */
  ghost predicate LadderOk(a: Alert, tracked: int, l: Ladder, last: int, evaluated: bool) {
    && NoticesOk(l)
    && l.item.severity == a.severity && l.item.startedAt == tracked / SECOND
    && l.item.issuedAt == a.issuedAt && l.item.ttl == a.ttl
    && tracked <= l.item.lastPhase <= last
    && l.item.phase <= Reached(a.severity, last - l.item.startedAt * SECOND)
    && (!l.item.done && evaluated ==> l.item.phase == Reached(a.severity, last - l.item.startedAt * SECOND))
  }

  lemma LadderStep(a: Alert, tracked: int, l: Ladder, last: int, evaluated: bool, r: Round)
    requires Tracked(a.severity) && LadderOk(a, tracked, l, last, evaluated)
    requires last <= r.now && l.item.lastPhase < r.now
    ensures var (it, notice) := Tick(l.item, r.now, r.silent);
            var notices := if notice.Some? then l.notices + [notice.value] else l.notices;
            LadderOk(a, tracked, Ladder(it, notices), r.now, true)
  {
    hide Reached;
    ReachedMonotone(a.severity, last - l.item.startedAt * SECOND, r.now - l.item.startedAt * SECOND);
    if !l.item.done && !Expired(l.item, r.now) && r.silent != {} {
      LiveStep(a, tracked, l, last, evaluated, r);
    } else {
      DoneStep(a, tracked, l, last, evaluated, r);
    }
  }

  lemma LiveStep(a: Alert, tracked: int, l: Ladder, last: int, evaluated: bool, r: Round)
    requires Tracked(a.severity) && LadderOk(a, tracked, l, last, evaluated)
    requires last <= r.now && l.item.lastPhase < r.now
    requires !l.item.done && !Expired(l.item, r.now) && r.silent != {}
    requires l.item.phase <= Reached(a.severity, r.now - l.item.startedAt * SECOND)
    ensures var (it, notice) := Tick(l.item, r.now, r.silent);
            var notices := if notice.Some? then l.notices + [notice.value] else l.notices;
            LadderOk(a, tracked, Ladder(it, notices), r.now, true)
  {
    hide Reached, Expired, Tracked, Tick;
    TickClosedForm(l.item, r.now, r.silent);
    TickKeeps(l.item, r.now, r.silent);
  }

  /** What no evaluation changes. */
  lemma TickKeeps(it: Item, now: int, silent: set<string>)
    ensures var it' := Tick(it, now, silent).0;
            && it'.severity == it.severity && it'.startedAt == it.startedAt && it'.issuedAt == it.issuedAt
            && it'.ttl == it.ttl
            && (it'.lastPhase == it.lastPhase || it'.lastPhase == now)
  {
    hide Advance;
  }

  lemma DoneStep(a: Alert, tracked: int, l: Ladder, last: int, evaluated: bool, r: Round)
    requires Tracked(a.severity) && LadderOk(a, tracked, l, last, evaluated)
    requires last <= r.now && l.item.lastPhase < r.now
    requires l.item.done || Expired(l.item, r.now) || r.silent == {}
    requires l.item.phase <= Reached(a.severity, r.now - l.item.startedAt * SECOND)
    ensures var (it, notice) := Tick(l.item, r.now, r.silent);
            var notices := if notice.Some? then l.notices + [notice.value] else l.notices;
            LadderOk(a, tracked, Ladder(it, notices), r.now, true)
  {
    hide Reached, Advance, Tracked;
  }

  /** However often and irregularly it is evaluated: a live alert stands at the number of thresholds
      elapsed at its last evaluation, and was announced once for each time its phase rose, so at most
      three times. */
  lemma {:induction false} LadderClosedForm(a: Alert, tracked: int, rounds: seq<Round>)
    requires Tracked(a.severity)
    requires Later(NewItem(a, tracked), rounds)
    ensures LadderOk(a, tracked, Climb(NewItem(a, tracked), rounds),
                     if rounds == [] then tracked else rounds[|rounds| - 1].now, rounds != [])
  {
    if rounds != [] {
      var n := |rounds| - 1;
      LadderClosedForm(a, tracked, rounds[..n]);
      hide Tick, Reached;
      var l := Climb(NewItem(a, tracked), rounds[..n]);
      assert n > 0 ==> rounds[n - 1].now < rounds[n].now;
      LadderStep(a, tracked, l, if n == 0 then tracked else rounds[n - 1].now, n > 0, rounds[n]);
    }
  }

  /** A ladder ends with the first evaluation at which its alert has expired or no online device is silent:
      it is done, no notification goes out, and it stands as high as before. */
  lemma LadderEnds(start: Item, rounds: seq<Round>, n: nat)
    requires n < |rounds|
    requires rounds[n].now / 1_000_000_000 > start.issuedAt + start.ttl || rounds[n].silent == {}
    ensures var l, before := Climb(start, rounds), Climb(start, rounds[..n]);
            l.item.done && l.notices == before.notices && l.item.phase == before.item.phase
  {
    var l := Climb(start, rounds[..n]);
    AlertKept(start, rounds[..n]);
    TickEnds(l.item, rounds[n].now, rounds[n].silent);
    hide Tick;
    assert rounds[..n + 1][..n] == rounds[..n];
    DoneForGood(start, rounds, n + 1);
  }

  /** Once done, nothing more is sent for an item and it never changes. */
  lemma {:induction false} DoneForGood(start: Item, rounds: seq<Round>, n: nat)
    requires n <= |rounds| && Climb(start, rounds[..n]).item.done
    ensures Climb(start, rounds) == Climb(start, rounds[..n])
    decreases |rounds|
  {
    if n == |rounds| {
      assert rounds[..n] == rounds;
    } else {
      var front := rounds[..|rounds| - 1];
      assert front[..n] == rounds[..n];
      DoneForGood(start, front, n);
    }
  }

  lemma {:induction false} AlertKept(start: Item, rounds: seq<Round>)
    ensures var it := Climb(start, rounds).item;
            && it.severity == start.severity && it.startedAt == start.startedAt
            && it.issuedAt == start.issuedAt && it.ttl == start.ttl
  {
    if rounds != [] {
      var n := |rounds| - 1;
      AlertKept(start, rounds[..n]);
      TickKeeps(Climb(start, rounds[..n]).item, rounds[n].now, rounds[n].silent);
      hide Tick;
    }
  }

  /** The round at which a ladder ends, if any. */
  ghost predicate Ended(start: Item, r: Round) {
    r.now / 1_000_000_000 > start.issuedAt + start.ttl || r.silent == {}
  }

  /** Nothing else ends it: an item is done if and only if it was stopped, or some evaluation found its
      alert expired or every online device acknowledged. */
  lemma {:induction false} DoneIff(start: Item, rounds: seq<Round>)
    ensures Climb(start, rounds).item.done <==> start.done || exists n | 0 <= n < |rounds| :: Ended(start, rounds[n])
  {
    if rounds != [] {
      var n := |rounds| - 1;
      DoneIff(start, rounds[..n]);
      AlertKept(start, rounds[..n]);
      TickEnds(Climb(start, rounds[..n]).item, rounds[n].now, rounds[n].silent);
      hide Tick;
      assert Climb(start, rounds).item.done <==> Climb(start, rounds[..n]).item.done || Ended(start, rounds[n]);
      assert forall i | 0 <= i < n :: rounds[..n][i] == rounds[i];
    }
  }

  /** A stopped item sends nothing, ever. */
  lemma StoppedIsSilent(start: Item, rounds: seq<Round>)
    requires start.done
    ensures Climb(start, rounds) == Ladder(start, [])
  {
    assert rounds[..0] == [];
    DoneForGood(start, rounds, 0);
  }

  /** Phases of one tracked alert never go down. */
  lemma {:induction false} PhaseNeverFalls(start: Item, rounds: seq<Round>, n: nat)
    requires n <= |rounds|
    ensures Climb(start, rounds[..n]).item.phase <= Climb(start, rounds).item.phase
    decreases |rounds|
  {
    if n == |rounds| {
      assert rounds[..n] == rounds;
    } else {
      var front := rounds[..|rounds| - 1];
      assert front[..n] == rounds[..n];
      PhaseNeverFalls(start, front, n);
    }
  }

  /** A phase can be reached before the alert expires if and only if its threshold is less than its
      time to live plus one second after the alert was issued. */
  lemma PhaseReachable(a: Alert, tracked: int, p: nat)
    requires Tracked(a.severity) && 1 <= p <= 3
    ensures (exists rounds ::
               Later(NewItem(a, tracked), rounds) && Climb(NewItem(a, tracked), rounds).item.phase >= p)
            <==> (tracked / SECOND) * SECOND + Threshold(a.severity, p - 1) < (a.issuedAt + a.ttl + 1) * SECOND
  {
    var start := NewItem(a, tracked);
    var due := start.startedAt * SECOND + Threshold(a.severity, p - 1);
    if due < (a.issuedAt + a.ttl + 1) * SECOND {
      var r := Round(due, {"a device"});
      assert tracked < due;
      assert Later(start, [r]);
      assert [r][..0] == [];
      TickClosedForm(start, due, r.silent);
      assert Climb(start, [r]).item.phase >= p;
    }
    forall rounds | Later(start, rounds) && Climb(start, rounds).item.phase >= p
      ensures due < (a.issuedAt + a.ttl + 1) * SECOND
    {
      RisenBeforeExpiry(a, tracked, rounds, p);
    }
  }

  lemma {:induction false} RisenBeforeExpiry(a: Alert, tracked: int, rounds: seq<Round>, p: nat)
    requires Tracked(a.severity) && 1 <= p <= 3
    requires Later(NewItem(a, tracked), rounds)
    requires Climb(NewItem(a, tracked), rounds).item.phase >= p
    ensures (tracked / SECOND) * SECOND + Threshold(a.severity, p - 1) < (a.issuedAt + a.ttl + 1) * SECOND
  {
    var n := |rounds| - 1;
    var start := NewItem(a, tracked);
    var l, r := Climb(start, rounds[..n]), rounds[n];
    LadderClosedForm(a, tracked, rounds[..n]);
    if l.item.phase >= p {
      RisenBeforeExpiry(a, tracked, rounds[..n], p);
    } else {
      TickClosedForm(l.item, r.now, r.silent);
    }
  }

  /** So a critical alert with the default time to live never gets its devices marked unreachable,
      while an emergency tracked in the second it was issued can. */
  lemma CriticalNeverUnreachable(a: Alert, tracked: int)
    requires a.ttl == DefaultTTL(a.severity) && tracked / SECOND >= a.issuedAt
    ensures a.severity == "critical" ==>
              forall rounds | Later(NewItem(a, tracked), rounds) :: Climb(NewItem(a, tracked), rounds).item.phase < 3
    ensures a.severity == "emergency" && tracked / SECOND == a.issuedAt ==>
              exists rounds | Later(NewItem(a, tracked), rounds) :: Climb(NewItem(a, tracked), rounds).item.phase == 3
  {
    if Tracked(a.severity) {
      PhaseReachable(a, tracked, 3);
      if a.severity == "emergency" && tracked / SECOND == a.issuedAt {
        var rounds :| Later(NewItem(a, tracked), rounds) && Climb(NewItem(a, tracked), rounds).item.phase >= 3;
        LadderClosedForm(a, tracked, rounds);
      }
    }
  }

  lemma ReachedMonotone(severity: string, e: int, e': int)
    requires e <= e'
    ensures Reached(severity, e) <= Reached(severity, e')
  {
  }
}
