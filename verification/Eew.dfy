/** Two earthquake relays behind one deduper (server/internal/eew), and what the client's gate makes
    of the alerts that come out. */
module Eew {
  import opened Severity
  import opened AcceptGate
  import opened GateRefinement

  datatype Emission = Suppressed | First | Upgrade

  function EmissionOf(seen: map<string, nat>, event: string, severity: string): Emission {
    if event !in seen then First
    else if Rank(severity) > seen[event] then Upgrade
    else Suppressed
  }

  function SeenWith(seen: map<string, nat>, event: string, severity: string): map<string, nat> {
    if EmissionOf(seen, event, severity).Suppressed? then seen else seen[event := Rank(severity)]
  }

  class Deduper {
    var seen: map<string, nat>

    constructor ()
      ensures seen == map[]
    {
      seen := map[];
    }

    method Emit(event: string, severity: string) returns (emit: bool, upgrade: bool)
      modifies this
      ensures emit == !EmissionOf(old(seen), event, severity).Suppressed?
      ensures upgrade == EmissionOf(old(seen), event, severity).Upgrade?
      ensures seen == SeenWith(old(seen), event, severity)
    {
      var r := Rank(severity);
      if event !in seen {
        seen := seen[event := r];
        return true, false;
      }
      if r > seen[event] {
        seen := seen[event := r];
        return true, true;
      }
      return false, false;
    }

    method FirstSeen(event: string) returns (first: bool)
      modifies this
      ensures first == (event !in old(seen))
      ensures seen == SeenWith(old(seen), event, "")
    {
      var emit, upgrade := Emit(event, "");
      first := emit;
    }

    method Forget(event: string)
      modifies this
      ensures seen == old(seen) - {event}
    {
      seen := seen - {event};
    }
  }

  // ---- the two relays, in the order in which they reach the shared deduper ----

  datatype Report = Quake(event: string, severity: string) | Cancel(event: string)

  /** runFeed: a cancel forgets the event, anything else asks to be emitted. */
  function SeenAfter(reports: seq<Report>): map<string, nat> {
    if reports == [] then map[]
    else
      var seen := SeenAfter(reports[..|reports| - 1]);
      match reports[|reports| - 1]
      case Quake(e, s) => SeenWith(seen, e, s)
      case Cancel(e) => seen - {e}
  }

  function EmissionAt(reports: seq<Report>, k: nat): Emission
    requires k < |reports| && reports[k].Quake?
  {
    EmissionOf(SeenAfter(reports[..k]), reports[k].event, reports[k].severity)
  }

  predicate Emitted(reports: seq<Report>, k: nat)
    requires k < |reports|
  {
    reports[k].Quake? && !EmissionAt(reports, k).Suppressed?
  }

  /** Report `j` is about `event`, which is not cancelled between it and position `n`. */
  ghost predicate Live(reports: seq<Report>, event: string, j: int, n: int)
    requires n <= |reports|
  {
    && 0 <= j < n && reports[j].Quake? && reports[j].event == event
    && forall i | j < i < n :: reports[i] != Cancel(event)
  }

  ghost predicate IsMaximum(reports: seq<Report>, event: string, n: int, m: nat)
    requires n <= |reports|
  {
    && (forall j | Live(reports, event, j, n) :: Rank(reports[j].severity) <= m)
    && (exists j | Live(reports, event, j, n) :: Rank(reports[j].severity) == m && Emitted(reports, j))
  }

  /** The deduper's entry for an event is the highest rank reported since its last cancel. */
  lemma {:induction false} SeenIsMaximum(reports: seq<Report>, event: string, n: nat)
    requires n <= |reports|
    ensures event in SeenAfter(reports[..n]) <==> exists j :: Live(reports, event, j, n)
    ensures event in SeenAfter(reports[..n]) ==> IsMaximum(reports, event, n, SeenAfter(reports[..n])[event])
  {
    if n > 0 {
      SeenIsMaximum(reports, event, n - 1);
      assert reports[..n][..n - 1] == reports[..n - 1];
      var r := reports[n - 1];
      hide Rank;
      forall j ensures Live(reports, event, j, n) <==>
                         (Live(reports, event, j, n - 1) && r != Cancel(event)) ||
                         (j == n - 1 && r.Quake? && r.event == event) {}
      if r.Quake? && r.event == event {
        assert Live(reports, event, n - 1, n);
        if !Emitted(reports, n - 1) {
          var j :| Live(reports, event, j, n - 1) && Rank(reports[j].severity) == SeenAfter(reports[..n - 1])[event]
              && Emitted(reports, j);
          assert Live(reports, event, j, n);
        }
      } else if r != Cancel(event) && event in SeenAfter(reports[..n - 1]) {
        var j :| Live(reports, event, j, n - 1) && Rank(reports[j].severity) == SeenAfter(reports[..n - 1])[event]
            && Emitted(reports, j);
        assert Live(reports, event, j, n);
      }
    }
  }

  /** However the relays interleave, what comes out are exactly the strict running maxima: a report
      is emitted when it outranks every report of its event since the last cancel, as an upgrade
      when there was one. */
  lemma EmitsRunningMaxima(reports: seq<Report>, k: nat)
    requires k < |reports| && reports[k].Quake?
    ensures var e := reports[k].event;
            EmissionAt(reports, k) ==
              if !exists j :: Live(reports, e, j, k) then First
              else if forall j | Live(reports, e, j, k) :: Rank(reports[j].severity) < Rank(reports[k].severity) then
                Upgrade
              else Suppressed
  {
    hide Rank;
    SeenIsMaximum(reports, reports[k].event, k);
  }

  /** ... and the last one emitted carries the maximum of both streams. */
  lemma LastEmittedIsMaximum(reports: seq<Report>, event: string, j: int)
    requires Live(reports, event, j, |reports|)
    ensures exists k | Live(reports, event, k, |reports|) :: Emitted(reports, k)
              && forall i | Live(reports, event, i, |reports|) :: Rank(reports[i].severity) <= Rank(reports[k].severity)
  {
    hide Rank;
    SeenIsMaximum(reports, event, |reports|);
  }

  // ---- end to end ----

  function AlertId(event: string): string {
    "eew-" + event
  }

  /** Since position `lo` the event has not been cancelled. */
  ghost predicate Epoch(reports: seq<Report>, event: string, lo: nat) {
    lo <= |reports| && forall i | lo <= i < |reports| :: reports[i] != Cancel(event)
  }

  /** Report `k` of the epoch was emitted for the event and stamped `stamp(k)`. */
  ghost predicate Issued(reports: seq<Report>, event: string, lo: nat, k: int) {
    lo <= k < |reports| && reports[k].event == event && Emitted(reports, k)
  }

  /** The emitted reports of the epoch are stamped in the order emitted. */
  ghost predicate StampsOrdered(reports: seq<Report>, event: string, lo: nat, stamp: int -> int) {
    forall j, k | Issued(reports, event, lo, j) && Issued(reports, event, lo, k) && j < k :: stamp(j) <= stamp(k)
  }

  /** ... and no two of them are stamped in the same second. */
  ghost predicate StampsIncrease(reports: seq<Report>, event: string, lo: nat, stamp: int -> int) {
    forall j, k | Issued(reports, event, lo, j) && Issued(reports, event, lo, k) && j < k :: stamp(j) < stamp(k)
  }

  ghost predicate CameFrom(reports: seq<Report>, event: string, lo: nat, stamp: int -> int, issuedAt: int,
                           severity: string) {
    exists k :: Issued(reports, event, lo, k) && issuedAt == stamp(k) && severity == reports[k].severity
  }

  /** Every genuine envelope under the event's id was issued in the epoch. Which of them arrive, how
      often and in what order is left open. */
  ghost predicate Delivered(reports: seq<Report>, event: string, lo: nat, stamp: int -> int, calls: seq<Call>) {
    forall i | 0 <= i < |calls| && calls[i].signed && calls[i].a.id == AlertId(event) ::
      CameFrom(reports, event, lo, stamp, calls[i].a.issuedAt, calls[i].a.severity)
  }

  /** No envelope under the event's id is presented as a mere renewal. */
  ghost predicate NeverQuiet(event: string, verdicts: seq<Verdict>, calls: seq<Call>)
    requires |verdicts| == |calls|
  {
    forall i | 0 <= i < |calls| && calls[i].a.id == AlertId(event) :: verdicts[i] != Presented(Renewal)
  }

  /** Of two emitted reports of an epoch the later one outranks the earlier. */
  lemma LaterOutranks(reports: seq<Report>, event: string, lo: nat, j: int, k: int)
    requires Epoch(reports, event, lo)
    requires Issued(reports, event, lo, j) && Issued(reports, event, lo, k) && j < k
    ensures Rank(reports[j].severity) < Rank(reports[k].severity)
  {
    hide Rank;
    assert Live(reports, event, j, k);
    EmitsRunningMaxima(reports, k);
  }

  lemma LaterStampHigherRank(reports: seq<Report>, event: string, lo: nat, stamp: int -> int, j: int, k: int)
    requires Epoch(reports, event, lo) && StampsOrdered(reports, event, lo, stamp)
    requires Issued(reports, event, lo, j) && Issued(reports, event, lo, k) && stamp(j) < stamp(k)
    ensures Rank(reports[j].severity) < Rank(reports[k].severity)
  {
    assert j < k;
    LaterOutranks(reports, event, lo, j, k);
  }

  /** A gate that remembers an envelope of the epoch takes no other one for a renewal. */
  lemma NextIsNotQuiet(reports: seq<Report>, event: string, lo: nat, stamp: int -> int, m: Memory, c: Call,
                       maxSkew: int)
    requires Epoch(reports, event, lo) && StampsOrdered(reports, event, lo, stamp)
    requires c.a.id in m.alerts ==>
               CameFrom(reports, event, lo, stamp, m.alerts[c.a.id].issuedAt, m.alerts[c.a.id].severity)
    requires c.signed ==> CameFrom(reports, event, lo, stamp, c.a.issuedAt, c.a.severity)
    ensures Judge(m, c.a, c.signed, c.now, maxSkew) != Presented(Renewal)
  {
    hide Rank, NonceKey, EmissionAt, Epoch;
    if c.signed && c.a.id in m.alerts && c.a.issuedAt > m.alerts[c.a.id].issuedAt {
      var j :| Issued(reports, event, lo, j) && m.alerts[c.a.id].issuedAt == stamp(j)
          && m.alerts[c.a.id].severity == reports[j].severity;
      var k :| Issued(reports, event, lo, k) && c.a.issuedAt == stamp(k) && c.a.severity == reports[k].severity;
      LaterStampHigherRank(reports, event, lo, stamp, j, k);
    }
  }

  /** An intensity upgrade is never quiet: with stamps in emit order, whatever the network loses,
      repeats or reorders, and whatever the gate has forgotten in between, no envelope of the event it
      accepts is presented as a mere renewal. */
  lemma {:induction false} UpgradesAreNeverQuiet(reports: seq<Report>, event: string, lo: nat, stamp: int -> int,
                                                 start: Memory, calls: seq<Call>, maxSkew: int)
    requires Epoch(reports, event, lo) && StampsOrdered(reports, event, lo, stamp)
    requires AlertId(event) !in start.alerts && Delivered(reports, event, lo, stamp, calls)
    ensures var o := RunBounded(start, calls, maxSkew);
            && NeverQuiet(event, o.verdicts, calls)
            && (AlertId(event) in o.memory.alerts ==>
                  var seen := o.memory.alerts[AlertId(event)];
                  CameFrom(reports, event, lo, stamp, seen.issuedAt, seen.severity))
  {
    if calls != [] {
      var front, c := calls[..|calls| - 1], calls[|calls| - 1];
      UpgradesAreNeverQuiet(reports, event, lo, stamp, start, front, maxSkew);
      hide Rank, NonceKey, CameFrom, Epoch, StampsOrdered, AlertId;
      if c.a.id == AlertId(event) {
        NextIsNotQuiet(reports, event, lo, stamp, RunBounded(start, front, maxSkew).memory, c, maxSkew);
      }
    }
  }

  /** The envelope a report is published in. */
  function EnvelopeOf(event: string, r: Report, issuedAt: int, nonce: string): Envelope
    requires r.Quake?
  {
    Envelope(AlertId(event), r.severity, issuedAt, 120, nonce)
  }

  /** If two emitted reports are stamped out of order, there is a delivery in which the gate takes the
      one emitted first for a quiet renewal. */
  lemma OutOfOrderQuiets(reports: seq<Report>, event: string, lo: nat, stamp: int -> int, j: int, k: int, maxSkew: int)
    returns (calls: seq<Call>)
    requires Epoch(reports, event, lo) && maxSkew >= 0
    requires Issued(reports, event, lo, j) && Issued(reports, event, lo, k) && j < k && stamp(k) < stamp(j)
    ensures Delivered(reports, event, lo, stamp, calls)
    ensures !NeverQuiet(event, RunBounded(BLANK, calls, maxSkew).verdicts, calls)
  {
    LaterOutranks(reports, event, lo, j, k);
    var first := Call(EnvelopeOf(event, reports[k], stamp(k), "a"), true, stamp(k));
    var second := Call(EnvelopeOf(event, reports[j], stamp(j), "b"), true, stamp(j));
    calls := [first, second];
    hide Rank, Emitted, AlertId;
    SecondVerdict(first, second, maxSkew);
    if NonceKey("a") == NonceKey("b") {
      NonceKeyInjective("a", "b");
    }
    hide NonceKey;
    assert calls[1].a.id == AlertId(event);
    assert calls[0] == first;
    assert CameFrom(reports, event, lo, stamp, stamp(k), reports[k].severity);
    assert CameFrom(reports, event, lo, stamp, stamp(j), reports[j].severity);
    hide CameFrom, RunBounded;
  }

  lemma SecondVerdict(first: Call, second: Call, maxSkew: int)
    ensures RunBounded(BLANK, [first, second], maxSkew).verdicts[1]
            == Judge(Bounded(BLANK, first.a, first.signed, first.now, maxSkew),
                     second.a, second.signed, second.now, maxSkew)
  {
    hide Judge, Bounded;
    var calls := [first, second];
    assert calls[..1] == [first] && [first][..0] == [];
    assert RunBounded(BLANK, [first], maxSkew).memory == Bounded(BLANK, first.a, first.signed, first.now, maxSkew);
  }

  /** So upgrades are never quiet, over every delivery, if and only if the reports of an epoch are
      stamped in the order emitted. */
  lemma NeverQuietIff(reports: seq<Report>, event: string, lo: nat, stamp: int -> int, maxSkew: int)
    requires Epoch(reports, event, lo) && maxSkew >= 0
    ensures (forall calls | Delivered(reports, event, lo, stamp, calls) ::
               NeverQuiet(event, RunBounded(BLANK, calls, maxSkew).verdicts, calls))
            <==> StampsOrdered(reports, event, lo, stamp)
  {
    hide Epoch, Issued, Delivered, NeverQuiet, RunBounded;
    if StampsOrdered(reports, event, lo, stamp) {
      forall calls | Delivered(reports, event, lo, stamp, calls)
        ensures NeverQuiet(event, RunBounded(BLANK, calls, maxSkew).verdicts, calls)
      {
        UpgradesAreNeverQuiet(reports, event, lo, stamp, BLANK, calls, maxSkew);
      }
    } else {
      var j, k :| Issued(reports, event, lo, j) && Issued(reports, event, lo, k) && j < k && stamp(k) < stamp(j);
      var calls := OutOfOrderQuiets(reports, event, lo, stamp, j, k, maxSkew);
    }
  }

  /** The last of `calls` brings report `k` for the first time, signed and in time. */
  ghost predicate Arrives(reports: seq<Report>, event: string, stamp: int -> int, calls: seq<Call>, k: nat,
                          maxSkew: int)
    requires k < |reports| && reports[k].Quake?
  {
    calls != [] &&
    var n := |calls| - 1;
    var c := calls[n];
    && c.signed && c.a.id == AlertId(event) && c.a.issuedAt == stamp(k) && c.a.severity == reports[k].severity
    && InTime(c.a, c.now, maxSkew)
    && forall i | 0 <= i < n && calls[i].signed :: calls[i].a.nonce != c.a.nonce
  }

  /** The first `n` calls presented nothing under the event's id stamped `at` or later. */
  ghost predicate NoneSince(event: string, verdicts: seq<Verdict>, calls: seq<Call>, n: nat, at: int)
    requires n <= |verdicts| == |calls|
  {
    forall i | 0 <= i < n && verdicts[i].Presented? && calls[i].a.id == AlertId(event) :: calls[i].a.issuedAt < at
  }

  /** What the gate that never forgets says of an arrival. */
  lemma ArrivalUnbounded(calls: seq<Call>, c: Call, event: string, maxSkew: int)
    requires c.signed && c.a.id == AlertId(event) && InTime(c.a, c.now, maxSkew)
    requires forall i | 0 <= i < |calls| && calls[i].signed :: calls[i].a.nonce != c.a.nonce
    requires NoncesFrom(RunUnbounded(BLANK, calls, maxSkew).memory, calls)
    ensures var u := RunUnbounded(BLANK, calls, maxSkew);
            var v := Judge(u.memory, c.a, true, c.now, maxSkew);
            if NoneSince(event, u.verdicts, calls, |calls|, c.a.issuedAt) then v.Presented? else v == Dropped(Dup)
  {
    var u := RunUnbounded(BLANK, calls, maxSkew);
    UnboundedNoReplay(calls, maxSkew);
    LabelsMeanHistory(calls, c, maxSkew);
    hide RunUnbounded, Rank, AlertId;
    if NonceKey(c.a.nonce) in u.memory.seen {
      var i :| 0 <= i < |calls| && calls[i].signed && NonceKey(calls[i].a.nonce) == NonceKey(c.a.nonce);
      NonceKeyInjective(calls[i].a.nonce, c.a.nonce);
    }
  }

  /** An envelope that arrives in time and for the first time is presented, as new or as an
      escalation, if and only if none with the same or a later stamp was presented before it. */
  lemma UpgradeIsPresented(reports: seq<Report>, event: string, lo: nat, stamp: int -> int, calls: seq<Call>, k: nat,
                           maxSkew: int)
    requires Epoch(reports, event, lo) && StampsOrdered(reports, event, lo, stamp)
    requires Delivered(reports, event, lo, stamp, calls) && ClockMonotone(calls) && FreshNonces(calls)
    requires k < |reports| && reports[k].Quake? && Arrives(reports, event, stamp, calls, k, maxSkew)
    ensures var verdicts := RunBounded(BLANK, calls, maxSkew).verdicts;
            var n := |calls| - 1;
            if NoneSince(event, verdicts, calls, n, stamp(k)) then
              verdicts[n] in {Presented(New), Presented(Escalation)}
            else verdicts[n] == Dropped(Dup)
  {
    var n := |calls| - 1;
    var front, c := calls[..n], calls[n];
    var b, u := RunBounded(BLANK, calls, maxSkew).verdicts, RunUnbounded(BLANK, calls, maxSkew).verdicts;
    FrontOfRun(calls, maxSkew);
    UpgradesAreNeverQuiet(reports, event, lo, stamp, BLANK, calls, maxSkew);
    hide RunUnbounded, RunBounded, Rank, Forgets, FreshNonces, ClockMonotone, Delivered, Epoch, StampsOrdered,
      NoncesFrom, AlertId;
    GateRefines(front, maxSkew);
    GateRefines(calls, maxSkew);
    hide Agrees, InTime;
    ArrivalUnbounded(front, c, event, maxSkew);
    LastAgrees(event, b, u, calls, stamp(k));
    hide Judge;
  }

  lemma FrontOfRun(calls: seq<Call>, maxSkew: int)
    requires calls != [] && ClockMonotone(calls) && FreshNonces(calls)
    ensures var n := |calls| - 1;
            var u, front := RunUnbounded(BLANK, calls, maxSkew).verdicts, RunUnbounded(BLANK, calls[..n], maxSkew);
            && ClockMonotone(calls[..n]) && FreshNonces(calls[..n])
            && u[..n] == front.verdicts
            && u[n] == Judge(front.memory, calls[n].a, calls[n].signed, calls[n].now, maxSkew)
  {
    hide Judge, Unbounded;
  }

  /** Where two gates agree they accept the same, and neither calls the last one quiet. */
  lemma LastAgrees(event: string, b: seq<Verdict>, u: seq<Verdict>, calls: seq<Call>, at: int)
    requires |b| == |u| == |calls| > 0 && forall i | 0 <= i < |calls| :: Agrees(b[i], u[i])
    ensures var n := |calls| - 1;
            && (NoneSince(event, b, calls, n, at) <==> NoneSince(event, u[..n], calls[..n], n, at))
            && (u[n] == Dropped(Dup) ==> b[n] == Dropped(Dup))
            && (u[n].Presented? && b[n] != Presented(Renewal) ==> b[n] in {Presented(New), Presented(Escalation)})
  {
    hide AlertId;
    var n := |calls| - 1;
    assert Agrees(b[n], u[n]);
    assert b[n].Presented? ==> b[n].kind.New? || b[n].kind.Escalation? || b[n].kind.Renewal?;
    forall i | 0 <= i < n ensures b[i].Presented? <==> u[..n][i].Presented? {
      assert Agrees(b[i], u[i]);
    }
    assert forall i | 0 <= i < n :: calls[..n][i] == calls[i];
  }

  /** What stamps of different seconds buy: an upgrade that arrives in time is presented unless a
      later revision was presented before it. */
  lemma StrictStampsLoseNoUpgrade(reports: seq<Report>, event: string, lo: nat, stamp: int -> int, calls: seq<Call>,
                                  k: nat, maxSkew: int)
    requires Epoch(reports, event, lo) && StampsIncrease(reports, event, lo, stamp)
    requires Delivered(reports, event, lo, stamp, calls) && ClockMonotone(calls) && FreshNonces(calls)
    requires Issued(reports, event, lo, k) && Arrives(reports, event, stamp, calls, k, maxSkew)
    requires var verdicts := RunBounded(BLANK, calls, maxSkew).verdicts;
             forall i, j | 0 <= i < |calls| - 1 && verdicts[i].Presented? && calls[i].a.id == AlertId(event)
                           && Issued(reports, event, lo, j) && calls[i].a.issuedAt == stamp(j) :: j < k
    ensures RunBounded(BLANK, calls, maxSkew).verdicts[|calls| - 1] in {Presented(New), Presented(Escalation)}
  {
    var n, verdicts := |calls| - 1, RunBounded(BLANK, calls, maxSkew).verdicts;
    hide RunBounded, FreshNonces, Epoch, AlertId;
    forall i | 0 <= i < n && verdicts[i].Presented? && calls[i].a.id == AlertId(event)
      ensures calls[i].a.issuedAt < stamp(k)
    {
      PresentedWasSigned(calls, i, maxSkew);
      var j :| Issued(reports, event, lo, j) && calls[i].a.issuedAt == stamp(j);
      assert j < k;
    }
    UpgradeIsPresented(reports, event, lo, stamp, calls, k, maxSkew);
  }

  lemma {:induction false} PresentedWasSigned(calls: seq<Call>, i: nat, maxSkew: int)
    requires i < |calls| && RunBounded(BLANK, calls, maxSkew).verdicts[i].Presented?
    ensures calls[i].signed
  {
    var front := calls[..|calls| - 1];
    if i < |front| {
      assert RunBounded(BLANK, calls, maxSkew).verdicts[i] == RunBounded(BLANK, front, maxSkew).verdicts[i];
      PresentedWasSigned(front, i, maxSkew);
    }
  }

  // ---- where the promise stops ----

  /** An upgrade stamped no later than what it revises is always dropped, so of two revisions in one
      second only one gets through; in time, with a fresh nonce and a later stamp it is an escalation. */
  lemma SameSecondUpgradeIsDropped(m: Memory, a: Envelope, b: Envelope, now: int, later: int, maxSkew: int)
    requires Judge(m, a, true, now, maxSkew).Presented?
    requires b.id == a.id && Rank(b.severity) > Rank(a.severity)
    ensures var v := Judge(Bounded(m, a, true, now, maxSkew), b, true, later, maxSkew);
            && (b.issuedAt <= a.issuedAt ==> v.Dropped?)
            && (InTime(b, later, maxSkew) && NonceKey(b.nonce) !in m.seen ==>
                  v == if b.nonce == a.nonce || b.issuedAt <= a.issuedAt then Dropped(Dup) else Presented(Escalation))
  {
    if NonceKey(b.nonce) == NonceKey(a.nonce) {
      NonceKeyInjective(b.nonce, a.nonce);
    }
    hide Rank, NonceKey;
  }

  /** Report `k` is the first of its event since the cancel at `c`. */
  ghost predicate FirstSince(reports: seq<Report>, event: string, c: nat, k: nat) {
    && c < k < |reports| && reports[c] == Cancel(event) && reports[k].Quake? && reports[k].event == event
    && forall i | c < i < k :: reports[i].Quake? ==> reports[i].event != event
  }

  /** Across a cancel: the deduper lets a re-issued warning through whatever its rank, as the recall
      demands, but the gate still remembers the recalled alert and presents the new one loudly only
      if it outranks that. */
  lemma ReissueAfterCancel(reports: seq<Report>, event: string, cancel: nat, k: nat,
                           m: Memory, a: Envelope, b: Envelope, now: int, later: int, maxSkew: int)
    requires FirstSince(reports, event, cancel, k) && b.severity == reports[k].severity
    requires a.id == AlertId(event) == b.id && a.nonce != b.nonce && a.issuedAt < b.issuedAt
    requires Judge(m, a, true, now, maxSkew).Presented? && Judge(m, b, true, later, maxSkew).Presented?
    ensures EmissionAt(reports, k) == First
    ensures Judge(Bounded(m, a, true, now, maxSkew), b, true, later, maxSkew)
            == Presented(if Rank(b.severity) > Rank(a.severity) then Escalation else Renewal)
  {
    forall j ensures !Live(reports, event, j, k) {}
    EmitsRunningMaxima(reports, k);
    if NonceKey(a.nonce) == NonceKey(b.nonce) {
      NonceKeyInjective(a.nonce, b.nonce);
    }
    hide Rank, NonceKey, EmissionAt;
  }
}
