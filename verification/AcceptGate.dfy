/** The client's accept gate (web/verify.js), its maps with time-based eviction, and the gate that
    never forgets. */
module AcceptGate {

  import opened Severity

  /** The fields of an envelope the gate reads. */
  datatype Envelope = Envelope(id: string, severity: string, issuedAt: int, ttl: int, nonce: string)

  datatype Seen = Seen(issuedAt: int, severity: string)

  datatype Reason = BadSig | Stale | Dup | Expired

  datatype Kind = New | Renewal | Escalation

  datatype Verdict = Dropped(reason: Reason) | Presented(kind: Kind)

  /** The maps `seen` and `seenAlerts`. */
  datatype Memory = Memory(seen: map<string, int>, alerts: map<string, Seen>)

  const BLANK := Memory(map[], map[])

  function NonceKey(nonce: string): string {
    "n:" + nonce
  }

  /** The envelope arrives within the skew and its time to live. */
  predicate InTime(a: Envelope, now: int, maxSkew: int) {
    now - a.issuedAt <= maxSkew && a.issuedAt - now <= maxSkew && now - a.issuedAt <= a.ttl
  }

  /** Nothing on record speaks against the envelope: neither its nonce nor a stamp as late under its id. */
  predicate Unseen(m: Memory, a: Envelope) {
    NonceKey(a.nonce) !in m.seen && (a.id in m.alerts ==> m.alerts[a.id].issuedAt < a.issuedAt)
  }

  function Judge(m: Memory, a: Envelope, signed: bool, now: int, maxSkew: int): Verdict {
    if !signed then Dropped(BadSig)
    else if now - a.issuedAt > maxSkew || a.issuedAt - now > maxSkew then Dropped(Stale)
    else if NonceKey(a.nonce) in m.seen then Dropped(Dup)
    else if now - a.issuedAt > a.ttl then Dropped(Expired)
    else if a.id !in m.alerts then Presented(New)
    else if a.issuedAt <= m.alerts[a.id].issuedAt then Dropped(Dup)
    else if Rank(a.severity) > Rank(m.alerts[a.id].severity) then Presented(Escalation)
    else Presented(Renewal)
  }

  function Record(m: Memory, a: Envelope): Memory {
    Memory(m.seen[NonceKey(a.nonce) := a.issuedAt], m.alerts[a.id := Seen(a.issuedAt, a.severity)])
  }

  function Sweep(m: Memory, now: int, maxSkew: int): Memory {
    Memory(map k | k in m.seen && now - m.seen[k] <= maxSkew :: m.seen[k],
           map k | k in m.alerts && now - m.alerts[k].issuedAt <= maxSkew :: m.alerts[k])
  }

  /** The gate as it is: an accepted envelope is recorded and old records are swept. */
  function Bounded(m: Memory, a: Envelope, signed: bool, now: int, maxSkew: int): Memory {
    if Judge(m, a, signed, now, maxSkew).Presented? then Sweep(Record(m, a), now, maxSkew) else m
  }

  /** The gate that keeps a record of everything it ever accepted. */
  function Unbounded(m: Memory, a: Envelope, signed: bool, now: int, maxSkew: int): Memory {
    if Judge(m, a, signed, now, maxSkew).Presented? then Record(m, a) else m
  }

  class Gate {
    var seen: map<string, int>
    var seenAlerts: map<string, Seen>

    ghost function State(): Memory
      reads this
    {
      Memory(seen, seenAlerts)
    }

    constructor ()
      ensures State() == BLANK
    {
      seen, seenAlerts := map[], map[];
    }

    /** acceptAlert after the signature check, which is the argument `signed`. */
    method AcceptAlert(a: Envelope, signed: bool, now: int, maxSkew: int := 120) returns (v: Verdict)
      modifies this
      ensures v == Judge(old(State()), a, signed, now, maxSkew)
      ensures v.Presented? <==> signed && InTime(a, now, maxSkew) && Unseen(old(State()), a)
      ensures v == Dropped(BadSig) <==> !signed
      ensures v == Dropped(Stale) <==> signed && !(-maxSkew <= now - a.issuedAt <= maxSkew)
      ensures v == Dropped(Expired) <==>
                signed && -maxSkew <= now - a.issuedAt <= maxSkew && a.ttl < now - a.issuedAt
                && NonceKey(a.nonce) !in old(seen)
      ensures v == Presented(New) ==> a.id !in old(seenAlerts)
      ensures v.Presented? && v.kind != New ==>
                a.id in old(seenAlerts)
                && (v.kind == Escalation <==> Rank(old(seenAlerts)[a.id].severity) < Rank(a.severity))
      ensures v.Dropped? ==> State() == old(State())
      ensures State() == Bounded(old(State()), a, signed, now, maxSkew)
    {
      if !signed {
        return Dropped(BadSig);
      }
      var age := now - a.issuedAt;
      if (if age < 0 then -age else age) > maxSkew {
        return Dropped(Stale);
      }
      if NonceKey(a.nonce) in seen {
        return Dropped(Dup);
      }
      if now - a.issuedAt > a.ttl {
        return Dropped(Expired);
      }
      v := Presented(New);
      if a.id in seenAlerts {
        var prev := seenAlerts[a.id];
        if a.issuedAt <= prev.issuedAt {
          return Dropped(Dup);
        }
        v := Presented(if Rank(a.severity) > Rank(prev.severity) then Escalation else Renewal);
      }
      seen := seen[NonceKey(a.nonce) := a.issuedAt];
      seenAlerts := seenAlerts[a.id := Seen(a.issuedAt, a.severity)];
      SweepSeen(now, maxSkew);
      SweepAlerts(now, maxSkew);
    }

    /** The sweep over `seen`. */
    method SweepSeen(now: int, maxSkew: int)
      modifies this`seen
      ensures seen == map k | k in old(seen) && now - old(seen)[k] <= maxSkew :: old(seen)[k]
    {
      var keys := seen.Keys;
      while keys != {}
        invariant keys <= old(seen).Keys
        invariant seen == map k | k in old(seen) && (k in keys || now - old(seen)[k] <= maxSkew) :: old(seen)[k]
        decreases keys
      {
        var k :| k in keys;
        if now - seen[k] > maxSkew {
          seen := seen - {k};
        }
        keys := keys - {k};
      }
    }

    /** The sweep over `seenAlerts`. */
    method SweepAlerts(now: int, maxSkew: int)
      modifies this`seenAlerts
      ensures seenAlerts == map k | k in old(seenAlerts) && now - old(seenAlerts)[k].issuedAt <= maxSkew ::
        old(seenAlerts)[k]
    {
      var ids := seenAlerts.Keys;
      while ids != {}
        invariant ids <= old(seenAlerts).Keys
        invariant seenAlerts == map k | k in old(seenAlerts) &&
                                        (k in ids || now - old(seenAlerts)[k].issuedAt <= maxSkew) :: old(seenAlerts)[k]
        decreases ids
      {
        var k :| k in ids;
        if now - seenAlerts[k].issuedAt > maxSkew {
          seenAlerts := seenAlerts - {k};
        }
        ids := ids - {k};
      }
    }
  }
}
