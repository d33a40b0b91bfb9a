/** The bytes that are signed (server/internal/alert/alert.go and heartbeat.go, web/verify.js). */
module AlertCanonical {
  import opened Text
  import opened Severity

  datatype Alert = Alert(
    schemaVersion: int, id: string, typ: string, category: string, severity: string, title: string, body: string,
    action: string, source: string, issuedAt: int, ttl: int, nonce: string, cancels: string)

  datatype Heartbeat = Heartbeat(seqNo: int, issuedAt: int, interval: int, activeCount: int, health: string)

  const NEWLINE := '\n'

  /** Unicode normalisation: never turns text without a newline into text with one. */
  ghost predicate KeepsNewlinesOut(nfc: string -> string) {
    forall s :: NEWLINE !in s ==> NEWLINE !in nfc(s)
  }

  /** The alert with its texts normalised, which is all a signature can vouch for. */
  function Normal(nfc: string -> string, a: Alert): Alert {
    Alert(a.schemaVersion, nfc(a.id), nfc(a.typ), nfc(a.category), nfc(a.severity), nfc(a.title), nfc(a.body),
          nfc(a.action), nfc(a.source), a.issuedAt, a.ttl, nfc(a.nonce), nfc(a.cancels))
  }

  function Parts(a: Alert): seq<string> {
    [Itoa(a.schemaVersion), a.id, a.typ, a.category, a.severity, a.title, a.body, a.action, a.source,
     Itoa(a.issuedAt), Itoa(a.ttl), a.nonce, a.cancels]
  }

  /** Canonical, and canonicalBytes on the client. */
  function Canonical(nfc: string -> string, a: Alert): string {
    Join(Parts(Normal(nfc, a)), NEWLINE)
  }

  function HeartbeatParts(h: Heartbeat): seq<string> {
    ["hb2", Itoa(h.seqNo), Itoa(h.issuedAt), Itoa(h.interval), Itoa(h.activeCount), h.health]
  }

  /** CanonicalHeartbeat, and canonicalHeartbeatBytes on the client. */
  function CanonicalHeartbeat(h: Heartbeat): string {
    Join(HeartbeatParts(h), NEWLINE)
  }

  // ---- reading them back ----

  function DecodeAlert(bytes: string): Option<Alert> {
    var p := SplitN(bytes, NEWLINE, 13);
    if |p| != 13 then None
    else Some(Alert(ParseInt(p[0]), p[1], p[2], p[3], p[4], p[5], p[6], p[7], p[8],
                    ParseInt(p[9]), ParseInt(p[10]), p[11], p[12]))
  }

  function DecodeHeartbeat(bytes: string): Option<Heartbeat> {
    var p := SplitN(bytes, NEWLINE, 6);
    if |p| != 6 || p[0] != "hb2" then None
    else Some(Heartbeat(ParseInt(p[1]), ParseInt(p[2]), ParseInt(p[3]), ParseInt(p[4]), p[5]))
  }

  /** The text fields before the last one are free of newlines. */
  predicate OneLine(a: Alert) {
    && NEWLINE !in a.id && NEWLINE !in a.typ && NEWLINE !in a.category && NEWLINE !in a.severity
    && NEWLINE !in a.title && NEWLINE !in a.body && NEWLINE !in a.action && NEWLINE !in a.source && NEWLINE !in a.nonce
  }

  lemma ItoaOneLine(n: int)
    ensures NEWLINE !in Itoa(n) && 'h' !in Itoa(n)
  {
  }

  /** The signed bytes determine every field up to normalisation, even when `cancels` holds newlines. */
  lemma CanonicalRoundTrip(nfc: string -> string, a: Alert)
    requires KeepsNewlinesOut(nfc) && OneLine(a)
    ensures DecodeAlert(Canonical(nfc, a)) == Some(Normal(nfc, a))
  {
    var b := Normal(nfc, a);
    var p := Parts(b);
    hide Itoa, ParseInt;
    ItoaOneLine(b.schemaVersion);
    ItoaOneLine(b.issuedAt);
    ItoaOneLine(b.ttl);
    hide Join, SplitN;
    SplitOfJoin(p, NEWLINE);
    ParseIntOfItoa(b.schemaVersion);
    ParseIntOfItoa(b.issuedAt);
    ParseIntOfItoa(b.ttl);
  }

  lemma CanonicalInjective(nfc: string -> string, a: Alert, b: Alert)
    requires KeepsNewlinesOut(nfc) && OneLine(a) && OneLine(b)
    requires Canonical(nfc, a) == Canonical(nfc, b)
    ensures Normal(nfc, a) == Normal(nfc, b)
  {
    CanonicalRoundTrip(nfc, a);
    CanonicalRoundTrip(nfc, b);
  }

  lemma HeartbeatRoundTrip(h: Heartbeat)
    ensures DecodeHeartbeat(CanonicalHeartbeat(h)) == Some(h)
  {
    var p := HeartbeatParts(h);
    hide Itoa, ParseInt;
    ItoaOneLine(h.seqNo);
    ItoaOneLine(h.issuedAt);
    ItoaOneLine(h.interval);
    ItoaOneLine(h.activeCount);
    hide Join, SplitN;
    SplitOfJoin(p, NEWLINE);
    ParseIntOfItoa(h.seqNo);
    ParseIntOfItoa(h.issuedAt);
    ParseIntOfItoa(h.interval);
    ParseIntOfItoa(h.activeCount);
  }

  /** What stands before the first newline of joined parts. */
  lemma FirstPart(parts: seq<string>)
    requires |parts| >= 2 && NEWLINE !in parts[0]
    ensures SplitN(Join(parts, NEWLINE), NEWLINE, 2)[0] == parts[0]
  {
    SplitStep(parts[0], NEWLINE, Join(parts[1..], NEWLINE), 2);
  }

  /** No signature over a heartbeat is one over an alert, whatever the two contain. */
  lemma DomainsSeparate(nfc: string -> string, a: Alert, h: Heartbeat)
    ensures Canonical(nfc, a) != CanonicalHeartbeat(h)
  {
    var p, q := Parts(Normal(nfc, a)), HeartbeatParts(h);
    hide Itoa;
    ItoaOneLine(a.schemaVersion);
    assert "hb2"[0] == 'h' && "hb2"[0] in "hb2";
    hide Join, SplitN;
    FirstPart(p);
    FirstPart(q);
  }

  // ---- why newlines are refused ----

  datatype Error = BadSeverity | BadCategory | HasNewline

  const CATEGORIES := ["earthquake", "fire", "weather", "system", "security", "custom"]

  predicate BreaksLine(s: string) {
    NEWLINE in s || '\r' in s
  }

  /** ValidateInput: the first rule broken, in this order. */
  method ValidateInput(severity: string, category: string, title: string, body: string, action: string, source: string)
    returns (error: Option<Error>)
    ensures error == Some(BadSeverity) <==> severity !in ["notice", "warning", "critical", "emergency"]
    ensures error == Some(BadCategory) <==>
              severity in ["notice", "warning", "critical", "emergency"]
              && category !in ["earthquake", "fire", "weather", "system", "security", "custom"]
    ensures error == None <==>
      severity in SEVERITIES && category in CATEGORIES
      && !BreaksLine(title) && !BreaksLine(body) && !BreaksLine(action) && !BreaksLine(source)
  {
    hide BreaksLine;
    if severity !in SEVERITIES {
      return Some(BadSeverity);
    }
    if category !in CATEGORIES {
      return Some(BadCategory);
    }
    var texts := [title, body, action, source];
    for i := 0 to |texts|
      invariant forall k | 0 <= k < i :: !BreaksLine(texts[k])
    {
      if BreaksLine(texts[i]) {
        return Some(HasNewline);
      }
    }
    assert !BreaksLine(texts[0]) && !BreaksLine(texts[1]) && !BreaksLine(texts[2]) && !BreaksLine(texts[3]);
    error := None;
  }

  /** An alert that passed validation, with an id and nonce of one line, is signed unambiguously. */
  lemma ValidatedIsOneLine(a: Alert)
    requires a.severity in SEVERITIES && a.category in CATEGORIES && a.typ in ["alert", "cancel"]
    requires !BreaksLine(a.title) && !BreaksLine(a.body) && !BreaksLine(a.action) && !BreaksLine(a.source)
    requires NEWLINE !in a.id && NEWLINE !in a.nonce
    ensures OneLine(a)
  {
  }

  /** Moving a newline from the end of one part to the start of the next changes no byte. */
  lemma {:induction false} ShiftedNewline(before: seq<string>, x: string, y: string, next: string, after: seq<string>)
    ensures Join(before + [x + [NEWLINE] + y, next] + after, NEWLINE)
      == Join(before + [x, y + [NEWLINE] + next] + after, NEWLINE)
  {
    var p, q := before + [x + [NEWLINE] + y, next] + after, before + [x, y + [NEWLINE] + next] + after;
    if before == [] {
      var tail := if after == [] then "" else [NEWLINE] + Join(after, NEWLINE);
      assert p[1..] == [next] + after && q[1..] == [y + [NEWLINE] + next] + after;
      assert ([next] + after)[1..] == after && ([y + [NEWLINE] + next] + after)[1..] == after;
      assert Join([next] + after, NEWLINE) == next + tail;
      assert Join([y + [NEWLINE] + next] + after, NEWLINE) == y + [NEWLINE] + next + tail;
      assert x + [NEWLINE] + y + [NEWLINE] + (next + tail) == x + [NEWLINE] + (y + [NEWLINE] + next + tail);
    } else {
      ShiftedNewline(before[1..], x, y, next, after);
      assert p[1..] == before[1..] + [x + [NEWLINE] + y, next] + after;
      assert q[1..] == before[1..] + [x, y + [NEWLINE] + next] + after;
    }
  }

  /** Without the rule a title could carry a line of the body: two different alerts, one signature.
      All it takes is that normalisation works on both sides of a newline separately. */
  lemma NewlineInTitleIsAmbiguous(nfc: string -> string, a: Alert, x: string, y: string)
    requires nfc(a.title) == nfc(x) + [NEWLINE] + nfc(y)
    requires nfc(y + [NEWLINE] + a.body) == nfc(y) + [NEWLINE] + nfc(a.body)
    ensures var b := a.(title := x, body := y + [NEWLINE] + a.body);
            b != a && Canonical(nfc, b) == Canonical(nfc, a)
  {
    var b := a.(title := x, body := y + [NEWLINE] + a.body);
    hide Join, Itoa;
    var p, q := Parts(Normal(nfc, a)), Parts(Normal(nfc, b));
    ShiftedNewline(p[..5], nfc(x), nfc(y), nfc(a.body), p[7..]);
    assert p == p[..5] + [nfc(x) + [NEWLINE] + nfc(y), nfc(a.body)] + p[7..];
    assert q == p[..5] + [nfc(x), nfc(y) + [NEWLINE] + nfc(a.body)] + p[7..];
    assert |nfc(a.title)| > |nfc(x)|;
  }
}
