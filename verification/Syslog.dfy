/** The RFC 5424 record of an audit entry (server/internal/siem/syslog.go), and a reader for its
    structured data after section 6.3 of that standard. */
module Syslog {
  import opened Text

  /** The fields of an entry a record carries besides the JSON text. */
  datatype Entry = Entry(
    at: int, action: string, actorType: string, actorName: string, targetId: string, org: int, ip: string,
    hash: string)

  datatype Param = Param(name: string, value: string)

  datatype Element = Element(id: string, params: seq<Param>)

  predicate Special(c: char) {
    c == '\\' || c == '"' || c == ']'
  }

  /** Line breaks become spaces. */
  function Flat(s: string): (r: string)
    ensures |r| == |s| && '\n' !in r && '\r' !in r
  {
    seq(|s|, i requires 0 <= i < |s| => if s[i] == '\n' || s[i] == '\r' then ' ' else s[i])
  }

  function QuoteChar(c: char): string {
    if Special(c) then ['\\', c] else [c]
  }

  function Quote(s: string): string {
    if s == "" then "" else QuoteChar(s[0]) + Quote(s[1..])
  }

  /** sdEscape. */
  function SdEscape(s: string): string {
    Quote(Flat(s))
  }

  function PrintParam(p: Param): string {
    p.name + "=\"" + SdEscape(p.value) + "\""
  }

  function PrintParams(ps: seq<Param>): string {
    if ps == [] then "" else " " + PrintParam(ps[0]) + PrintParams(ps[1..])
  }

  function PrintElement(x: Element): string {
    "[" + x.id + PrintParams(x.params) + "]"
  }

  predicate Contains(s: string, part: string) {
    exists i | 0 <= i <= |s| :: part <= s[i..]
  }

  /** Facility 13, severity warning for failures and for the audit log's own affairs, else notice. */
  function Priority(action: string): int {
    13 * 8 + if Contains(action, "failed") || "audit." <= action then 4 else 5
  }

  /** The priority is that of facility log audit (13) with severity warning (4) for entries about a failure or
      about the audit log itself, and with severity notice (5) for all others. */
  lemma PriorityIff(action: string)
    ensures Priority(action) == 13 * 8 + 4 <==>
              || (exists before, after :: action == before + "failed" + after)
              || (exists after :: action == "audit." + after)
    ensures Priority(action) == 13 * 8 + 4 || Priority(action) == 13 * 8 + 5
  {
    ContainsIff(action, "failed");
    PrefixIff(action, "audit.");
    hide Contains;
  }

  lemma ContainsIff(s: string, part: string)
    ensures Contains(s, part) <==> exists before, after :: s == before + part + after
  {
    if Contains(s, part) {
      var i :| 0 <= i <= |s| && part <= s[i..];
      assert s == s[..i] + part + s[i + |part|..];
    }
    if before, after :| s == before + part + after {
      assert s[|before|..] == part + after;
    }
  }

  lemma PrefixIff(s: string, part: string)
    ensures part <= s <==> exists after :: s == part + after
  {
    if part <= s {
      assert s == part + s[|part|..];
    }
  }

  const SD_ID := "alerthub@0"

  function StructuredData(e: Entry): Element {
    Element(SD_ID, [Param("action", e.action), Param("actor_type", e.actorType), Param("actor", e.actorName),
                    Param("target", e.targetId), Param("org", Itoa(e.org)), Param("ip", e.ip), Param("hash", e.hash)])
  }

  /** What comes before the structured data: priority and version, time, host, application, process, message id. */
  function Header(host: string, time: string, e: Entry): (h: seq<string>)
    ensures |h| == 6
  {
    ["<" + Itoa(Priority(e.action)) + ">1", time, host, "alerthub", "-", SdEscape(e.action)]
  }

  /** formatRFC5424, with the formatted time and the JSON text given. */
  function Format(host: string, time: string, e: Entry, json: string): string {
    Join(Header(host, time, e) + [PrintElement(StructuredData(e)) + " " + json + "\n"], ' ')
  }

  /** Line breaks become spaces and nothing else changes. */
  lemma FlatIs(a: string, c: char, b: string)
    ensures Flat(a + [c] + b) == Flat(a) + (if c == '\n' || c == '\r' then " " else [c]) + Flat(b)
    ensures Flat("") == ""
  {
    assert |a + [c] + b| == |a| + 1 + |b|;
  }

  // ---- reading structured data ----

  /** A quoted value up to its closing quote; a backslash counts as itself unless it escapes one of
      the three special characters, and a bare ']' is an error (section 6.3.3). */
  function ReadValue(s: string): (r: Option<(string, string)>)
    ensures r.Some? ==> |r.value.1| < |s|
  {
    if s == "" || s[0] == ']' then None
    else if s[0] == '"' then Some(("", s[1..]))
    else
      var escaped := s[0] == '\\' && |s| > 1 && (s[1] == '\\' || s[1] == '"' || s[1] == ']');
      var c := if escaped then s[1] else s[0];
      match ReadValue(s[if escaped then 2 else 1..])
      case None => None
      case Some((v, rest)) => Some(([c] + v, rest))
  }

  /** name="value". */
  function ReadParam(s: string): (r: Option<(Param, string)>)
    ensures r.Some? ==> |r.value.1| < |s|
  {
    var n := IndexOf(s, '=');
    if n + 1 >= |s| || s[n + 1] != '"' then None
    else match ReadValue(s[n + 2..])
      case None => None
      case Some((v, rest)) => Some((Param(s[..n], v), rest))
  }

  /** Parameters, each after a space, up to the closing bracket. */
  function ReadParams(s: string): Option<(seq<Param>, string)>
    decreases |s|
  {
    if s == "" then None
    else if s[0] == ']' then Some(([], s[1..]))
    else if s[0] != ' ' then None
    else match ReadParam(s[1..])
      case None => None
      case Some((p, rest)) =>
        match ReadParams(rest)
        case None => None
        case Some((ps, after)) => Some(([p] + ps, after))
  }

  /** An element and what follows it. */
  function ReadElement(s: string): Option<(Element, string)> {
    if s == "" || s[0] != '[' then None
    else
      var n := IndexOf(s[1..], ' ');
      match ReadParams(s[1..][n..])
      case None => None
      case Some((ps, rest)) => Some((Element(s[1..][..n], ps), rest))
  }

  /** Names that need no quoting. */
  predicate Plain(name: string) {
    ' ' !in name && '=' !in name
  }

  predicate PlainNames(ps: seq<Param>) {
    forall p | p in ps :: Plain(p.name)
  }

  function FlatParam(p: Param): Param {
    Param(p.name, Flat(p.value))
  }

  function FlatParams(ps: seq<Param>): seq<Param> {
    if ps == [] then [] else [FlatParam(ps[0])] + FlatParams(ps[1..])
  }

  lemma ReadQuotedChar(c: char, tail: string)
    requires ReadValue(tail).Some?
    ensures ReadValue(QuoteChar(c) + tail) == Some(([c] + ReadValue(tail).value.0, ReadValue(tail).value.1))
  {
    var s := QuoteChar(c) + tail;
    assert s[|QuoteChar(c)|..] == tail;
  }

  lemma {:induction false} ReadValueOfQuote(v: string, rest: string)
    ensures ReadValue(Quote(v) + "\"" + rest) == Some((v, rest))
  {
    hide ReadValue, QuoteChar;
    if v == "" {
      ReadClosingQuote(rest);
      assert Quote(v) + "\"" + rest == "\"" + rest;
    } else {
      ReadValueOfQuote(v[1..], rest);
      ReadQuotedChar(v[0], Quote(v[1..]) + "\"" + rest);
      ThreeAppends(QuoteChar(v[0]), Quote(v[1..]), "\"", rest);
      assert [v[0]] + v[1..] == v;
    }
  }

  lemma ReadClosingQuote(rest: string)
    ensures ReadValue("\"" + rest) == Some(("", rest))
  {
    assert ("\"" + rest)[1..] == rest;
  }

  lemma ThreeAppends(a: string, b: string, c: string, d: string)
    ensures a + (b + c + d) == a + b + c + d
  {
  }

  lemma ParamSlices(name: string, q: string, rest: string, b: string)
    requires b == name + "=\"" + q + "\"" + rest
    ensures b == name + ['='] + ("\"" + q + "\"" + rest)
    ensures |b| > |name| + 1 && b[|name| + 1] == '"'
    ensures b[..|name|] == name && b[|name| + 2..] == q + "\"" + rest
  {
  }

  lemma ReadOneParam(p: Param, rest: string)
    requires Plain(p.name)
    ensures ReadParam(PrintParam(p) + rest) == Some((FlatParam(p), rest))
  {
    hide Flat, Quote, ReadValue, IndexOf;
    var q := SdEscape(p.value);
    ParamSlices(p.name, q, rest, PrintParam(p) + rest);
    IndexOfAppend(p.name, '=', "\"" + q + "\"" + rest);
    ReadValueOfQuote(Flat(p.value), rest);
  }

  lemma ParamsSlices(first: string, others: string, rest: string, b: string)
    requires b == " " + first + others + rest
    ensures b != "" && b[0] == ' ' && b[1..] == first + (others + rest)
  {
  }

  lemma ReadParamsStep(p: Param, others: string, rest: string)
    requires Plain(p.name) && ReadParams(others + rest).Some?
    ensures ReadParams(" " + PrintParam(p) + others + rest)
            == Some(([FlatParam(p)] + ReadParams(others + rest).value.0, ReadParams(others + rest).value.1))
  {
    hide ReadParam, PrintParam, Flat;
    ParamsSlices(PrintParam(p), others, rest, " " + PrintParam(p) + others + rest);
    ReadOneParam(p, others + rest);
  }

  lemma {:induction false} ReadAllParams(ps: seq<Param>, rest: string)
    requires PlainNames(ps)
    ensures ReadParams(PrintParams(ps) + ("]" + rest)) == Some((FlatParams(ps), rest))
  {
    hide PrintParam, FlatParam;
    if ps == [] {
      assert PrintParams(ps) + ("]" + rest) == "]" + rest;
    } else {
      ReadAllParams(ps[1..], rest);
      ReadParamsStep(ps[0], PrintParams(ps[1..]), "]" + rest);
    }
  }

  lemma FirstSpace(ps: seq<Param>)
    requires ps != []
    ensures PrintParams(ps) != "" && PrintParams(ps)[0] == ' '
  {
    hide PrintParam;
  }

  lemma ElementSlices(id: string, params: string, rest: string, b: string)
    requires params != "" && params[0] == ' '
    requires b == "[" + id + params + "]" + rest
    ensures b != "" && b[0] == '['
    ensures b[1..] == id + [' '] + (params[1..] + ("]" + rest))
    ensures b[1..][..|id|] == id && b[1..][|id|..] == params + ("]" + rest)
  {
  }

  /** An element is read back with every value intact, save that line breaks have become spaces. */
  lemma ElementRoundTrip(x: Element, rest: string)
    requires Plain(x.id) && x.params != [] && PlainNames(x.params)
    ensures ReadElement(PrintElement(x) + rest) == Some((Element(x.id, FlatParams(x.params)), rest))
  {
    ReadAllParams(x.params, rest);
    FirstSpace(x.params);
    hide PrintParams, ReadParams, FlatParams, IndexOf, PlainNames;
    var ps := PrintParams(x.params);
    ElementSlices(x.id, ps, rest, PrintElement(x) + rest);
    IndexOfAppend(x.id, ' ', ps[1..] + ("]" + rest));
  }

  // ---- whole records ----

  /** A record of version 1. */
  datatype Record = Record(
    priority: int, time: string, host: string, application: string, process: string, msgId: string, data: Element,
    message: string)

  /** A record's six header tokens, its structured data and its message. */
  function ReadRecord(s: string): Option<Record> {
    ReadTokens(SplitN(s, ' ', 7))
  }

  function ReadTokens(p: seq<string>): Option<Record> {
    if |p| != 7 || |p[0]| < 3 || p[0][0] != '<' || p[0][|p[0]| - 2..] != ">1" then None
    else match ReadElement(p[6])
      case None => None
      case Some((data, rest)) =>
        Some(Record(ParseInt(p[0][1..|p[0]| - 2]), p[1], p[2], p[3], p[4], p[5], data, rest))
  }

  /** A number needs no escaping, so that printing it bare is printing it as a value. */
  lemma NumbersNeedNoEscape(n: int)
    ensures SdEscape(Itoa(n)) == Itoa(n) && Flat(Itoa(n)) == Itoa(n)
  {
    var s := Itoa(n);
    hide Itoa;
    assert forall i | 0 <= i < |s| :: s[i] in s;
    assert Flat(s) == s;
    QuoteOfOrdinary(s);
  }

  lemma {:induction false} QuoteOfOrdinary(s: string)
    requires forall c | c in s :: !Special(c)
    ensures Quote(s) == s
  {
    if s != "" {
      QuoteOfOrdinary(s[1..]);
      assert s == [s[0]] + s[1..];
    }
  }

  lemma {:induction false} QuoteHas(s: string, c: char)
    requires c != '\\'
    ensures c in Quote(s) <==> c in s
  {
    if s != "" {
      QuoteHas(s[1..], c);
      assert s == [s[0]] + s[1..];
    }
  }

  /** What the record says of an entry: every value with its line breaks turned into spaces. */
  function Said(e: Entry): Element {
    Element("alerthub@0", [Param("action", Flat(e.action)), Param("actor_type", Flat(e.actorType)),
        Param("actor", Flat(e.actorName)),
                    Param("target", Flat(e.targetId)), Param("org", Itoa(e.org)), Param("ip", Flat(e.ip)),
                        Param("hash", Flat(e.hash))])
  }

  lemma SaidIsFlat(e: Entry)
    ensures Said(e).params == FlatParams(StructuredData(e).params)
  {
    hide Flat, Itoa;
    NumbersNeedNoEscape(e.org);
    var ps := StructuredData(e).params;
    FlatParamsAt(ps);
  }

  lemma {:induction false} FlatParamsAt(ps: seq<Param>)
    ensures |FlatParams(ps)| == |ps| && forall k | 0 <= k < |ps| :: FlatParams(ps)[k] == FlatParam(ps[k])
  {
    hide FlatParam;
    if ps != [] {
      FlatParamsAt(ps[1..]);
    }
  }

  lemma NamesArePlain(e: Entry)
    ensures Plain(SD_ID) && PlainNames(StructuredData(e).params)
  {
    hide Itoa;
    assert Plain(SD_ID) && Plain("action") && Plain("actor_type") && Plain("actor");
    assert Plain("target") && Plain("org") && Plain("ip") && Plain("hash");
    hide Plain;
  }

  /** The structured data of every record gives back all seven values, and the JSON text follows. */
  lemma StructuredDataRoundTrip(e: Entry, rest: string)
    ensures ReadElement(PrintElement(StructuredData(e)) + rest) == Some((Said(e), rest))
  {
    NamesArePlain(e);
    SaidIsFlat(e);
    hide PrintElement, ReadElement, FlatParams, Plain, PlainNames, Itoa;
    ElementRoundTrip(StructuredData(e), rest);
  }

  lemma HeaderSplits(header: seq<string>, last: string)
    requires |header| == 6 && forall k | 0 <= k < 6 :: ' ' !in header[k]
    ensures SplitN(Join(header + [last], ' '), ' ', 7) == header + [last]
  {
    SplitOfJoin(header + [last], ' ');
  }

  lemma HeaderHasNoSpace(host: string, time: string, e: Entry)
    requires ' ' !in host && ' ' !in time && ' ' !in SdEscape(e.action)
    ensures forall k | 0 <= k < 6 :: ' ' !in Header(host, time, e)[k]
  {
    hide SdEscape, Itoa, Priority;
  }

  lemma PriorityToken(n: int)
    ensures var t := "<" + Itoa(n) + ">1";
            |t| >= 3 && t[0] == '<' && t[|t| - 2..] == ">1" && ParseInt(t[1..|t| - 2]) == n
  {
    hide Itoa, ParseInt;
    var t := "<" + Itoa(n) + ">1";
    assert t[1..|t| - 2] == Itoa(n);
    ParseIntOfItoa(n);
  }

  function Expected(host: string, time: string, e: Entry, json: string): Record {
    Record(Priority(e.action), time, host, "alerthub", "-", SdEscape(e.action), Said(e), " " + json + "\n")
  }

  lemma OrdinaryTokens(host: string, time: string, e: Entry, last: string, data: Element, message: string)
    requires ReadElement(last) == Some((data, message))
    ensures ReadTokens(Header(host, time, e) + [last])
            == Some(Record(Priority(e.action), time, host, "alerthub", "-", SdEscape(e.action), data, message))
  {
    hide Itoa, ParseInt, ReadElement, SdEscape, Priority;
    PriorityToken(Priority(e.action));
    var h := Header(host, time, e);
    var p := h + [last];
    assert p[0] == h[0] && p[1] == h[1] && p[2] == h[2] && p[3] == h[3] && p[4] == h[4] && p[5] == h[5];
    assert p[6] == last;
  }

  lemma OrdinaryRecord(host: string, time: string, e: Entry, json: string)
    requires ' ' !in host && ' ' !in time && ' ' !in SdEscape(e.action)
    ensures ReadRecord(Format(host, time, e, json)) == Some(Expected(host, time, e, json))
  {
    hide StructuredData, Said, PrintElement, ReadElement, SdEscape, Itoa, ParseInt, Priority, SplitN, Join, Header,
      ReadTokens;
    var sd := PrintElement(StructuredData(e));
    AppendAgain(sd, " " + json, "\n");
    AppendAgain(sd, " ", json);
    StructuredDataRoundTrip(e, " " + json + "\n");
    HeaderHasNoSpace(host, time, e);
    HeaderSplits(Header(host, time, e), sd + " " + json + "\n");
    OrdinaryTokens(host, time, e, sd + " " + json + "\n", Said(e), " " + json + "\n");
  }

  lemma AppendAgain(sd: string, text: string, end: string)
    ensures sd + (text + end) == sd + text + end
  {
  }

  /** A record reads back whole exactly when the action holds no space and no line break: the message
      id of the header, unlike the structured data, is not quoted. */
  lemma RecordRoundTrip(host: string, time: string, e: Entry, json: string)
    requires ' ' !in host && ' ' !in time
    ensures ReadRecord(Format(host, time, e, json)) == Some(Expected(host, time, e, json))
            <==> ' ' !in e.action && '\n' !in e.action && '\r' !in e.action
  {
    QuoteHas(Flat(e.action), ' ');
    FlatHasSpace(e.action);
    hide Quote, Flat;
    if ' ' !in SdEscape(e.action) {
      OrdinaryRecord(host, time, e, json);
    } else {
      var r := ReadRecord(Format(host, time, e, json));
      hide ReadElement, Format, SdEscape, Said;
      assert r.Some? ==> ' ' !in r.value.msgId;
    }
  }

  lemma FlatHasSpace(s: string)
    ensures ' ' in Flat(s) <==> ' ' in s || '\n' in s || '\r' in s
  {
    var f := Flat(s);
    if ' ' in f {
      var i :| 0 <= i < |f| && f[i] == ' ';
      assert s[i] in s;
    } else {
      forall i | 0 <= i < |s| ensures s[i] != ' ' && s[i] != '\n' && s[i] != '\r' {
        assert f[i] in f;
      }
    }
  }

  // ---- framing ----

  lemma {:induction false} JoinHas(parts: seq<string>, sep: char, c: char)
    requires c != sep
    ensures c in Join(parts, sep) <==> exists k :: 0 <= k < |parts| && c in parts[k]
  {
    if |parts| > 1 {
      JoinHas(parts[1..], sep, c);
      if c in parts[0] {
      } else if c in Join(parts[1..], sep) {
        var k :| 0 <= k < |parts[1..]| && c in parts[1..][k];
        assert c in parts[k + 1];
      } else {
        assert forall k | 1 <= k < |parts| :: parts[k] == parts[1..][k - 1];
      }
    }
  }

  lemma {:induction false} JoinEnd(parts: seq<string>, last: string, more: string, sep: char)
    ensures Join(parts + [last + more], sep) == Join(parts + [last], sep) + more
  {
    if parts != [] {
      JoinEnd(parts[1..], last, more, sep);
      assert (parts + [last])[1..] == parts[1..] + [last];
      assert (parts + [last + more])[1..] == parts[1..] + [last + more];
    }
  }

  lemma {:induction false} ParamsHaveNoNewline(ps: seq<Param>)
    requires forall p | p in ps :: '\n' !in p.name
    ensures '\n' !in PrintParams(ps)
  {
    if ps != [] {
      ParamsHaveNoNewline(ps[1..]);
      QuoteHas(Flat(ps[0].value), '\n');
      hide Flat, Quote;
    }
  }

  lemma DataHasNoNewline(e: Entry)
    ensures '\n' !in PrintElement(StructuredData(e))
  {
    NamesHaveNoNewline(e);
    var x := StructuredData(e);
    hide PrintParams, Itoa, StructuredData;
    ParamsHaveNoNewline(x.params);
    assert '\n' !in PrintElement(x);
  }

  lemma NamesHaveNoNewline(e: Entry)
    ensures '\n' !in StructuredData(e).id
    ensures forall p | p in StructuredData(e).params :: '\n' !in p.name
  {
    hide Itoa;
    assert '\n' !in SD_ID && '\n' !in "action" && '\n' !in "actor_type" && '\n' !in "actor";
    assert '\n' !in "target" && '\n' !in "org" && '\n' !in "ip" && '\n' !in "hash";
  }

  lemma HeaderNewline(host: string, time: string, e: Entry)
    ensures (exists k :: 0 <= k < 6 && '\n' in Header(host, time, e)[k]) <==> '\n' in host || '\n' in time
  {
    QuoteHas(Flat(e.action), '\n');
    hide Quote, Itoa, Priority;
    var h := Header(host, time, e);
    hide Flat;
    assert h[1] == time && h[2] == host;
  }

  /** Whatever the entry holds, the record is one line: its only line feed is its last character,
      unless the host, the time or the JSON text brings one. */
  lemma OneLineEach(host: string, time: string, e: Entry, json: string)
    ensures var r := Format(host, time, e, json);
            && |r| > 0 && r[|r| - 1] == '\n'
            && ('\n' in r[..|r| - 1] <==> '\n' in host || '\n' in time || '\n' in json)
  {
    var h, sd := Header(host, time, e), PrintElement(StructuredData(e));
    HeaderNewline(host, time, e);
    DataHasNoNewline(e);
    hide Header, PrintElement, StructuredData, Join;
    JoinEnd(h, sd + " " + json, "\n", ' ');
    var body := Join(h + [sd + " " + json], ' ');
    var r := Format(host, time, e, json);
    assert r == body + "\n" && r[..|r| - 1] == body;
    var parts := h + [sd + " " + json];
    JoinHas(parts, ' ', '\n');
    assert parts[6] == sd + " " + json && forall k | 0 <= k < 6 :: parts[k] == h[k];
  }
}
