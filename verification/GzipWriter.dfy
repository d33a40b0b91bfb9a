/** The response writer that puts off deciding about compression (server/internal/api/httpcache.go).
    compress/gzip is represented by what it is fed: its output decodes to the concatenation of that
    once it is closed. */
module GzipWriter {
  import opened Text

  const MIN_BYTES := 1024

  /** The headers the writer reads or rewrites; `length` is Content-Length. */
  datatype Header = Header(contentType: string, length: Option<int>, gzipped: bool)

  /** What reaches the wrapped response, in order. */
  datatype Event =
    | Head(status: int, header: Header)
    | Plain(bytes: string)        // body bytes as they are
    | Packed(bytes: string)       // bytes fed to the compressor writing to the body
    | PackFlush                   // compressor flushed
    | PackClose                   // compressor closed: the gzip stream ends
    | WireFlush

  // ---- content types ----

  function Lower(s: string): (r: string)
    ensures |r| == |s|
    ensures forall i | 0 <= i < |s| ::
              if 'A' <= s[i] <= 'Z' then r[i] as int - 'a' as int == s[i] as int - 'A' as int else r[i] == s[i]
  {
    seq(|s|, i requires 0 <= i < |s| => if 'A' <= s[i] <= 'Z' then (s[i] as int + 32) as char else s[i])
  }

  predicate Blank(c: char) {
    c == ' ' || '\t' <= c <= '\r'
  }

  function TrimLeft(s: string): string {
    if s != [] && Blank(s[0]) then TrimLeft(s[1..]) else s
  }

  function TrimRight(s: string): string {
    if s != [] && Blank(s[|s| - 1]) then TrimRight(s[..|s| - 1]) else s
  }

  predicate CompressibleType(contentType: string) {
    var ct := Lower(TrimRight(TrimLeft(SplitN(contentType, ';', 2)[0])));
    || ct in ["application/javascript", "text/javascript", "application/json", "text/html", "text/css", "text/plain",
              "image/svg+xml", "application/manifest+json", "application/samlmetadata+xml", "text/xml",
              "application/xml"]
    || "text/" <= ct
  }

  predicate Success(status: int) {
    200 <= status < 300
  }

  // ---- what the handler asked for ----

  /** A call of the handler; SetHeader is an edit of the header map. */
  datatype Call =
    | SetHeader(contentType: string, length: Option<int>)
    | WriteHeader(status: int)
    | Write(bytes: string)
    | Flush

  function Written(calls: seq<Call>): string {
    if calls == [] then ""
    else
      var c := calls[|calls| - 1];
      Written(calls[..|calls| - 1]) + (if c.Write? then c.bytes else "")
  }

  /** The handler has chosen a status, if only by writing. */
  function HasStatus(calls: seq<Call>): bool {
    calls != [] && (HasStatus(calls[..|calls| - 1]) || calls[|calls| - 1].WriteHeader? || calls[|calls| - 1].Write?)
  }

  /** The first status chosen, 200 if none was. */
  function StatusOf(calls: seq<Call>): int {
    if calls == [] then 200
    else
      var front, c := calls[..|calls| - 1], calls[|calls| - 1];
      if HasStatus(front) then StatusOf(front) else if c.WriteHeader? then c.status else 200
  }

  function HeaderOf(calls: seq<Call>): Header {
    if calls == [] then Header("", None, false)
    else
      var c := calls[|calls| - 1];
      if c.SetHeader? then Header(c.contentType, c.length, false) else HeaderOf(calls[..|calls| - 1])
  }

  /** What has been decided about the body. */
  datatype Fate = Open | Identity | Compressed

  predicate WorthPacking(calls: seq<Call>) {
    |Written(calls)| >= MIN_BYTES && Success(StatusOf(calls)) && CompressibleType(HeaderOf(calls).contentType)
  }

  /** The decision falls with the write that reaches the threshold, or earlier with a flush. */
  function FateOf(calls: seq<Call>): Fate {
    if calls == [] then Open
    else
      var front, c := calls[..|calls| - 1], calls[|calls| - 1];
      if !FateOf(front).Open? then FateOf(front)
      else if c.Flush? then Identity
      else if !c.Write? || |Written(calls)| < MIN_BYTES then Open
      else if WorthPacking(calls) then Compressed
      else Identity
  }

  /** The head as it stood when the decision fell. */
  function SentHead(calls: seq<Call>): Event {
    if calls != [] && !FateOf(calls[..|calls| - 1]).Open? then SentHead(calls[..|calls| - 1])
    else if FateOf(calls).Compressed? then Head(StatusOf(calls), Header(HeaderOf(calls).contentType, None, true))
    else Head(StatusOf(calls), HeaderOf(calls))
  }

  /** What one more call changes. */
  lemma OneMore(calls: seq<Call>, c: Call)
    ensures var all := calls + [c];
            && Written(all) == Written(calls) + (if c.Write? then c.bytes else "")
            && HasStatus(all) == (HasStatus(calls) || c.WriteHeader? || c.Write?)
            && StatusOf(all) == (if HasStatus(calls) then StatusOf(calls) else if c.WriteHeader? then c.status else 200)
            && HeaderOf(all) == (if c.SetHeader? then Header(c.contentType, c.length, false) else HeaderOf(calls))
            && (!FateOf(calls).Open? ==> FateOf(all) == FateOf(calls) && SentHead(all) == SentHead(calls))
            && (FateOf(calls).Open? ==>
                  && FateOf(all) == (if c.Flush? then Identity
                                     else if !c.Write? || |Written(all)| < MIN_BYTES then Open
                                     else if WorthPacking(all) then Compressed
                                     else Identity)
                  && SentHead(all) == (if FateOf(all).Compressed?
                                       then Head(StatusOf(all), Header(HeaderOf(all).contentType, None, true))
                                       else Head(StatusOf(all), HeaderOf(all))))
  {
    hide CompressibleType, Success;
    assert (calls + [c])[..|calls|] == calls;
  }

  lemma OpenHead(calls: seq<Call>)
    ensures FateOf(calls).Open? ==> SentHead(calls) == Head(StatusOf(calls), HeaderOf(calls))
  {
  }

  lemma {:induction false} StatusDefault(calls: seq<Call>)
    ensures !HasStatus(calls) ==> StatusOf(calls) == 200
  {
    if calls != [] && !HasStatus(calls) {
      StatusDefault(calls[..|calls| - 1]);
    }
  }

  // ---- what the client sees ----

  /** The body after undoing the content encoding. */
  function Decoded(wire: seq<Event>): string {
    if wire == [] then ""
    else
      var e := wire[|wire| - 1];
      Decoded(wire[..|wire| - 1]) + (if e.Plain? || e.Packed? then e.bytes else "")
  }

  /** One head, first, and then a body of one kind. */
  ghost predicate Framed(wire: seq<Event>, packed: bool) {
    && wire != [] && wire[0].Head?
    && forall i | 1 <= i < |wire| ::
         wire[i].WireFlush? || if packed then wire[i].Packed? || wire[i].PackFlush? else wire[i].Plain?
  }

  lemma DecodedSnoc(wire: seq<Event>, e: Event)
    ensures Decoded(wire + [e]) == Decoded(wire) + (if e.Plain? || e.Packed? then e.bytes else "")
  {
    assert (wire + [e])[..|wire|] == wire;
  }

  lemma DecodedHead(e: Event)
    requires e.Head?
    ensures Decoded([e]) == ""
  {
    DecodedSnoc([], e);
    assert [] + [e] == [e];
  }

  // ---- the writer ----

  class Writer {
    // the wrapped response and the compressor pool
    var header: Header
    var wire: seq<Event>
    var taken: nat
    var returned: nat
    // the writer itself; `gz` says a compressor is in place
    var gz: bool
    var decided: bool
    var wroteHeader: bool
    var status: int
    var buf: string
    // the calls made so far
    ghost var calls: seq<Call>

    ghost predicate Valid()
      reads this
    {
      && status == StatusOf(calls) && wroteHeader == HasStatus(calls)
      && returned == 0 && taken == (if gz then 1 else 0)
      && decided == !FateOf(calls).Open? && gz == FateOf(calls).Compressed?
      && if decided then buf == "" && Framed(wire, gz) && wire[0] == SentHead(calls) && Decoded(wire) == Written(calls)
         else buf == Written(calls) && |buf| < MIN_BYTES && wire == [] && header == HeaderOf(calls)
    }

    constructor ()
      ensures Valid() && calls == []
    {
      header := Header("", None, false);
      wire, taken, returned := [], 0, 0;
      gz, decided, wroteHeader, status, buf := false, false, false, 200, "";
      calls := [];
    }

    /** The handler edits the headers. */
    method EditHeader(contentType: string, length: Option<int>)
      requires Valid()
      modifies this
      ensures Valid() && calls == old(calls) + [SetHeader(contentType, length)]
    {
      OneMore(calls, SetHeader(contentType, length));
      StatusDefault(calls);
      hide Written, HasStatus, StatusOf, HeaderOf, FateOf, SentHead, Decoded, CompressibleType;
      header := Header(contentType, length, gz);
      calls := calls + [SetHeader(contentType, length)];
    }

    method ChooseStatus(s: int)
      requires Valid()
      modifies this
      ensures Valid() && calls == old(calls) + [WriteHeader(s)]
    {
      OneMore(calls, WriteHeader(s));
      StatusDefault(calls);
      hide Written, HasStatus, StatusOf, HeaderOf, FateOf, SentHead, Decoded, CompressibleType;
      calls := calls + [WriteHeader(s)];
      if wroteHeader {
        return;
      }
      wroteHeader := true;
      status := s;
    }

    method WriteBytes(b: string) returns (n: nat)
      requires Valid()
      modifies this
      ensures Valid() && calls == old(calls) + [Write(b)]
      ensures n == |b|
    {
      OneMore(calls, Write(b));
      StatusDefault(calls);
      hide Written, HasStatus, StatusOf, HeaderOf, FateOf, SentHead, Decoded, CompressibleType;
      n := |b|;
      calls := calls + [Write(b)];
      if !wroteHeader {
        wroteHeader := true;
        status := 200;
      }
      if decided {
        var e := if gz then Packed(b) else Plain(b);
        DecodedSnoc(wire, e);
        wire := wire + [e];
        return;
      }
      buf := buf + b;
      if |buf| < MIN_BYTES {
        return;
      }
      Decide();
    }

    /** decide. */
    method Decide()
      requires !decided && !gz && wire == [] && taken == 0
      modifies this
      ensures decided && buf == "" && status == old(status) && wroteHeader == old(wroteHeader)
      ensures calls == old(calls) && returned == old(returned)
      ensures gz == (|old(buf)| >= MIN_BYTES && Success(status) && CompressibleType(old(header).contentType))
      ensures taken == if gz then 1 else 0
      ensures Framed(wire, gz) && Decoded(wire) == old(buf)
      ensures wire[0] == Head(status, if gz then Header(old(header).contentType, None, true) else old(header))
    {
      hide CompressibleType, Success, Decoded;
      decided := true;
      var body := buf;
      buf := "";
      var compress := |body| >= MIN_BYTES && Success(status) && CompressibleType(header.contentType);
      if compress {
        header := header.(length := None);
        header := header.(gzipped := true);
      }
      wire := wire + [Head(status, header)];
      if compress {
        taken := taken + 1;
        gz := true;
      }
      DecodedHead(wire[0]);
      assert wire == [wire[0]];
      if |body| > 0 {
        var e := if gz then Packed(body) else Plain(body);
        DecodedSnoc(wire, e);
        wire := wire + [e];
      }
    }

    method FlushAll()
      requires Valid()
      modifies this
      ensures Valid() && calls == old(calls) + [Flush]
    {
      OneMore(calls, Flush);
      StatusDefault(calls);
      hide Written, HasStatus, StatusOf, HeaderOf, FateOf, SentHead, Decoded, CompressibleType;
      calls := calls + [Flush];
      if !decided {
        Decide();
      }
      if gz {
        DecodedSnoc(wire, PackFlush);
        wire := wire + [PackFlush];
      }
      DecodedSnoc(wire, WireFlush);
      wire := wire + [WireFlush];
    }

    /** close, deferred by withGzip until the handler returns. */
    method Close()
      requires Valid()
      modifies this
      ensures calls == old(calls) && returned == taken == if FateOf(calls).Compressed? then 1 else 0
      ensures Decoded(wire) == Written(calls) && wire != []
      ensures FateOf(calls).Compressed? ==>
                Framed(wire[..|wire| - 1], true) && wire[|wire| - 1] == PackClose && wire[0] == SentHead(calls)
      ensures !FateOf(calls).Compressed? ==> Framed(wire, false) && wire[0] == SentHead(calls)
    {
      OpenHead(calls);
      hide Written, HasStatus, StatusOf, HeaderOf, FateOf, SentHead, Decoded, CompressibleType;
      if !decided {
        Decide();
      }
      if gz {
        DecodedSnoc(wire, PackClose);
        wire := wire + [PackClose];
        assert wire[..|wire| - 1] == old(wire);
        returned := returned + 1;
        gz := false;
      }
    }
  }

  // ---- one response ----

  /** withGzip: the handler makes its calls, then the writer is closed. The head goes out once and
      first; the body decodes to everything written; a compressor is taken exactly when the body is
      compressed, and is given back. */
  method Respond(script: seq<Call>) returns (wire: seq<Event>, taken: nat, returned: nat)
    ensures Decoded(wire) == Written(script)
    ensures wire != [] && wire[0] == SentHead(script)
    ensures forall i | 1 <= i < |wire| :: !wire[i].Head?
    ensures taken == returned == if FateOf(script).Compressed? then 1 else 0
    ensures if FateOf(script).Compressed? then Framed(wire[..|wire| - 1], true) && wire[|wire| - 1] == PackClose
            else Framed(wire, false)
  {
    hide Written, FateOf, SentHead, HasStatus, StatusOf, HeaderOf, Decoded;
    var w := new Writer();
    for i := 0 to |script|
      invariant fresh(w) && w.Valid() && w.calls == script[..i]
    {
      match script[i]
      case SetHeader(contentType, length) => w.EditHeader(contentType, length);
      case WriteHeader(status) => w.ChooseStatus(status);
      case Write(bytes) => var n := w.WriteBytes(bytes);
      case Flush => w.FlushAll();
    }
    assert script[..|script|] == script;
    w.Close();
    wire, taken, returned := w.wire, w.taken, w.returned;
    if FateOf(script).Compressed? {
      assert forall i | 1 <= i < |wire| - 1 :: wire[i] == wire[..|wire| - 1][i];
    }
  }

  /** No flushes, and the headers are set before the first write. */
  predicate Simple(calls: seq<Call>) {
    && (forall i | 0 <= i < |calls| :: !calls[i].Flush?)
    && (forall i, j | 0 <= i < j < |calls| && calls[i].Write? :: !calls[j].SetHeader?)
  }

  lemma {:induction false} NothingWritten(calls: seq<Call>)
    requires forall i | 0 <= i < |calls| :: !calls[i].Write?
    ensures Written(calls) == ""
  {
    if calls != [] {
      NothingWritten(calls[..|calls| - 1]);
    }
  }

  /** Without flushes and with stable headers, a body is compressed if and only if it is long enough,
      successful and of a compressible type, however it was cut into writes. */
  lemma {:induction false} CompressedIff(calls: seq<Call>)
    requires Simple(calls)
    ensures FateOf(calls).Compressed? <==>
              |Written(calls)| >= 1024 && 200 <= StatusOf(calls) <= 299 && CompressibleType(HeaderOf(calls).contentType)
    ensures FateOf(calls).Open? <==> |Written(calls)| < 1024
    ensures !FateOf(calls).Open? ==> HasStatus(calls)
  {
    hide CompressibleType;
    if calls != [] {
      var front, c := calls[..|calls| - 1], calls[|calls| - 1];
      CompressedIff(front);
      if c.SetHeader? {
        NothingWritten(front);
      }
    }
  }

  /** So two such handlers that write the same bytes in other pieces get the same treatment. */
  lemma ChunkingIsIrrelevant(a: seq<Call>, b: seq<Call>)
    requires Simple(a) && Simple(b)
    requires Written(a) == Written(b) && StatusOf(a) == StatusOf(b) && HeaderOf(a) == HeaderOf(b)
    ensures FateOf(a) == FateOf(b)
  {
    CompressedIff(a);
    CompressedIff(b);
    hide CompressibleType;
  }

  /** A flush before the threshold settles for an uncompressed body, whatever follows. */
  lemma {:induction false} EarlyFlushIsIdentity(calls: seq<Call>, rest: seq<Call>)
    requires FateOf(calls).Open?
    ensures FateOf(calls + [Flush] + rest) == Identity
  {
    if rest == [] {
      OneMore(calls, Flush);
      assert calls + [Flush] + rest == calls + [Flush];
    } else {
      var front, last := rest[..|rest| - 1], rest[|rest| - 1];
      EarlyFlushIsIdentity(calls, front);
      OneMore(calls + [Flush] + front, last);
      assert calls + [Flush] + rest == calls + [Flush] + front + [last];
    }
  }

  /** Parameters of a content type play no part. */
  lemma ParametersIgnored(contentType: string, parameters: string)
    requires ';' !in contentType
    ensures CompressibleType(contentType + [';'] + parameters) == CompressibleType(contentType)
  {
    hide Lower, TrimLeft, TrimRight;
    SplitStep(contentType, ';', parameters, 2);
    assert IndexOf(contentType, ';') == |contentType|;
  }
}
