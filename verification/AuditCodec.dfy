/** The byte string the audit chain hashes (server/internal/store/audit.go): eleven values,
    each written as length, ':', contents, '|'. */
module AuditCodec {
  import opened Text

  /** The ten hashed columns of an audit row. */
  datatype Content = Content(
    org: int, at: int, actorType: string, actorId: int, actorName: string, action: string,
    targetType: string, targetId: string, detail: string, ip: string)

  function Field(s: string): string {
    Digits(|s|) + ":" + s + "|"
  }

  function Encode(fields: seq<string>): string {
    if fields == [] then "" else Field(fields[0]) + Encode(fields[1..])
  }

  lemma {:induction false} EncodeSnoc(fields: seq<string>, s: string)
    ensures Encode(fields + [s]) == Encode(fields) + Field(s)
  {
    if fields == [] {
      assert [s][1..] == [];
    } else {
      EncodeSnoc(fields[1..], s);
      assert (fields + [s])[1..] == fields[1..] + [s];
      AppendAssociative(Field(fields[0]), Encode(fields[1..]), Field(s));
    }
  }

  lemma AppendAssociative<T>(a: seq<T>, b: seq<T>, c: seq<T>)
    ensures a + b + c == a + (b + c)
  {
  }

  function Fields(c: Content, prevHash: string): seq<string> {
    [prevHash, Itoa(c.org), Itoa(c.at), c.actorType, Itoa(c.actorId), c.actorName, c.action,
     c.targetType, c.targetId, c.detail, c.ip]
  }

  function Canonical(c: Content, prevHash: string): string {
    Encode(Fields(c, prevHash))
  }

  /** strings.Builder with the closure `put`: what has been written is the encoding of the
      values put so far. */
  class Builder {
    var written: string
    ghost var fields: seq<string>

    ghost predicate Valid()
      reads this
    {
      written == Encode(fields)
    }

    constructor ()
      ensures Valid() && fields == []
    {
      written, fields := "", [];
    }

    method Put(s: string)
      requires Valid()
      modifies this
      ensures Valid() && fields == old(fields) + [s]
    {
      written := written + Digits(|s|);
      written := written + ":";
      written := written + s;
      written := written + "|";
      fields := fields + [s];
      assert written == old(written) + Field(s);
      EncodeSnoc(old(fields), s);
    }
  }

  /** canonicalAudit. */
  method CanonicalAudit(c: Content, prevHash: string) returns (bytes: string)
    ensures bytes == Canonical(c, prevHash)
  {
    hide Itoa, Encode, Field;
    var b := new Builder();
    ghost var f := Fields(c, prevHash);
    b.Put(prevHash);
    b.Put(Itoa(c.org));
    b.Put(Itoa(c.at));
    b.Put(c.actorType);
    assert b.fields == f[..4];
    b.Put(Itoa(c.actorId));
    b.Put(c.actorName);
    b.Put(c.action);
    b.Put(c.targetType);
    assert b.fields == f[..8];
    b.Put(c.targetId);
    b.Put(c.detail);
    b.Put(c.ip);
    assert b.fields == f;
    bytes := b.written;
  }

  /** Reads one length-prefixed value off the front. */
  function TakeField(b: string): (r: Option<(string, string)>)
    ensures r.Some? ==> |r.value.1| < |b|
  {
    var i := IndexOf(b, ':');
    TakeAt(b, i, Value(b[..i]))
  }

  /** The `n` characters after position `i`, and what follows their closing bar. */
  function TakeAt(b: string, i: nat, n: nat): (r: Option<(string, string)>)
    ensures r.Some? ==> |r.value.1| < |b|
  {
    if i + n + 2 <= |b| then Some((b[i + 1..i + 1 + n], b[i + n + 2..])) else None
  }

  /** Reads length-prefixed values until the bytes run out. */
  function Decode(b: string): Option<seq<string>>
    decreases |b|
  {
    if b == "" then Some([])
    else match TakeField(b)
      case None => None
      case Some((s, rest)) =>
        match Decode(rest)
        case None => None
        case Some(more) => Some([s] + more)
  }

  /** Reads a row's hashed values back from its canonical bytes. */
  function DecodeAudit(b: string): Option<(Content, string)> {
    match Decode(b)
    case None => None
    case Some(f) =>
      if |f| != 11 then None
      else Some((Content(ParseInt(f[1]), ParseInt(f[2]), f[3], ParseInt(f[4]), f[5], f[6], f[7], f[8], f[9], f[10]),
                 f[0]))
  }

  lemma Slices(d: string, s: string, rest: string, b: string)
    requires b == d + ":" + s + "|" + rest
    ensures b == d + [':'] + (s + "|" + rest)
    ensures b[..|d|] == d && TakeAt(b, |d|, |s|) == Some((s, rest))
  {
    assert b[|d| + 1..|d| + 1 + |s|] == s && b[|d| + |s| + 2..] == rest;
  }

  lemma TakeOfPrefix(d: string, s: string, rest: string, b: string)
    requires ':' !in d && Value(d) == |s|
    requires b == d + ":" + s + "|" + rest
    ensures TakeField(b) == Some((s, rest))
  {
    hide Value, IndexOf, TakeAt;
    Slices(d, s, rest, b);
    IndexOfAppend(d, ':', s + "|" + rest);
  }

  lemma TakeOfField(s: string, rest: string)
    ensures TakeField(Field(s) + rest) == Some((s, rest))
  {
    hide TakeField;
    ValueOfDigits(|s|);
    TakeOfPrefix(Digits(|s|), s, rest, Field(s) + rest);
  }

  lemma DecodeOfField(s: string, rest: string)
    requires Decode(rest).Some?
    ensures Decode(Field(s) + rest) == Some([s] + Decode(rest).value)
  {
    TakeOfField(s, rest);
    assert Field(s) + rest != "";
  }

  lemma {:induction false} DecodeOfEncode(fields: seq<string>)
    ensures Decode(Encode(fields)) == Some(fields)
  {
    if fields != [] {
      DecodeOfEncode(fields[1..]);
      DecodeOfField(fields[0], Encode(fields[1..]));
      assert fields == [fields[0]] + fields[1..];
    }
  }

  /** The canonical form of a row determines all eleven hashed values, whatever they contain. */
  lemma CanonicalRoundTrip(c: Content, prevHash: string)
    ensures DecodeAudit(Canonical(c, prevHash)) == Some((c, prevHash))
  {
    var f := Fields(c, prevHash);
    DecodeOfEncode(f);
    assert f[1] == Itoa(c.org) && f[2] == Itoa(c.at) && f[4] == Itoa(c.actorId);
    ParseIntOfItoa(c.org);
    ParseIntOfItoa(c.at);
    ParseIntOfItoa(c.actorId);
  }

  /** Two rows never share canonical bytes unless all their hashed values agree. */
  lemma CanonicalInjective(c: Content, prevHash: string, d: Content, prevHash': string)
    requires Canonical(c, prevHash) == Canonical(d, prevHash')
    ensures c == d && prevHash == prevHash'
  {
    CanonicalRoundTrip(c, prevHash);
    CanonicalRoundTrip(d, prevHash');
  }
}
