/** CAP 1.2 references and the ids derived from them (server/internal/cap/cap.go,
    server/internal/api/cap_handlers.go). A `char` here is a Unicode code point. */
module CapReferences {
  import opened Text
  import opened AuditLog

  // ---- strings.Fields ----

  /** unicode.IsSpace. */
  predicate IsSpace(c: char) {
    '\t' <= c <= '\r' || c in " \U{85}\U{A0}\U{1680}\U{2028}\U{2029}\U{202F}\U{205F}\U{3000}"
        || '\U{2000}' <= c <= '\U{200A}'
  }

  /** The code points with Unicode's White_Space property; no other printing ASCII character is one. */
  lemma IsSpaceIff(c: char)
    ensures IsSpace(c) <==>
              || 9 <= c as int <= 13 || c as int in {0x20, 0x85, 0xA0, 0x1680, 0x2028, 0x2029, 0x202F, 0x205F, 0x3000}
              || 0x2000 <= c as int <= 0x200A
    ensures '!' <= c <= '~' ==> !IsSpace(c)
  {
  }

  predicate Blank(s: string) {
    forall c | c in s :: IsSpace(c)
  }

  predicate Solid(s: string) {
    forall c | c in s :: !IsSpace(c)
  }

  /** Where the word at the front of `s` ends. */
  function WordEnd(s: string): (n: nat)
    ensures n <= |s| && Solid(s[..n])
    ensures n < |s| ==> IsSpace(s[n])
  {
    if s == "" || IsSpace(s[0]) then 0 else 1 + WordEnd(s[1..])
  }

  function Fields(s: string): seq<string> {
    if s == "" then []
    else if IsSpace(s[0]) then Fields(s[1..])
    else [s[..WordEnd(s)]] + Fields(s[WordEnd(s)..])
  }

  /** A word and the white space after it. */
  datatype Item = Item(word: string, gap: string)

  function Spread(items: seq<Item>): string {
    if items == [] then "" else items[0].word + items[0].gap + Spread(items[1..])
  }

  /** Only the last word may have no white space after it. */
  predicate Gapped(items: seq<Item>) {
    forall k | 0 <= k < |items| :: Blank(items[k].gap) && (k < |items| - 1 ==> items[k].gap != "")
  }

  predicate SolidWords(items: seq<Item>) {
    forall k | 0 <= k < |items| :: items[k].word != "" && Solid(items[k].word)
  }

  function Words(items: seq<Item>): seq<string> {
    if items == [] then [] else [items[0].word] + Words(items[1..])
  }

  lemma {:induction false} FieldsSkipBlank(gap: string, rest: string)
    requires Blank(gap)
    ensures Fields(gap + rest) == Fields(rest)
  {
    hide IsSpace;
    if gap == "" {
      assert gap + rest == rest;
    } else {
      assert (gap + rest)[1..] == gap[1..] + rest;
      FieldsSkipBlank(gap[1..], rest);
    }
  }

  lemma {:induction false} WordEndAt(word: string, rest: string)
    requires Solid(word) && (rest == "" || IsSpace(rest[0]))
    ensures WordEnd(word + rest) == |word|
  {
    hide IsSpace;
    if word == "" {
      assert word + rest == rest;
    } else {
      assert (word + rest)[1..] == word[1..] + rest;
      WordEndAt(word[1..], rest);
    }
  }

  lemma FirstField(word: string, gap: string, more: string)
    requires word != "" && Solid(word) && Blank(gap) && (gap == "" ==> more == "")
    ensures Fields(word + gap + more) == [word] + Fields(gap + more)
  {
    var s := word + gap + more;
    assert s == word + (gap + more);
    assert word[0] in word;
    assert gap != "" ==> gap[0] in gap;
    hide IsSpace, Solid, Blank;
    WordEndAt(word, gap + more);
    assert s[..|word|] == word && s[|word|..] == gap + more;
  }

  /** The fields of text are its words, in order, whatever white space stands around them. */
  lemma {:induction false} FieldsOfSpread(lead: string, items: seq<Item>)
    requires Blank(lead) && Gapped(items) && SolidWords(items)
    ensures Fields(lead + Spread(items)) == Words(items)
    decreases |items|
  {
    FieldsSkipBlank(lead, Spread(items));
    hide IsSpace, Blank, Solid;
    if items != [] {
      hide Fields;
      FieldsOfSpread(items[0].gap, items[1..]);
      assert items[0].gap == "" ==> items[1..] == [];
      hide Gapped, SolidWords;
      FirstField(items[0].word, items[0].gap, Spread(items[1..]));
    }
  }

  lemma PrependWord(s: string, n: nat, gap: string, rest: seq<Item>)
    requires n <= |s| && (n < |s| ==> IsSpace(s[n]))
    requires s[n..] == gap + Spread(rest)
    requires Blank(gap) && Gapped(rest) && SolidWords(rest)
    ensures var items := [Item(s[..n], gap)] + rest;
            && s == "" + Spread(items) && Gapped(items) && Words(items) == [s[..n]] + Words(rest)
  {
    var items := [Item(s[..n], gap)] + rest;
    assert items[1..] == rest;
    hide IsSpace;
    assert s == s[..n] + s[n..];
    if rest != [] {
      assert Spread(rest) == rest[0].word + (rest[0].gap + Spread(rest[1..]));
      assert rest[0].word[0] in rest[0].word;
      assert !IsSpace(Spread(rest)[0]);
    }
    hide Spread, Words, Solid;
    assert forall k | 0 < k < |items| :: items[k] == rest[k - 1];
  }

  /** Every text is laid out like that around its fields, so `Fields` has no other answer. */
  lemma {:induction false} FieldsLayout(s: string) returns (lead: string, items: seq<Item>)
    ensures Blank(lead) && Gapped(items) && SolidWords(items)
    ensures s == lead + Spread(items) && Words(items) == Fields(s)
    decreases |s|
  {
    if s == "" {
      lead, items := "", [];
    } else if IsSpace(s[0]) {
      lead, items := FieldsLayout(s[1..]);
      lead := [s[0]] + lead;
    } else {
      var n := WordEnd(s);
      var gap, rest := FieldsLayout(s[n..]);
      lead, items := "", [Item(s[..n], gap)] + rest;
      PrependWord(s, n, gap, rest);
    }
  }

  lemma {:induction false} FieldsAreSolid(s: string)
    ensures forall f | f in Fields(s) :: f != "" && Solid(f)
    decreases |s|
  {
    hide IsSpace;
    if s != "" {
      FieldsAreSolid(if IsSpace(s[0]) then s[1..] else s[WordEnd(s)..]);
    }
  }

  // ---- references ----

  datatype Reference = Reference(sender: string, identifier: string, sent: string)

  function Print(r: Reference): string {
    r.sender + "," + r.identifier + "," + r.sent
  }

  function ParseToken(token: string): Reference {
    var p := SplitN(token, ',', 3);
    Reference(p[0], if |p| > 1 then p[1] else "", if |p| > 2 then p[2] else "")
  }

  /** The tokens that name an alert, parsed. */
  function Named(tokens: seq<string>): seq<Reference> {
    if tokens == [] then []
    else
      var r := ParseToken(tokens[0]);
      (if r.identifier == "" then [] else [r]) + Named(tokens[1..])
  }

  function References(s: string): seq<Reference> {
    Named(Fields(s))
  }

  lemma {:induction false} NamedSnoc(tokens: seq<string>, token: string)
    ensures var r := ParseToken(token);
            Named(tokens + [token]) == Named(tokens) + (if r.identifier == "" then [] else [r])
  {
    hide ParseToken;
    if tokens == [] {
      assert [token][1..] == [];
    } else {
      assert (tokens + [token])[1..] == tokens[1..] + [token];
      NamedSnoc(tokens[1..], token);
      var first, last := ParseToken(tokens[0]), ParseToken(token);
      AppendThree(if first.identifier == "" then [] else [first], Named(tokens[1..]),
                  if last.identifier == "" then [] else [last]);
    }
  }

  lemma AppendThree(a: seq<Reference>, b: seq<Reference>, c: seq<Reference>)
    ensures a + (b + c) == a + b + c
  {
  }

  lemma NamedStep(tokens: seq<string>, i: nat)
    requires i < |tokens|
    ensures var r := ParseToken(tokens[i]);
            Named(tokens[..i + 1]) == Named(tokens[..i]) + (if r.identifier == "" then [] else [r])
  {
    assert tokens[..i + 1] == tokens[..i] + [tokens[i]];
    NamedSnoc(tokens[..i], tokens[i]);
  }

  method ParseReferences(s: string) returns (out: seq<Reference>)
    ensures out == References(s)
  {
    out := [];
    var tokens := Fields(s);
    assert Named(tokens[..0]) == [];
    hide Fields, SplitN, Named;
    for i := 0 to |tokens|
      invariant out == Named(tokens[..i])
    {
      var parts := SplitN(tokens[i], ',', 3);
      var r := Reference(parts[0], "", "");
      if |parts| > 1 {
        r := r.(identifier := parts[1]);
      }
      if |parts| > 2 {
        r := r.(sent := parts[2]);
      }
      assert r == ParseToken(tokens[i]);
      hide ParseToken;
      NamedStep(tokens, i);
      if r.identifier != "" {
        out := out + [r];
      }
    }
    assert tokens[..|tokens|] == tokens;
  }

  /** What CAP 1.2 section 3.2.1 promises of a reference, and that it names an alert. */
  predicate WellFormed(r: Reference) {
    && Solid(r.sender) && Solid(r.identifier) && Solid(r.sent)
    && ',' !in r.sender && ',' !in r.identifier && r.identifier != ""
  }

  lemma {:induction false} SplitKeeps(s: string, sep: char, n: nat)
    requires n >= 1
    ensures forall k, c | 0 <= k < |SplitN(s, sep, n)| && c in SplitN(s, sep, n)[k] :: c in s
    decreases n
  {
    var i := IndexOf(s, sep);
    if n > 1 && i < |s| {
      SplitKeeps(s[i + 1..], sep, n - 1);
      var p, more := SplitN(s, sep, n), SplitN(s[i + 1..], sep, n - 1);
      assert p == [s[..i]] + more;
      forall k, c | 0 <= k < |p| && c in p[k] ensures c in s {
        if k > 0 {
          assert c in more[k - 1];
          assert c in s[i + 1..];
        }
      }
    }
  }

  lemma TokenIsWellFormed(token: string)
    requires Solid(token) && ParseToken(token).identifier != ""
    ensures WellFormed(ParseToken(token))
  {
    SplitKeeps(token, ',', 3);
    hide IsSpace, SplitN;
  }

  lemma {:induction false} NamedAreWellFormed(tokens: seq<string>)
    requires forall t | t in tokens :: Solid(t)
    ensures forall r | r in Named(tokens) :: WellFormed(r)
  {
    hide Solid, WellFormed, ParseToken;
    if tokens != [] {
      if ParseToken(tokens[0]).identifier != "" {
        TokenIsWellFormed(tokens[0]);
      }
      NamedAreWellFormed(tokens[1..]);
    }
  }

  /** Whatever the text, only well-formed references come out of it. */
  lemma ParsedAreWellFormed(s: string)
    ensures forall r | r in References(s) :: WellFormed(r)
  {
    FieldsAreSolid(s);
    NamedAreWellFormed(Fields(s));
  }

  lemma PrintIsJoin(r: Reference)
    ensures Print(r) == Join([r.sender, r.identifier, r.sent], ',')
  {
    var p := [r.sender, r.identifier, r.sent];
    assert p[1..] == [r.identifier, r.sent] && p[1..][1..] == [r.sent];
    assert Join(p[1..], ',') == r.identifier + [','] + r.sent;
    assert r.sender + [','] + (r.identifier + [','] + r.sent) == Print(r);
  }

  lemma TokenRoundTrip(r: Reference)
    requires WellFormed(r)
    ensures ParseToken(Print(r)) == r && Solid(Print(r)) && Print(r) != ""
  {
    PrintIsJoin(r);
    var p := [r.sender, r.identifier, r.sent];
    assert !IsSpace(',');
    hide Join, IsSpace;
    SplitOfJoin(p, ',');
  }

  /** Printing what was read gives back the token exactly when it has all three parts. */
  lemma TokenPrintsBack(token: string)
    ensures Print(ParseToken(token)) == token <==> |SplitN(token, ',', 3)| == 3
  {
    var p := SplitN(token, ',', 3);
    JoinOfSplit(token, ',', 3);
    PrintIsJoin(ParseToken(token));
    hide SplitN, IndexOf;
    if |p| == 3 {
      assert p == [p[0], p[1], p[2]];
    } else {
      ShortJoin(p);
    }
  }

  lemma ShortJoin(p: seq<string>)
    requires 1 <= |p| <= 2
    ensures |Join(p, ',')| < |p[0]| + 1 + (if |p| > 1 then |p[1]| else 0) + 1
  {
  }

  /** The items print the references in order. */
  predicate Prints(items: seq<Item>, rs: seq<Reference>) {
    |items| == |rs| && forall k | 0 <= k < |items| :: items[k].word == Print(rs[k])
  }

  lemma {:induction false} NamedOfPrinted(items: seq<Item>, rs: seq<Reference>)
    requires Prints(items, rs) && forall r | r in rs :: WellFormed(r)
    ensures SolidWords(items) && Named(Words(items)) == rs
  {
    hide Print, ParseToken, Solid;
    if rs != [] {
      TokenRoundTrip(rs[0]);
      assert rs[0].identifier != "" by { assert WellFormed(rs[0]); }
      hide WellFormed;
      NamedOfPrinted(items[1..], rs[1..]);
      assert rs == [rs[0]] + rs[1..];
      forall k | 0 <= k < |items| ensures items[k].word != "" && Solid(items[k].word) {
        assert k > 0 ==> items[k] == items[1..][k - 1];
      }
    }
  }

  /** However a list of references is laid out with white space, reading it returns that list in
      order if and only if every one of them is well formed. */
  lemma ReferencesRoundTrip(lead: string, items: seq<Item>, rs: seq<Reference>)
    requires Blank(lead) && Gapped(items) && Prints(items, rs)
    ensures References(lead + Spread(items)) == rs <==> forall r | r in rs :: WellFormed(r)
  {
    ParsedAreWellFormed(lead + Spread(items));
    hide WellFormed, Prints, Named, Fields, Spread, Words;
    if forall r | r in rs :: WellFormed(r) {
      NamedOfPrinted(items, rs);
      FieldsOfSpread(lead, items);
    }
  }

  // ---- alert ids ----

  /** The 24 hexadecimal digits an id keeps of the hash. */
  function Digest(sha: string -> string, text: string): string
    requires IsSha(sha)
  {
    sha(text)[..24]
  }

  function AlertId(sha: string -> string, sender: string, identifier: string): string
    requires IsSha(sha)
  {
    "cap-" + Digest(sha, sender + "\0" + identifier)
  }

  /** Two different texts whose kept digits agree. */
  ghost predicate DigestClash(sha: string -> string, x: string, y: string)
    requires IsSha(sha)
  {
    x != y && sha(x)[..24] == sha(y)[..24]
  }

  /** An id is "cap-" and 24 hexadecimal digits of the hash, which makes it safe as an MQTT topic level. */
  lemma IdIsTopicSafe(sha: string -> string, sender: string, identifier: string)
    requires IsSha(sha) && forall x, c | c in sha(x) :: '0' <= c <= '9' || 'a' <= c <= 'f'
    ensures var id := AlertId(sha, sender, identifier);
            && |id| == 28 && "cap-" <= id && id[4..] <= sha(sender + "\0" + identifier)
            && forall c | c in id :: c in "cap-" || '0' <= c <= '9' || 'a' <= c <= 'f'
    ensures var id := AlertId(sha, sender, identifier);
            '/' !in id && '+' !in id && '#' !in id && ' ' !in id
  {
    var hash := sha(sender + "\0" + identifier);
    assert forall c | c in hash[..24] :: c in hash;
  }

  /** Senders hold no NUL (no XML document can), so an id stands for one sender and identifier,
      or two different texts clash. */
  lemma IdNamesOneAlert(sha: string -> string, s: string, i: string, s': string, i': string)
    requires IsSha(sha) && '\0' !in s && '\0' !in s'
    requires AlertId(sha, s, i) == AlertId(sha, s', i')
    ensures (s == s' && i == i') || DigestClash(sha, s + "\0" + i, s' + "\0" + i')
  {
    var x, y := s + ['\0'] + i, s' + ['\0'] + i';
    var a, b := AlertId(sha, s, i), AlertId(sha, s', i');
    hide Digest;
    assert a[4..] == Digest(sha, x) && b[4..] == Digest(sha, y);
    if x == y {
      IndexOfAppend(s, '\0', i);
      IndexOfAppend(s', '\0', i');
      assert x[..|s|] == s && y[..|s'|] == s';
      assert x[|s| + 1..] == i && y[|s'| + 1..] == i';
    }
  }

  // ---- export and ingest ----

  datatype Alert = Alert(id: string, typ: string, issuedAt: int, cancels: string)

  datatype Document = Document(msgType: string, sender: string, identifier: string, sent: string, references: string)

  /** The fields of ToXML that a recall depends on. */
  function Export(a: Alert, sender: string, rfc3339: int -> string): Document {
    var cancel := a.typ == "cancel";
    Document(if cancel then "Cancel" else "Alert", sender, a.id, rfc3339(a.issuedAt),
             if cancel then sender + "," + a.cancels + "," + rfc3339(a.issuedAt) else "")
  }

  /** The id under which a document other than a cancel is published: an update takes over the
      first alert it references. */
  function IngestId(sha: string -> string, doc: Document): string
    requires IsSha(sha)
  {
    var refs := References(doc.references);
    if doc.msgType == "Update" && refs != [] then AlertId(sha, refs[0].sender, refs[0].identifier)
    else AlertId(sha, doc.sender, doc.identifier)
  }

  function RecalledIds(sha: string -> string, refs: seq<Reference>): seq<string>
    requires IsSha(sha)
    ensures |RecalledIds(sha, refs)| == |refs|
    ensures forall k | 0 <= k < |refs| :: RecalledIds(sha, refs)[k] == AlertId(sha, refs[k].sender, refs[k].identifier)
  {
    seq(|refs|, k requires 0 <= k < |refs| => AlertId(sha, refs[k].sender, refs[k].identifier))
  }

  datatype Outcome = BadRequest | BadGateway(recalled: seq<string>) | Recalled(ids: seq<string>)

  /** handleCAPCancel; `published` says for which ids the signed cancel got out. */
  method CapCancel(sha: string -> string, references: string, published: string -> bool) returns (r: Outcome)
    requires IsSha(sha)
    ensures r == BadRequest <==> References(references) == []
    ensures r.Recalled? ==> r.ids == RecalledIds(sha, References(references))
                            && forall k | 0 <= k < |r.ids| :: published(r.ids[k])
    ensures r.BadGateway? ==>
      var ids := RecalledIds(sha, References(references));
      r.recalled < ids && !published(ids[|r.recalled|])
      && forall k | 0 <= k < |r.recalled| :: published(ids[k])
  {
    hide *;
    var refs := ParseReferences(references);
    if refs == [] {
      return BadRequest;
    }
    ghost var ids := RecalledIds(sha, refs);
    var cancelled := [];
    for i := 0 to |refs|
      invariant |cancelled| == i && cancelled <= ids
      invariant forall k | 0 <= k < i :: published(ids[k])
    {
      var id := AlertId(sha, refs[i].sender, refs[i].identifier);
      if !published(id) {
        return BadGateway(cancelled);
      }
      cancelled := cancelled + [id];
    }
    r := Recalled(cancelled);
  }

  /** An exported document names its alert, sender and time, and only a cancel references anything. */
  lemma ExportKind(a: Alert, sender: string, rfc3339: int -> string)
    ensures var doc := Export(a, sender, rfc3339);
            && doc.sender == sender && doc.identifier == a.id && doc.sent == rfc3339(a.issuedAt)
            && (a.typ == "cancel" <==> doc.msgType == "Cancel") && (a.typ != "cancel" <==> doc.msgType == "Alert")
            && (a.typ != "cancel" ==> References(doc.references) == [])
  {
  }

  /** The reference an exported cancel carries reads back exactly when it is well formed. */
  lemma ExportedReference(c: Alert, sender: string, rfc3339: int -> string)
    requires c.typ == "cancel"
    ensures var r := Reference(sender, c.cancels, rfc3339(c.issuedAt));
            References(Export(c, sender, rfc3339).references) == [r] <==> WellFormed(r)
  {
    var r := Reference(sender, c.cancels, rfc3339(c.issuedAt));
    var items := [Item(Print(r), "")];
    assert items[1..] == [];
    assert "" + Spread(items) == Print(r);
    hide WellFormed, References;
    ReferencesRoundTrip("", items, [r]);
  }

  lemma {:induction false} FieldsKeep(s: string, c: char)
    requires c !in s
    ensures forall f | f in Fields(s) :: c !in f
    decreases |s|
  {
    hide IsSpace;
    if s != "" {
      FieldsKeep(if IsSpace(s[0]) then s[1..] else s[WordEnd(s)..], c);
    }
  }

  lemma {:induction false} SendersKeep(tokens: seq<string>, c: char)
    requires forall t | t in tokens :: c !in t
    ensures forall r | r in Named(tokens) :: c !in r.sender
  {
    if tokens != [] {
      assert tokens[0] in tokens;
      SplitKeeps(tokens[0], ',', 3);
      assert c !in SplitN(tokens[0], ',', 3)[0];
      assert c !in ParseToken(tokens[0]).sender;
      hide ParseToken;
      SendersKeep(tokens[1..], c);
      assert forall r | r in Named(tokens) :: r == ParseToken(tokens[0]) || r in Named(tokens[1..]);
    }
  }

  /** A cancel of an alert, exported, recalls at the receiver just the id under which the exported
      alert was published there, whenever sender and id are fit for a reference. The time the
      reference carries is the cancel's own. */
  lemma CancelReachesOriginal(sha: string -> string, a: Alert, c: Alert, sender: string, rfc3339: int -> string)
    requires IsSha(sha) && a.typ == "alert" && c.typ == "cancel" && c.cancels == a.id
    requires WellFormed(Reference(sender, a.id, rfc3339(c.issuedAt)))
    ensures RecalledIds(sha, References(Export(c, sender, rfc3339).references))
      == [IngestId(sha, Export(a, sender, rfc3339))]
  {
    ExportedReference(c, sender, rfc3339);
    hide WellFormed, References, AlertId;
  }

  /** It does so only then: if the right id is recalled although sender or id was unfit, the text
      hashed for the reference read and the text hashed for the alert clash. */
  lemma UnfitReferenceMisses(sha: string -> string, a: Alert, c: Alert, sender: string, rfc3339: int -> string)
    requires IsSha(sha) && a.typ == "alert" && c.typ == "cancel" && c.cancels == a.id
    requires Solid(rfc3339(c.issuedAt)) && !WellFormed(Reference(sender, a.id, rfc3339(c.issuedAt)))
    requires '\0' !in sender && '\0' !in Export(c, sender, rfc3339).references
    ensures var refs := References(Export(c, sender, rfc3339).references);
            var id := IngestId(sha, Export(a, sender, rfc3339));
            RecalledIds(sha, refs) == [id] ==>
              |refs| == 1 && DigestClash(sha, refs[0].sender + "\0" + refs[0].identifier, sender + "\0" + a.id)
  {
    var text := Export(c, sender, rfc3339).references;
    var refs := References(text);
    ParsedAreWellFormed(text);
    FieldsKeep(text, '\0');
    SendersKeep(Fields(text), '\0');
    var id := IngestId(sha, Export(a, sender, rfc3339));
    assert id == AlertId(sha, sender, a.id);
    hide IsSpace, Fields, Named, Export, AlertId, IngestId, DigestClash;
    var ids := RecalledIds(sha, refs);
    if ids == [id] {
      assert |ids| == |refs|;
      var q := refs[0];
      assert ids[0] == AlertId(sha, q.sender, q.identifier);
      assert q in refs;
      IdNamesOneAlert(sha, q.sender, q.identifier, sender, a.id);
    }
  }

  /** An update is published under the id of what it updates, so a cancel that references only the
      update's own identifier recalls that id if and only if the update names itself first, or two
      texts clash. */
  lemma CancelOfUpdateMisses(sha: string -> string, update: Document, cancel: string)
    requires IsSha(sha) && update.msgType == "Update" && References(update.references) != []
    requires '\0' !in update.sender && '\0' !in update.references
    requires forall r | r in References(cancel) :: r.sender == update.sender && r.identifier == update.identifier
    ensures var first := References(update.references)[0];
            || (IngestId(sha, update) in RecalledIds(sha, References(cancel))
                <==> References(cancel) != [] && (first.sender, first.identifier) == (update.sender, update.identifier))
            || DigestClash(sha, first.sender + "\0" + first.identifier, update.sender + "\0" + update.identifier)
  {
    var first, refs := References(update.references)[0], References(cancel);
    FieldsKeep(update.references, '\0');
    SendersKeep(Fields(update.references), '\0');
    assert first in References(update.references);
    assert IngestId(sha, update) == AlertId(sha, first.sender, first.identifier);
    hide References, AlertId, IngestId, DigestClash, IsSpace;
    var ids := RecalledIds(sha, refs);
    if refs != [] {
      assert refs[0] in refs && ids[0] in ids;
    }
    if IngestId(sha, update) in ids {
      var k :| 0 <= k < |ids| && ids[k] == IngestId(sha, update);
      assert refs[k] in refs;
      IdNamesOneAlert(sha, first.sender, first.identifier, update.sender, update.identifier);
    }
  }
}
