/** When the gzip writer compresses, on which head, and for which content types. */
module GzipPolicy {
  import opened Text
  import opened GzipWriter

  // ---- the decision ----

  /** The response is still undecided if and only if nothing was flushed and less than the threshold
      written; it then stands to be sent as it is. */
  lemma {:induction false} OpenIff(calls: seq<Call>)
    ensures FateOf(calls).Open? <==> (forall i | 0 <= i < |calls| :: !calls[i].Flush?) && |Written(calls)| < 1024
    ensures FateOf(calls).Open? ==> SentHead(calls) == Head(StatusOf(calls), HeaderOf(calls))
  {
    hide CompressibleType, Success;
    if calls != [] {
      var n := |calls| - 1;
      OpenIff(calls[..n]);
      assert calls == calls[..n] + [calls[n]];
      assert forall i | 0 <= i < n :: calls[..n][i] == calls[i];
    }
  }

  /** The decision falls with one call and for good: a flush leaves the body as it is, a write compresses
      it if what is written by then is long enough, successful and of a compressible type. The head is the
      one chosen by then, rewritten if the body is compressed, and no later call changes it. */
  lemma {:induction false} DecidedAt(calls: seq<Call>, n: nat)
    requires n < |calls| && FateOf(calls[..n]).Open? && !FateOf(calls[..n + 1]).Open?
    ensures calls[n].Flush? || calls[n].Write?
    ensures var sofar := calls[..n + 1];
            && FateOf(calls) == (if calls[n].Write? && |Written(sofar)| >= 1024 && 200 <= StatusOf(sofar) <= 299
                                    && CompressibleType(HeaderOf(sofar).contentType)
                                 then Compressed else Identity)
            && SentHead(calls) == (if FateOf(calls).Compressed?
                                   then Head(StatusOf(sofar), Header(HeaderOf(sofar).contentType, None, true))
                                   else Head(StatusOf(sofar), HeaderOf(sofar)))
    decreases |calls|
  {
    hide CompressibleType, FateOf, SentHead, Written, StatusOf, HeaderOf;
    var m := |calls| - 1;
    if n < m {
      assert calls[..m][..n] == calls[..n] && calls[..m][..n + 1] == calls[..n + 1];
      DecidedAt(calls[..m], n);
      OneMore(calls[..m], calls[m]);
      assert calls == calls[..m] + [calls[m]];
    } else {
      assert calls[..n + 1] == calls;
      assert calls == calls[..n] + [calls[n]];
      DecidedNow(calls[..n], calls[n]);
    }
  }

  lemma DecidedNow(front: seq<Call>, c: Call)
    requires FateOf(front).Open? && !FateOf(front + [c]).Open?
    ensures c.Flush? || c.Write?
    ensures var sofar := front + [c];
            && FateOf(sofar) == (if c.Write? && |Written(sofar)| >= 1024 && 200 <= StatusOf(sofar) <= 299
                                    && CompressibleType(HeaderOf(sofar).contentType)
                                 then Compressed else Identity)
            && SentHead(sofar) == (if FateOf(sofar).Compressed?
                                   then Head(StatusOf(sofar), Header(HeaderOf(sofar).contentType, None, true))
                                   else Head(StatusOf(sofar), HeaderOf(sofar)))
  {
    hide CompressibleType, FateOf, SentHead, Written, StatusOf, HeaderOf;
    OneMore(front, c);
  }

  /** The first status chosen counts, and writing without one chooses 200. */
  lemma {:induction false} FirstStatusWins(before: seq<Call>, c: Call, rest: seq<Call>)
    requires forall i | 0 <= i < |before| :: !before[i].WriteHeader? && !before[i].Write?
    requires c.WriteHeader? || c.Write?
    ensures StatusOf(before + [c] + rest) == if c.WriteHeader? then c.status else 200
    ensures HasStatus(before + [c] + rest)
  {
    if rest == [] {
      NoStatusYet(before);
      OneMore(before, c);
      assert before + [c] + rest == before + [c];
    } else {
      var m := |rest| - 1;
      FirstStatusWins(before, c, rest[..m]);
      OneMore(before + [c] + rest[..m], rest[m]);
      assert before + [c] + rest == before + [c] + rest[..m] + [rest[m]];
    }
  }

  lemma {:induction false} NoStatusYet(calls: seq<Call>)
    requires forall i | 0 <= i < |calls| :: !calls[i].WriteHeader? && !calls[i].Write?
    ensures !HasStatus(calls) && StatusOf(calls) == 200
  {
    if calls != [] {
      NoStatusYet(calls[..|calls| - 1]);
    }
  }

  /** The last edit of the headers counts. */
  lemma {:induction false} LastHeaderWins(before: seq<Call>, contentType: string, length: Option<int>, rest: seq<Call>)
    requires forall i | 0 <= i < |rest| :: !rest[i].SetHeader?
    ensures HeaderOf(before + [SetHeader(contentType, length)] + rest) == Header(contentType, length, false)
  {
    var c := SetHeader(contentType, length);
    if rest == [] {
      OneMore(before, c);
      assert before + [c] + rest == before + [c];
    } else {
      var m := |rest| - 1;
      LastHeaderWins(before, contentType, length, rest[..m]);
      OneMore(before + [c] + rest[..m], rest[m]);
      assert before + [c] + rest == before + [c] + rest[..m] + [rest[m]];
    }
  }

  // ---- content types ----

  predicate AllBlank(s: string) {
    forall i | 0 <= i < |s| :: Blank(s[i])
  }

  /** A media type as it stands in a header, without white space at its ends. */
  predicate Tight(ct: string) {
    ';' !in ct && (ct == "" || (!Blank(ct[0]) && !Blank(ct[|ct| - 1])))
  }

  lemma {:induction false} TrimLeftOf(pad: string, s: string)
    requires AllBlank(pad) && (s == "" || !Blank(s[0]))
    ensures TrimLeft(pad + s) == s
  {
    if pad == "" {
      assert pad + s == s;
    } else {
      assert (pad + s)[1..] == pad[1..] + s;
      TrimLeftOf(pad[1..], s);
    }
  }

  lemma {:induction false} TrimRightOf(s: string, pad: string)
    requires AllBlank(pad) && (s == "" || !Blank(s[|s| - 1]))
    ensures TrimRight(s + pad) == s
  {
    if pad == "" {
      assert s + pad == s;
    } else {
      var n := |pad| - 1;
      assert (s + pad)[..|s + pad| - 1] == s + pad[..n];
      TrimRightOf(s, pad[..n]);
    }
  }

  lemma {:induction false} TrimLeftBlank(pad: string)
    requires AllBlank(pad)
    ensures TrimLeft(pad) == ""
  {
    if pad != "" {
      TrimLeftBlank(pad[1..]);
    }
  }

  lemma TrimBoth(left: string, ct: string, right: string)
    requires AllBlank(left) && AllBlank(right) && Tight(ct)
    ensures TrimRight(TrimLeft(left + ct + right)) == ct
  {
    if ct == "" {
      assert left + ct + right == left + right;
      TrimLeftBlank(left + right);
    } else {
      assert left + ct + right == left + (ct + right);
      TrimLeftOf(left, ct + right);
      TrimRightOf(ct, right);
    }
  }

  lemma FirstOfSplit(s: string, parameters: string)
    requires ';' !in s && (parameters == "" || parameters[0] == ';')
    ensures SplitN(s + parameters, ';', 2)[0] == s
  {
    if parameters == "" {
      assert s + parameters == s;
    } else {
      assert s + parameters == s + [';'] + parameters[1..];
      SplitStep(s, ';', parameters[1..], 2);
    }
  }

  /** Which types are compressible: text of any kind, scripts, JSON and XML, SVG, web manifests and SAML metadata; in
      any case of letters, whatever white space stands around them and whatever parameters follow. */
  lemma CompressibleIff(left: string, ct: string, right: string, parameters: string)
    requires AllBlank(left) && AllBlank(right) && Tight(ct) && (parameters == "" || parameters[0] == ';')
    ensures CompressibleType(left + ct + right + parameters) <==>
              || "text/" <= Lower(ct)
              || Lower(ct) == "application/javascript" || Lower(ct) == "application/json"
              || Lower(ct) == "application/xml" || Lower(ct) == "image/svg+xml"
              || Lower(ct) == "application/manifest+json" || Lower(ct) == "application/samlmetadata+xml"
  {
    hide TrimLeft, TrimRight, SplitN, Lower;
    var s := left + ct + right;
    assert ';' !in s by {
      assert ';' !in left && ';' !in right;
    }
    FirstOfSplit(s, parameters);
    TrimBoth(left, ct, right);
    TextKinds(Lower(ct));
  }

  lemma TextKinds(s: string)
    ensures s in ["text/javascript", "text/html", "text/css", "text/plain", "text/xml"] ==> "text/" <= s
  {
  }
}
