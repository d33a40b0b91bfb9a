/** What the hash chain proves: distinct hashes, tamper evidence, and which edits are located. */
module AuditChain {
  import opened AuditCodec
  import opened AuditLog

  /** Two different byte strings, one hashed for a row of `a` and one for a row of `b`, that have
      the same hash. */
  ghost predicate HashClash(sha: string -> string, a: seq<Row>, b: seq<Row>) {
    exists i, j | 0 <= i < |a| && 0 <= j < |b| ::
      Preimage(a[i]) != Preimage(b[j]) && sha(Preimage(a[i])) == sha(Preimage(b[j]))
  }

  /** Rows with the same recomputed hash hold the same eleven values. */
  lemma SameHashSameRow(sha: string -> string, a: seq<Row>, i: nat, b: seq<Row>, j: nat)
    requires i < |a| && j < |b|
    requires sha(Preimage(a[i])) == sha(Preimage(b[j]))
    requires !HashClash(sha, a, b)
    ensures a[i].content == b[j].content && a[i].prevHash == b[j].prevHash
  {
    CanonicalInjective(a[i].content, a[i].prevHash, b[j].content, b[j].prevHash);
  }

  lemma {:induction false} HashesDiffer(sha: string -> string, h: seq<Row>, i: nat, j: nat)
    requires IsSha(sha) && Chained(sha, "", h)
    requires i < j < |h|
    requires !HashClash(sha, h, h)
    ensures h[i].hash != h[j].hash
  {
    hide AuditCodec.Canonical;
    assert LinkOk(sha, "", h, i) && LinkOk(sha, "", h, j);
    if h[i].hash == h[j].hash {
      SameHashSameRow(sha, h, i, h, j);
      assert LinkOk(sha, "", h, j - 1);
      assert |h[j - 1].hash| == 64;
      if i > 0 {
        HashesDiffer(sha, h, i - 1, j - 1);
      }
    }
  }

  /** In a chain from genesis no hash occurs twice, even when entries are identical. */
  lemma AllHashesDistinct(sha: string -> string, h: seq<Row>)
    requires IsSha(sha) && Chained(sha, "", h)
    ensures HashClash(sha, h, h) || forall i, j | 0 <= i < j < |h| :: h[i].hash != h[j].hash
  {
    if !HashClash(sha, h, h) {
      forall i, j | 0 <= i < j < |h| ensures h[i].hash != h[j].hash {
        HashesDiffer(sha, h, i, j);
      }
    }
  }

  /** The columns the chain vouches for. */
  ghost predicate SameRecord(r: Row, s: Row) {
    r.content == s.content && r.prevHash == s.prevHash && r.hash == s.hash
  }

  /** Two logs that verify from one anchor, are equally long and end in the same hash are the
      same record, or two of the strings hashed for them collide. */
  lemma {:induction false} TamperEvidence(sha: string -> string, anchor: string, a: seq<Row>, b: seq<Row>)
    requires Chained(sha, anchor, a) && Chained(sha, anchor, b)
    requires |a| == |b|
    requires Before(anchor, a, |a|) == Before(anchor, b, |b|)
    ensures HashClash(sha, a, b) || forall i | 0 <= i < |a| :: SameRecord(a[i], b[i])
  {
    hide AuditCodec.Canonical;
    if |a| > 0 && !HashClash(sha, a, b) {
      var n := |a| - 1;
      assert LinkOk(sha, anchor, a, n) && LinkOk(sha, anchor, b, n);
      SameHashSameRow(sha, a, n, b, n);
      ChainedPrefix(sha, anchor, a, n);
      ChainedPrefix(sha, anchor, b, n);
      ClashOfPrefix(sha, a, b, n, n);
      TamperEvidence(sha, anchor, a[..n], b[..n]);
      forall i | 0 <= i < |a| ensures SameRecord(a[i], b[i]) {
        if i < n {
          assert a[..n][i] == a[i] && b[..n][i] == b[i];
        }
      }
    }
  }

  /** From genesis the length need not be known: the last hash alone fixes the whole log. */
  lemma {:induction false} GenesisTamperEvidence(sha: string -> string, a: seq<Row>, b: seq<Row>)
    requires IsSha(sha) && Chained(sha, "", a) && Chained(sha, "", b)
    requires Before("", a, |a|) == Before("", b, |b|)
    ensures HashClash(sha, a, b) || (|a| == |b| && forall i | 0 <= i < |a| :: SameRecord(a[i], b[i]))
  {
    hide AuditCodec.Canonical;
    if a != [] {
      assert LinkOk(sha, "", a, |a| - 1);
    }
    if b != [] {
      assert LinkOk(sha, "", b, |b| - 1);
    }
    if a != [] && b != [] && !HashClash(sha, a, b) {
      var n, m := |a| - 1, |b| - 1;
      SameHashSameRow(sha, a, n, b, m);
      ChainedPrefix(sha, "", a, n);
      ChainedPrefix(sha, "", b, m);
      ClashOfPrefix(sha, a, b, n, m);
      GenesisTamperEvidence(sha, a[..n], b[..m]);
      TamperEvidence(sha, "", a, b);
    }
  }

  lemma ChainedPrefix(sha: string -> string, anchor: string, a: seq<Row>, n: nat)
    requires Chained(sha, anchor, a) && n <= |a|
    ensures Chained(sha, anchor, a[..n])
    ensures Before(anchor, a[..n], n) == Before(anchor, a, n)
  {
    forall i | 0 <= i < n ensures LinkOk(sha, anchor, a[..n], i) {
      assert LinkOk(sha, anchor, a, i);
    }
  }

  lemma ClashOfPrefix(sha: string -> string, a: seq<Row>, b: seq<Row>, n: nat, m: nat)
    requires n <= |a| && m <= |b|
    ensures HashClash(sha, a[..n], b[..m]) ==> HashClash(sha, a, b)
  {
    if HashClash(sha, a[..n], b[..m]) {
      var i, j :| 0 <= i < n && 0 <= j < m &&
        Preimage(a[..n][i]) != Preimage(b[..m][j]) && sha(Preimage(a[..n][i])) == sha(Preimage(b[..m][j]));
      assert a[..n][i] == a[i] && b[..m][j] == b[j];
    }
  }

  // ---- single-row edits ----

  /** The row that fails is the first one that does. */
  lemma FirstBadIs(sha: string -> string, anchor: string, t: seq<Row>, b: nat)
    requires b <= |t|
    requires forall i | 0 <= i < b :: LinkOk(sha, anchor, t, i)
    requires b < |t| ==> !LinkOk(sha, anchor, t, b)
    ensures FirstBad(sha, anchor, t) == b
  {
    var _ := FirstBad(sha, anchor, t);
  }

  /** A verifying log verifies and no other does. */
  lemma FirstBadEnd(sha: string -> string, anchor: string, t: seq<Row>)
    ensures FirstBad(sha, anchor, t) == |t| <==> Chained(sha, anchor, t)
  {
    if Chained(sha, anchor, t) {
      FirstBadIs(sha, anchor, t, |t|);
    }
  }

  /** Exactly where verification stops when row `i` of a verifying log is replaced by `r`. An edit
      that recomputes the hash is caught one row later, and not at all in the last row. */
  lemma ReplacedRow(sha: string -> string, anchor: string, rows: seq<Row>, i: nat, r: Row)
    requires Chained(sha, anchor, rows) && i < |rows|
    ensures FirstBad(sha, anchor, rows[i := r]) ==
      if r.prevHash != rows[i].prevHash || r.hash != sha(Preimage(r)) then i
      else if i + 1 == |rows| || r.hash == rows[i].hash then |rows|
      else i + 1
  {
    var t := rows[i := r];
    forall j | 0 <= j < |t| && j != i && (j != i + 1 || r.hash == rows[i].hash) ensures LinkOk(sha, anchor, t, j) {
      assert LinkOk(sha, anchor, rows, j);
    }
    assert LinkOk(sha, anchor, rows, i);
    if i + 1 < |rows| {
      assert LinkOk(sha, anchor, rows, i + 1);
    }
    FirstBadIs(sha, anchor, t,
      if r.prevHash != rows[i].prevHash || r.hash != sha(Preimage(r)) then i
      else if i + 1 == |rows| || r.hash == rows[i].hash then |rows|
      else i + 1);
  }

  /** Changing hashed columns but not the hash, or the hash alone, is blamed on that row. */
  lemma EditIsLocated(sha: string -> string, anchor: string, rows: seq<Row>, i: nat, r: Row)
    requires Chained(sha, anchor, rows) && i < |rows|
    requires r.hash == rows[i].hash <==> (r.content, r.prevHash) != (rows[i].content, rows[i].prevHash)
    ensures FirstBad(sha, anchor, rows[i := r]) == i || HashClash(sha, [r], rows)
  {
    ReplacedRow(sha, anchor, rows, i, r);
    assert LinkOk(sha, anchor, rows, i);
    if r.hash == rows[i].hash && r.hash == sha(Preimage(r)) && !HashClash(sha, [r], rows) {
      SameHashSameRow(sha, [r], 0, rows, i);
    }
  }
}
