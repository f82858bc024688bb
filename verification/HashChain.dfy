/**
 The hash chain shared by the event store, the audit ledger and the repair script.

 `h` stands for `sha256(json.dumps(content))`. Nothing is assumed of it except that
 a hex digest is never the empty string: instead of assuming that it is injective,
 the tamper-evidence results exhibit a collision.
 */
module HashChain {
  import opened Options

  type Digest = s: string | s != "" witness "0"

  type Hasher<!C> = (C, Option<string>) -> Digest

  /** One row: its content without the two hash columns, and those columns. */
  datatype Link<C> = Link(body: C, hashPrev: Option<string>, hashSelf: string)

  predicate SelfOk<C>(h: Hasher<C>, l: Link<C>) {
    h(l.body, l.hashPrev) == l.hashSelf
  }

  /** Row `i` points at row `i - 1`; the first row's pointer is not looked at. */
  predicate PrevOk<C(==)>(s: seq<Link<C>>, i: nat)
    requires i < |s|
  {
    i > 0 ==> s[i].hashPrev == Some(s[i - 1].hashSelf)
  }

  /** What both verifiers check of a stream. */
  ghost predicate Accepted<C>(h: Hasher<C>, s: seq<Link<C>>) {
    && (forall i :: 0 <= i < |s| ==> SelfOk(h, s[i]))
    && (forall i :: 0 <= i < |s| ==> PrevOk(s, i))
  }

  /** The first row has no predecessor hash. */
  ghost predicate Rooted<C>(s: seq<Link<C>>) {
    s != [] ==> s[0].hashPrev == None
  }

  /** Two different contents with the same digest. */
  ghost predicate Collides<C>(h: Hasher<C>, a: Link<C>, b: Link<C>) {
    && (a.body, a.hashPrev) != (b.body, b.hashPrev)
    && h(a.body, a.hashPrev) == h(b.body, b.hashPrev)
  }

  ghost predicate CollisionBetween<C>(h: Hasher<C>, s: seq<Link<C>>, t: seq<Link<C>>) {
    exists i, j :: 0 <= i < |s| && 0 <= j < |t| && Collides(h, s[i], t[j])
  }

  /**
   Tamper evidence. Two accepted streams that end in the same digest agree row for row
   as far back as the shorter one reaches, or their rows contain a hash collision.
   */
  lemma {:induction false} TamperEvidence<C>(h: Hasher<C>, s: seq<Link<C>>, t: seq<Link<C>>)
    requires Accepted(h, s) && Accepted(h, t)
    requires 0 < |s| <= |t|
    requires s[|s| - 1].hashSelf == t[|t| - 1].hashSelf
    ensures s == t[|t| - |s|..] || CollisionBetween(h, s, t)
    decreases |s|
  {
    var m, n := |s| - 1, |t| - 1;
    assert SelfOk(h, s[m]) && SelfOk(h, t[n]);
    if !Collides(h, s[m], t[n]) {
      assert s[m] == t[n];
      if m > 0 {
        assert PrevOk(s, m) && PrevOk(t, n);
        AcceptedSlice(h, s, 0, m);
        AcceptedSlice(h, t, 0, n);
        var s', t' := s[0..m], t[0..n];
        TamperEvidence(h, s', t');
        if CollisionBetween(h, s', t') {
          var i, j :| 0 <= i < |s'| && 0 <= j < |t'| && Collides(h, s'[i], t'[j]);
          assert Collides(h, s[i], t[j]);
        } else {
          assert s == s' + [s[m]];
          assert t[|t| - |s|..] == t'[|t'| - |s'|..] + [t[n]];
        }
      }
    }
  }

  /** With both streams starting at a row without predecessor, the whole streams are equal. */
  lemma TamperEvidenceRooted<C>(h: Hasher<C>, s: seq<Link<C>>, t: seq<Link<C>>)
    requires Accepted(h, s) && Accepted(h, t) && Rooted(s) && Rooted(t)
    requires s != [] && t != []
    requires s[|s| - 1].hashSelf == t[|t| - 1].hashSelf
    ensures s == t || CollisionBetween(h, s, t)
  {
    if |s| <= |t| {
      TamperEvidence(h, s, t);
      assert PrevOk(t, |t| - |s|);
      assert t[|t| - |s|..][0] == t[|t| - |s|];
    } else {
      TamperEvidence(h, t, s);
      assert PrevOk(s, |s| - |t|);
      assert s[|s| - |t|..][0] == s[|s| - |t|];
      if CollisionBetween(h, t, s) {
        var i, j :| 0 <= i < |t| && 0 <= j < |s| && Collides(h, t[i], s[j]);
        assert Collides(h, s[j], t[i]);
      }
    }
  }

  /** What the verifier cannot see: any contiguous part of an accepted stream is accepted. */
  lemma AcceptedSlice<C>(h: Hasher<C>, s: seq<Link<C>>, lo: nat, hi: nat)
    requires Accepted(h, s) && lo <= hi <= |s|
    ensures Accepted(h, s[lo..hi])
  {
    var t := s[lo..hi];
    forall i | 0 <= i < |t| ensures SelfOk(h, t[i]) && PrevOk(t, i) {
      assert SelfOk(h, s[lo + i]) && PrevOk(s, lo + i);
    }
  }

  /** Removing an inner row goes unnoticed exactly when its digest repeats its predecessor's. */
  lemma RemovalDetected<C>(h: Hasher<C>, s: seq<Link<C>>, k: nat)
    requires Accepted(h, s) && 0 < k < |s| - 1
    ensures Accepted(h, s[..k] + s[k + 1..]) <==> s[k].hashSelf == s[k - 1].hashSelf
  {
    var t := s[..k] + s[k + 1..];
    assert PrevOk(s, k + 1);
    if Accepted(h, t) {
      assert PrevOk(t, k);
      assert t[k] == s[k + 1] && t[k - 1] == s[k - 1];
    }
    if s[k].hashSelf == s[k - 1].hashSelf {
      forall i | 0 <= i < |t| ensures SelfOk(h, t[i]) && PrevOk(t, i) {
        var j := if i < k then i else i + 1;
        assert t[i] == s[j] && SelfOk(h, s[j]) && PrevOk(s, j);
      }
    }
  }

  /** Appending a row keeps acceptance exactly when the row is self-consistent and points at the tail. */
  lemma AcceptedSnoc<C>(h: Hasher<C>, s: seq<Link<C>>, l: Link<C>)
    ensures Accepted(h, s + [l]) <==>
            Accepted(h, s) && SelfOk(h, l) && (s != [] ==> l.hashPrev == Some(s[|s| - 1].hashSelf))
  {
    var t := s + [l];
    if Accepted(h, t) {
      AcceptedSlice(h, t, 0, |s|);
      assert t[0..|s|] == s;
      assert SelfOk(h, t[|s|]) && PrevOk(t, |s|);
    }
    if Accepted(h, s) && SelfOk(h, l) && (s != [] ==> l.hashPrev == Some(s[|s| - 1].hashSelf)) {
      forall i | 0 <= i < |t| ensures SelfOk(h, t[i]) && PrevOk(t, i) {
        if i < |s| {
          assert SelfOk(h, s[i]) && PrevOk(s, i);
        }
      }
    }
  }
}
