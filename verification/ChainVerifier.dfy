/** The verifier `verify_integrity` runs over the events it is given. */
module ChainVerifier {
  import opened Options
  import opened Sequences
  import opened HashChain
  import opened EventTable

  datatype Kind = SelfHashMismatch | PrevHashBroken

  datatype Violation = Violation(index: nat, sequence: int, kind: Kind)

  /**
   The report of `verify_integrity`. `Raised` is the `TypeError` of slicing a missing
   `hash_prev` while a broken link is being described.
   */
  datatype Verdict =
    | Raised
    | EmptyReport
    | Report(valid: bool, checked: nat, violations: seq<Violation>, legacy: nat, active: nat)

  predicate IsViolation(h: Hasher<EventBody>, events: seq<Event>, v: Violation) {
    && v.index < |events|
    && v.sequence == events[v.index].body.sequence
    && match v.kind
       case SelfHashMismatch => !SelfOk(h, events[v.index])
       case PrevHashBroken => !PrevOk(events, v.index)
  }

  /** Events in the first quarter count as legacy. */
  function InLegacyPart(count: nat): Violation -> bool {
    (v: Violation) => v.index < count / 4
  }

  /** The violations of the events in the first quarter. */
  ghost function Legacy(events: seq<Event>, violations: seq<Violation>): set<int> {
    set k | 0 <= k < |violations| && violations[k].index < |events| / 4
  }

  /** By position, and for one event the digest before the link. */
  ghost predicate InOrder(violations: seq<Violation>) {
    forall i, j :: 0 <= i < j < |violations| ==>
      || violations[i].index < violations[j].index
      || (violations[i].index == violations[j].index
          && violations[i].kind == SelfHashMismatch && violations[j].kind == PrevHashBroken)
  }

  /** What the report says: it raises on a missing inner `hash_prev`, else lists every violation once. */
  ghost predicate IsVerdict(h: Hasher<EventBody>, events: seq<Event>, verdict: Verdict) {
    && (verdict.EmptyReport? <==> events == [])
    && (verdict.Raised? <==> exists i :: 0 < i < |events| && events[i].hashPrev == None)
    && (verdict.Report? ==>
          && verdict.checked == |events|
          && (verdict.valid <==> Accepted(h, events))
          && (forall v :: v in verdict.violations <==> IsViolation(h, events, v))
          && InOrder(verdict.violations)
          && verdict.legacy == |Legacy(events, verdict.violations)|
          && verdict.legacy + verdict.active == |verdict.violations|)
  }

  /** The violations of the first `i` events, in order. */
  ghost predicate Found(h: Hasher<EventBody>, events: seq<Event>, i: nat, violations: seq<Violation>) {
    && (forall v :: v in violations <==> v.index < i && IsViolation(h, events, v))
    && InOrder(violations)
  }

  /** The violations of event `i`: its digest and its link. */
  function FoundAt(h: Hasher<EventBody>, events: seq<Event>, i: nat): seq<Violation>
    requires i < |events|
  {
    var seqno := events[i].body.sequence;
    (if SelfOk(h, events[i]) then [] else [Violation(i, seqno, SelfHashMismatch)])
    + (if PrevOk(events, i) then [] else [Violation(i, seqno, PrevHashBroken)])
  }

  lemma FoundStep(h: Hasher<EventBody>, events: seq<Event>, i: nat, violations: seq<Violation>)
    requires i < |events| && Found(h, events, i, violations)
    ensures Found(h, events, i + 1, violations + FoundAt(h, events, i))
  {
    var all, here := violations + FoundAt(h, events, i), FoundAt(h, events, i);
    forall v ensures v in here <==> v.index == i && IsViolation(h, events, v) {
      if v.index == i && IsViolation(h, events, v) {
        assert v == Violation(i, events[i].body.sequence, v.kind);
      }
    }
    forall k | 0 <= k < |violations| ensures violations[k].index < i {
      assert violations[k] in violations;
    }
    assert forall v :: v in all <==> v in violations || v in here;
  }

  lemma LegacyCounted(events: seq<Event>, violations: seq<Violation>)
    ensures |Filter(InLegacyPart(|events|), violations)| == |Legacy(events, violations)|
  {
    FilterCount(InLegacyPart(|events|), violations);
    assert Selected(InLegacyPart(|events|), violations) == Legacy(events, violations);
  }

  lemma ReportIsVerdict(h: Hasher<EventBody>, events: seq<Event>, violations: seq<Violation>,
                        legacy: nat, active: nat)
    requires events != [] && Found(h, events, |events|, violations)
    requires forall j :: 0 < j < |events| ==> events[j].hashPrev != None
    requires legacy == |Filter(InLegacyPart(|events|), violations)| && legacy + active == |violations|
    ensures IsVerdict(h, events, Report(violations == [], |events|, violations, legacy, active))
  {
    LegacyCounted(events, violations);
    forall v ensures v in violations <==> IsViolation(h, events, v) {
      assert v in violations <==> v.index < |events| && IsViolation(h, events, v);
    }
    NoViolationIffAccepted(h, events, violations);
  }

  /** The loop of `verify_integrity` over the events it was given. */
  method CheckChain(h: Hasher<EventBody>, events: seq<Event>) returns (verdict: Verdict)
    ensures IsVerdict(h, events, verdict)
  {
    if events == [] {
      return EmptyReport;
    }
    var violations: seq<Violation> := [];
    var prevHash: Option<string> := None;
    var n := |events|;
    for i := 0 to n
      invariant prevHash == if i == 0 then None else Some(events[i - 1].hashSelf)
      invariant forall j :: 0 < j < i ==> events[j].hashPrev != None
      invariant Found(h, events, i, violations)
    {
      FoundStep(h, events, i, violations);
      ghost var found := violations + FoundAt(h, events, i);
      var event := events[i];
      if h(event.body, event.hashPrev) != event.hashSelf {
        violations := violations + [Violation(i, event.body.sequence, SelfHashMismatch)];
      }
      if i > 0 && event.hashPrev != prevHash {
        if event.hashPrev == None {
          return Raised;
        }
        violations := violations + [Violation(i, event.body.sequence, PrevHashBroken)];
      }
      prevHash := Some(event.hashSelf);
      assert violations == found;
    }
    var legacy, active := CountByAge(n, violations);
    ReportIsVerdict(h, events, violations, legacy, active);
    return Report(violations == [], n, violations, legacy, active);
  }

  /** The loop that sorts violations into legacy and active. */
  method CountByAge(n: nat, violations: seq<Violation>) returns (legacy: nat, active: nat)
    ensures legacy == |Filter(InLegacyPart(n), violations)|
    ensures legacy + active == |violations|
  {
    legacy, active := 0, 0;
    for k := 0 to |violations|
      invariant legacy + active == k
      invariant legacy == |Filter(InLegacyPart(n), violations[..k])|
    {
      assert violations[..k + 1] == violations[..k] + [violations[k]];
      FilterSnoc(InLegacyPart(n), violations[..k], violations[k]);
      if violations[k].index < n / 4 {
        legacy := legacy + 1;
      } else {
        active := active + 1;
      }
    }
    assert violations[..|violations|] == violations;
  }

  lemma NoViolationIffAccepted(h: Hasher<EventBody>, events: seq<Event>, violations: seq<Violation>)
    requires forall v :: v in violations <==> IsViolation(h, events, v)
    ensures violations == [] <==> Accepted(h, events)
  {
    if violations != [] {
      assert IsViolation(h, events, violations[0]);
    } else {
      forall i | 0 <= i < |events| ensures SelfOk(h, events[i]) && PrevOk(events, i) {
        var seqno := events[i].body.sequence;
        assert !IsViolation(h, events, Violation(i, seqno, SelfHashMismatch));
        assert !IsViolation(h, events, Violation(i, seqno, PrevHashBroken));
      }
    }
  }

  /** The verdict on a prefix of an append-only stream. */
  lemma PrefixVerdict(h: Hasher<EventBody>, table: seq<Event>, a: string, events: seq<Event>, verdict: Verdict)
    requires Good(h, table) && a != "" && events <= Reads(table, a)
    requires IsVerdict(h, events, verdict)
    ensures !verdict.Raised?
    ensures verdict.Report? ==>
      && verdict.checked <= |Reads(table, a)|
      && (verdict.valid <==> forall i :: 0 <= i < verdict.checked ==>
            Faithful(Stream(table, a)[i])
            || Collides(h, Stream(table, a)[i], ReadEvent(Stream(table, a)[i])))
  {
    AppendOnlyLinked(h, table, a);
    AppendOnlyAccepted(h, table, a, |events|);
    assert Reads(table, a)[..|events|] == events;
  }
}
