/** What a replayable journal is, record by record, and exactly when each anomaly is noted. */
module JournalFacts {
  import opened Basics
  import opened Journal

  const SECOND: int := 1_000_000_000

  /* ---- What a record refers to ---- */

  /** The last sample of a file. */
  function LastSampleOf(records: seq<Record>): (j: Option<nat>)
    ensures j.Some? ==> j.value < |records| && records[j.value].body.kind == Sample
  {
    if records == [] then None
    else if records[|records| - 1].body.kind == Sample then Some(|records| - 1)
    else LastSampleOf(records[..|records| - 1])
  }

  /** The session that is open at the end of a file. */
  function OpenSession(records: seq<Record>): Option<string> {
    if records == [] then None
    else
      var last := records[|records| - 1].body;
      if last.kind == Start then Some(last.session)
      else if last.kind == Stop then None
      else OpenSession(records[..|records| - 1])
  }

  predicate Started(records: seq<Record>, session: string) {
    exists j :: 0 <= j < |records| && records[j].body.kind == Start && records[j].body.session == session
  }

  /** What a sample's stored objects hold. */
  function ObservationAt(d: Declaration, records: seq<Record>, j: nat): Option<Observation>
    requires j < |records|
  {
    if records[j].body.payload.SampleOf? then d.unpack(records[j].body.payload.objects) else None
  }

  function ManifestBefore(d: Declaration, records: seq<Record>): Manifest {
    match LastSampleOf(records)
    case None => d.initial
    case Some(j) =>
      match ObservationAt(d, records, j)
      case None => d.initial
      case Some(o) => o.manifest
  }

  /* ---- The records of a replayable file ---- */

  predicate Named(s: string) {
    1 <= |s| <= 80 && forall c | c in s :: 'a' <= c <= 'z' || 'A' <= c <= 'Z' || '0' <= c <= '9' || c == '-'
  }

  predicate Reasoned(s: string) {
    1 <= |s| <= 100 && forall c | c in s :: 'A' <= c <= 'Z' || '0' <= c <= '9' || c == '_'
  }

  lemma NamesExactly(s: string)
    ensures SessionName(s) <==> Named(s)
    ensures ReasonText(s) <==> Reasoned(s)
  {
    forall c | c in s ensures exists i :: 0 <= i < |s| && s[i] == c {
    }
    forall i | 0 <= i < |s| ensures s[i] in s {
    }
    if SessionName(s) {
      forall c | c in s ensures NameChar(c) {
        var i :| 0 <= i < |s| && s[i] == c;
      }
    }
    if ReasonText(s) {
      forall c | c in s ensures ReasonChar(c) {
        var i :| 0 <= i < |s| && s[i] == c;
      }
    }
  }

  /** A record's place in the chain, and its stamps. */
  predicate Chained(d: Declaration, records: seq<Record>, i: nat)
    requires i < |records|
  {
    var b := records[i].body;
    && b.runHash == d.runHash && records[i].sha256 == d.digest(b) && b.sequence == i
    && b.previous == (if i == 0 then ZERO else records[i - 1].sha256)
    && b.wallNs > 0 && b.monotonicNs > 0 && Named(b.session) && Named(b.bootId)
  }

  /** No counter of the policy is turned back, and its configuration stays. */
  predicate Follows(past: Policy, p: Policy) {
    && p.config == past.config && past.founderReleased <= p.founderReleased
    && past.treasuryReleased <= p.treasuryReleased && past.approvalCount <= p.approvalCount
    && past.changeSequence <= p.changeSequence
  }

  /** A sample continues the last one: same identity, nothing dropped, no counter turned back. */
  predicate SampleContinues(d: Declaration, records: seq<Record>, i: nat)
    requires i < |records|
  {
    && ObservationAt(d, records, i).Some?
    && var o, last := ObservationAt(d, records, i).value, ManifestBefore(d, records[..i]);
    && o.manifest.expected == d.initial.expected
    && (forall k | k in last.externalAccounts ::
          k in o.manifest.externalAccounts && o.manifest.externalAccounts[k] == last.externalAccounts[k])
    && (forall p | p in last.approvalPeriods :: p in o.manifest.approvalPeriods)
    && (match LastSampleOf(records[..i])
        case None => true
        case Some(j) =>
          ObservationAt(d, records, j).Some? ==> Follows(ObservationAt(d, records, j).value.policy, o.policy))
  }

  /** What record `i` of a file must be, given those before it. */
  predicate Fits(d: Declaration, records: seq<Record>, i: nat)
    requires i < |records|
  {
    var b, before := records[i].body, records[..i];
    && Chained(d, records, i)
    && (b.kind == Start ==> b.payload == Empty && !Started(before, b.session))
    && (b.kind != Start ==> OpenSession(before) == Some(b.session))
    && (b.kind == Sample ==> SampleContinues(d, records, i))
    && (b.kind == Kind.Error ==> b.payload.Reason? && Reasoned(b.payload.text))
    && (b.kind == Stop ==> b.payload == Empty)
    && b.kind != Unknown
  }

  /** What the journal remembers of a file. */
  ghost predicate Remembers(d: Declaration, records: seq<Record>, live: Live) {
    && live.count == |records| && live.head == (if records == [] then ZERO else records[|records| - 1].sha256)
    && live.active == OpenSession(records) && (forall s :: s in live.seen <==> Started(records, s))
    && live.lastEvent == (if records == [] then None else Some(records[|records| - 1]))
    && live.lastManifest == ManifestBefore(d, records)
    && (match LastSampleOf(records)
        case None => live.lastSample == None && live.lastPolicy == None
        case Some(j) =>
          ObservationAt(d, records, j).Some?
          && var o := ObservationAt(d, records, j).value;
          live.lastSample == Some(Stamp(o.slot, o.bankTime, records[j].body.wallNs))
            && live.lastPolicy == Some(o.policy))
  }

  lemma LastOf(records: seq<Record>, r: Record)
    ensures OpenSession(records + [r]) == if r.body.kind == Start then Some(r.body.session)
                                          else if r.body.kind == Stop then None else OpenSession(records)
    ensures LastSampleOf(records + [r]) == if r.body.kind == Sample then Some(|records|) else LastSampleOf(records)
    ensures forall s :: Started(records + [r], s) <==>
      Started(records, s) || (r.body.kind == Start && r.body.session == s)
  {
    assert (records + [r])[..|records|] == records;
    forall s ensures Started(records + [r], s) <==>
      Started(records, s) || (r.body.kind == Start && r.body.session == s) {
      if Started(records, s) {
        var j :| 0 <= j < |records| && records[j].body.kind == Start && records[j].body.session == s;
        assert (records + [r])[j] == records[j];
      }
      if r.body.kind == Start && r.body.session == s {
        assert (records + [r])[|records|] == r;
      }
    }
  }

  lemma ObservationPrefix(d: Declaration, records: seq<Record>, r: Record)
    ensures forall j | LastSampleOf(records) == Some(j) ::
      ObservationAt(d, records + [r], j) == ObservationAt(d, records, j)
  {
  }

  /* ---- Acceptance is fitting ---- */

  lemma BoundExactly(d: Declaration, records: seq<Record>, live: Live, r: Record)
    requires Remembers(d, records, live)
    ensures Bound(d, live, r) <==> Chained(d, records + [r], |records|)
  {
    NamesExactly(r.body.session);
    NamesExactly(r.body.bootId);
    assert |records| > 0 ==> (records + [r])[|records| - 1] == records[|records| - 1];
    hide SessionName, Named;
  }

  lemma SampleExactly(d: Declaration, records: seq<Record>, live: Live, r: Record)
    requires Remembers(d, records, live)
    ensures SampleStep(d, live, r.body).Some? <==> SampleContinues(d, records + [r], |records|)
  {
    assert (records + [r])[..|records|] == records;
    ObservationPrefix(d, records, r);
    hide SampleAnomalies, ManifestBefore, OpenSession, Seconds;
  }

  lemma KindExactly(d: Declaration, records: seq<Record>, live: Live, r: Record)
    requires Remembers(d, records, live) && Chained(d, records + [r], |records|)
    ensures KindStep(d, live, r.body).Some? <==> Fits(d, records + [r], |records|)
  {
    assert (records + [r])[..|records|] == records && (records + [r])[|records|] == r;
    SampleExactly(d, records, live, r);
    if r.body.payload.Reason? {
      NamesExactly(r.body.payload.text);
    }
    hide SampleStep, SampleContinues, ReasonText, Reasoned, Chained, ManifestBefore;
  }

  /** A record is accepted after a file exactly when it fits there. */
  lemma AcceptedExactly(d: Declaration, records: seq<Record>, live: Live, r: Record)
    requires Remembers(d, records, live)
    ensures Accepted(d, live, r).Some? <==> Fits(d, records + [r], |records|)
  {
    hide Bound, KindStep, Chained, EventAnomalies;
    BoundExactly(d, records, live, r);
    if Chained(d, records + [r], |records|) {
      KindExactly(d, records, live, r);
    }
    hide Remembers;
  }

  lemma SampleRemembered(d: Declaration, records: seq<Record>, live: Live, r: Record)
    requires Remembers(d, records, live) && r.body.kind == Sample && SampleStep(d, live, r.body).Some?
    ensures var l := SampleStep(d, live, r.body).value;
      && ObservationAt(d, records + [r], |records|).Some?
      && var o := ObservationAt(d, records + [r], |records|).value;
      && l.lastSample == Some(Stamp(o.slot, o.bankTime, r.body.wallNs)) && l.lastPolicy == Some(o.policy)
      && l.lastManifest == o.manifest && l.active == live.active && l.seen == live.seen && l.count == live.count
      && l.head == live.head && l.lastEvent == live.lastEvent
  {
    hide SampleAnomalies, ManifestBefore, OpenSession, ManifestContinues, PolicyContinues;
  }

  lemma ManifestKept(d: Declaration, records: seq<Record>, r: Record)
    ensures r.body.kind != Sample ==> ManifestBefore(d, records + [r]) == ManifestBefore(d, records)
    ensures r.body.kind == Sample && ObservationAt(d, records + [r], |records|).Some? ==>
      ManifestBefore(d, records + [r]) == ObservationAt(d, records + [r], |records|).value.manifest
  {
    LastOf(records, r);
    ObservationPrefix(d, records, r);
    hide LastSampleOf;
  }

  lemma KindRemembered(d: Declaration, records: seq<Record>, live: Live, r: Record)
    requires Remembers(d, records, live) && KindStep(d, live, r.body).Some?
    ensures var l := KindStep(d, live, r.body).value;
      Remembers(d, records + [r], l.(count := l.count + 1, head := r.sha256, lastEvent := Some(r)))
  {
    LastOf(records, r);
    ManifestKept(d, records, r);
    ObservationPrefix(d, records, r);
    if r.body.kind == Sample {
      SampleRemembered(d, records, live, r);
    }
    hide SampleStep, LastSampleOf, OpenSession, Started, ManifestBefore, ReasonText;
  }

  lemma AcceptedRemembered(d: Declaration, records: seq<Record>, live: Live, r: Record)
    requires Remembers(d, records, live) && Accepted(d, live, r).Some?
    ensures Remembers(d, records + [r], Accepted(d, live, r).value)
  {
    hide Bound, KindStep, EventAnomalies, LastSampleOf, OpenSession, Started, ManifestBefore;
    KindRemembered(d, records, live, r);
    KindCounts(d, live, r.body);
  }

  lemma KindCounts(d: Declaration, live: Live, b: Body)
    requires KindStep(d, live, b).Some?
    ensures KindStep(d, live, b).value.count == live.count
  {
    KindKeepsLast(d, live, b);
  }

  lemma {:induction false} ReplayRemembers(d: Declaration, records: seq<Record>)
    requires Replay(d, records).Some?
    ensures Remembers(d, records, Replay(d, records).value)
    decreases |records|
  {
    if records != [] {
      var before, r := records[..|records| - 1], records[|records| - 1];
      assert records == before + [r];
      hide Accepted, Remembers;
      ReplayRemembers(d, before);
      AcceptedRemembered(d, before, Replay(d, before).value, r);
    }
  }

  lemma FitsPrefix(d: Declaration, records: seq<Record>, i: nat)
    requires i < |records| - 1
    ensures Fits(d, records, i) <==> Fits(d, records[..|records| - 1], i)
  {
    var before := records[..|records| - 1];
    assert before[..i] == records[..i] && before[i] == records[i] && (i > 0 ==> before[i - 1] == records[i - 1]);
    hide LastSampleOf, OpenSession, Started, ManifestBefore, Named, Reasoned, Follows;
    SamplePrefix(d, records, i);
    hide SampleContinues;
  }

  lemma SamplePrefix(d: Declaration, records: seq<Record>, i: nat)
    requires i < |records| - 1
    ensures SampleContinues(d, records, i) <==> SampleContinues(d, records[..|records| - 1], i)
  {
    var before := records[..|records| - 1];
    assert before[..i] == records[..i] && before[i] == records[i];
    match LastSampleOf(records[..i]) {
      case None =>
      case Some(j) => assert before[j] == records[j];
    }
    hide LastSampleOf, ManifestBefore, Follows;
  }

  /**
   A file replays exactly when each of its records fits: the chain is unbroken, sessions start once and do not overlap,
   and every sample continues the one before it.
   */
  lemma {:induction false} ReplayExactly(d: Declaration, records: seq<Record>)
    ensures Replay(d, records).Some? <==> forall i :: 0 <= i < |records| ==> Fits(d, records, i)
    decreases |records|
  {
    if records != [] {
      var before, r := records[..|records| - 1], records[|records| - 1];
      assert records == before + [r];
      hide Accepted, Remembers, Fits;
      ReplayExactly(d, before);
      forall i | 0 <= i < |before| ensures Fits(d, records, i) <==> Fits(d, before, i) {
        FitsPrefix(d, records, i);
      }
      if Replay(d, before).Some? {
        ReplayRemembers(d, before);
        AcceptedExactly(d, before, Replay(d, before).value, r);
      }
    }
  }

  /**
   A stored file opens exactly when it was declared for this code, with a known origin and a sensible time policy,
     no line
   is longer than four million bytes, and each of its records fits.
   */
  lemma OpensExactly(reader: Reader, d: Declaration, records: seq<Record>)
    ensures Opens(reader, d, records) <==>
      (d.schema == "K4V-SOAK-RUN-v1" && d.programHash == reader.programHash && d.runtimeHash == reader.runtimeHash
       && reader.validManifest(d.initial) && 1 <= d.maxGapSeconds && 0 <= d.toleranceSeconds
       && (d.origin == "signed-bootstrap-declared" || d.origin == "preloaded-fixture" || d.origin == "unknown")
       && (forall i | 0 <= i < |records| :: reader.lineBytes(records[i]) <= 4_000_000)
       && (forall i | 0 <= i < |records| :: Fits(d, records, i)))
  {
    ReplayExactly(d, records);
    hide Replay, Fits;
    forall i | 0 <= i < |records| ensures records[i] in records {
    }
  }

  /* ---- Exactly when an anomaly is noted ---- */

  /** How two consecutive samples raise an anomaly, in nanoseconds. */
  predicate SamplesRaise(d: Declaration, last: Observation, lastNs: int, o: Observation, ns: int, a: Anomaly) {
    var wall, bank := ns - lastNs, (o.bankTime - last.bankTime) * SECOND;
    match a
    case SlotNotAdvancing => o.slot <= last.slot
    case BankTimeRollback => o.bankTime < last.bankTime
    case ObservationGap => wall > d.maxGapSeconds * SECOND
    case BankWallTimeDivergence => bank - wall > d.toleranceSeconds * SECOND
      || wall - bank > d.toleranceSeconds * SECOND
    case _ => false
  }

  /** How two adjacent records raise an anomaly of the host's clocks. */
  predicate RecordsRaise(d: Declaration, last: Body, b: Body, a: Anomaly) {
    var wall, mono := b.wallNs - last.wallNs, b.monotonicNs - last.monotonicNs;
    match a
    case HostWallTimeRollback => b.wallNs < last.wallNs
    case HostBootChanged => b.bootId != last.bootId
    case HostClockDiscontinuity =>
      b.bootId == last.bootId
      && (mono < 0 || mono - wall > d.toleranceSeconds * SECOND || wall - mono > d.toleranceSeconds * SECOND)
    case _ => false
  }

  /** Record `i` raises an anomaly against the record before it. */
  predicate HostRaises(d: Declaration, records: seq<Record>, i: nat, a: Anomaly)
    requires i < |records|
  {
    i > 0 && RecordsRaise(d, records[i - 1].body, records[i].body, a)
  }

  /** Record `i` is a sample that raises an anomaly against the sample before it. */
  predicate SampleRaises(d: Declaration, records: seq<Record>, i: nat, a: Anomaly)
    requires i < |records|
  {
    records[i].body.kind == Sample
    && match LastSampleOf(records[..i])
       case None => false
       case Some(j) =>
         ObservationAt(d, records, j).Some? && ObservationAt(d, records, i).Some?
         && SamplesRaise(d, ObservationAt(d, records, j).value, records[j].body.wallNs,
                ObservationAt(d, records, i).value, records[i].body.wallNs, a)
  }

  /** The wall time from the sample before record `i` to record `i`, in nanoseconds. */
  function GapAt(records: seq<Record>, i: nat): Option<int>
    requires i < |records|
  {
    if records[i].body.kind != Sample then None
    else
      match LastSampleOf(records[..i])
      case None => None
      case Some(j) => Some(records[i].body.wallNs - records[j].body.wallNs)
  }

  /** Comparing seconds is comparing nanoseconds. */
  lemma SecondsExactly(ns: int, seconds: int)
    ensures Seconds(ns) > seconds as real <==> ns > seconds * SECOND
    ensures Seconds(ns) < 0.0 <==> ns < 0
    ensures Seconds(ns) * 1_000_000_000.0 == ns as real
  {
  }

  lemma DifferenceExactly(a: int, b: int, seconds: int)
    ensures Abs(Seconds(a) - Seconds(b)) > seconds as real <==> a - b > seconds * SECOND || b - a > seconds * SECOND
  {
    SecondsExactly(a, 0);
    SecondsExactly(b, 0);
    SecondsExactly(a - b, seconds);
    SecondsExactly(b - a, seconds);
  }

  lemma SampleAnomaliesExactly(d: Declaration, last: Observation, lastNs: int, o: Observation, ns: int, a: Anomaly)
    ensures a in SampleAnomalies(d, Stamp(last.slot, last.bankTime, lastNs), Stamp(o.slot, o.bankTime, ns)) <==>
      SamplesRaise(d, last, lastNs, o, ns, a)
  {
    var bank := o.bankTime - last.bankTime;
    SecondsExactly(ns - lastNs, d.maxGapSeconds);
    assert Seconds(bank * SECOND) == bank as real by { SecondsExactly(bank * SECOND, 0); }
    DifferenceExactly(bank * SECOND, ns - lastNs, d.toleranceSeconds);
    hide Seconds, Abs;
  }

  lemma EventAnomaliesExactly(d: Declaration, last: Body, b: Body, a: Anomaly)
    ensures a in EventAnomalies(d, last, b) <==> RecordsRaise(d, last, b, a)
  {
    SecondsExactly(b.wallNs - last.wallNs, 0);
    SecondsExactly(b.monotonicNs - last.monotonicNs, 0);
    DifferenceExactly(b.monotonicNs - last.monotonicNs, b.wallNs - last.wallNs, d.toleranceSeconds);
    hide Seconds, Abs;
  }

  lemma SampleAdds(d: Declaration, records: seq<Record>, live: Live, r: Record, a: Anomaly)
    requires Remembers(d, records, live) && r.body.kind == Sample && SampleStep(d, live, r.body).Some?
    ensures a in SampleStep(d, live, r.body).value.anomalies <==>
      a in live.anomalies || SampleRaises(d, records + [r], |records|, a)
  {
    hide SampleAnomalies, SamplesRaise, ManifestBefore, OpenSession, ManifestContinues, PolicyContinues, Started,
      Seconds;
    var whole := records + [r];
    assert whole[..|records|] == records && whole[|records|] == r;
    match LastSampleOf(records) {
      case None =>
      case Some(j) =>
        assert whole[j] == records[j];
        SampleAnomaliesExactly(d, ObservationAt(d, records, j).value, records[j].body.wallNs,
            d.unpack(r.body.payload.objects).value, r.body.wallNs, a);
    }
  }

  lemma KindAdds(d: Declaration, records: seq<Record>, live: Live, r: Record, a: Anomaly)
    requires Remembers(d, records, live) && KindStep(d, live, r.body).Some?
    ensures a in KindStep(d, live, r.body).value.anomalies <==>
      a in live.anomalies || SampleRaises(d, records + [r], |records|, a)
  {
    hide SampleStep, Remembers, LastSampleOf, SamplesRaise, ReasonText;
    if r.body.kind == Sample {
      SampleAdds(d, records, live, r, a);
    }
  }

  /** A record adds to the anomalies what it raises. */
  lemma AcceptedAdds(d: Declaration, records: seq<Record>, live: Live, r: Record, a: Anomaly)
    requires Remembers(d, records, live) && Accepted(d, live, r).Some?
    ensures a in Accepted(d, live, r).value.anomalies <==>
      a in live.anomalies || HostRaises(d, records + [r], |records|, a) || SampleRaises(d, records + [r], |records|, a)
  {
    hide Bound, KindStep, EventAnomalies, LastSampleOf, OpenSession, Started, ManifestBefore, SampleRaises,
      RecordsRaise;
    KindAdds(d, records, live, r, a);
    if records != [] {
      EventAnomaliesExactly(d, records[|records| - 1].body, r.body, a);
      assert (records + [r])[|records| - 1] == records[|records| - 1];
    }
  }

  lemma RaisesPrefix(d: Declaration, records: seq<Record>, r: Record, i: nat, a: Anomaly)
    requires i < |records|
    ensures HostRaises(d, records + [r], i, a) <==> HostRaises(d, records, i, a)
    ensures SampleRaises(d, records + [r], i, a) <==> SampleRaises(d, records, i, a)
    ensures GapAt(records + [r], i) == GapAt(records, i)
  {
    hide SamplesRaise, RecordsRaise;
    var whole := records + [r];
    assert whole[..i] == records[..i] && whole[i] == records[i] && (i > 0 ==> whole[i - 1] == records[i - 1]);
    match LastSampleOf(records[..i]) {
      case None =>
      case Some(j) => assert whole[j] == records[j];
    }
  }

  /**
   An anomaly is noted exactly when some record raises it: a host anomaly against the record before it, the others
   against the sample before it, wherever in the file that is.
   */
  lemma {:induction false} AnomaliesExactly(d: Declaration, records: seq<Record>, a: Anomaly)
    requires Replay(d, records).Some?
    ensures a in Replay(d, records).value.anomalies <==>
      exists i :: 0 <= i < |records| && (HostRaises(d, records, i, a) || SampleRaises(d, records, i, a))
    decreases |records|
  {
    if records != [] {
      var before, r := records[..|records| - 1], records[|records| - 1];
      assert records == before + [r];
      hide Accepted, Remembers, HostRaises, SampleRaises;
      AnomaliesExactly(d, before, a);
      ReplayRemembers(d, before);
      AcceptedAdds(d, before, Replay(d, before).value, r, a);
      forall i | 0 <= i < |before|
        ensures HostRaises(d, records, i, a) <==> HostRaises(d, before, i, a)
        ensures SampleRaises(d, records, i, a) <==> SampleRaises(d, before, i, a)
      {
        RaisesPrefix(d, before, r, i, a);
      }
    }
  }

  /** What the largest gap is: no gap is larger, and it is one of them unless none is positive. */
  predicate LargestGap(records: seq<Record>, ns: int) {
    && 0 <= ns && (forall i :: 0 <= i < |records| && GapAt(records, i).Some? ==> GapAt(records, i).value <= ns)
    && (ns > 0 ==> exists i :: 0 <= i < |records| && GapAt(records, i) == Some(ns))
  }

  lemma GapTaken(d: Declaration, records: seq<Record>, live: Live, r: Record, ns: int)
    requires Remembers(d, records, live) && Accepted(d, live, r).Some? && live.maxGap == Seconds(ns)
    ensures var gap := GapAt(records + [r], |records|);
      Accepted(d, live, r).value.maxGap == Seconds(if gap.Some? && ns < gap.value then gap.value else ns)
  {
    hide SampleAnomalies, EventAnomalies, ManifestBefore, OpenSession, Started, ManifestContinues, PolicyContinues;
    hide Bound, ReasonText;
    var whole := records + [r];
    assert whole[..|records|] == records && whole[|records|] == r;
    match LastSampleOf(records) {
      case None =>
      case Some(j) => assert whole[j] == records[j];
    }
  }

  /** The largest gap on record is the largest wall time between two consecutive samples. */
  lemma {:induction false} LargestGapExactly(d: Declaration, records: seq<Record>) returns (ns: int)
    requires Replay(d, records).Some?
    ensures Replay(d, records).value.maxGap * 1_000_000_000.0 == ns as real
    ensures Replay(d, records).value.maxGap == Seconds(ns) && LargestGap(records, ns)
    decreases |records|
  {
    if records == [] {
      ns := 0;
    } else {
      var before, r := records[..|records| - 1], records[|records| - 1];
      assert records == before + [r];
      hide Accepted, Remembers, GapAt, Seconds;
      var prior := LargestGapExactly(d, before);
      ReplayRemembers(d, before);
      GapTaken(d, before, Replay(d, before).value, r, prior);
      forall i | 0 <= i < |before| ensures GapAt(records, i) == GapAt(before, i) {
        RaisesPrefix(d, before, r, i, SlotNotAdvancing);
      }
      var gap := GapAt(records, |before|);
      ns := if gap.Some? && prior < gap.value then gap.value else prior;
      SecondsExactly(ns, 0);
    }
  }
}
