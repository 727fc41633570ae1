/**
 The hash-chained observation journal: records are validated against a staged copy before they are written, and
 the live counters are always what replaying the file from scratch gives.
 */
module Journal {
  import opened Basics

  type Hash = nat

  const ZERO: Hash := 0

  datatype Kind = Start | Sample | Error | Stop | Unknown

  /**
   A sample names its stored manifest and accounts by their content keys; its provenance may say more than the fields
   that are verified.
   */
  datatype Payload = Empty | SampleOf(objects: Hash, remarks: string) | Reason(text: string)

  datatype Body = Body(sequence: nat, previous: Hash, runHash: Hash, kind: Kind, session: string, wallNs: int,
      monotonicNs: int, bootId: string, payload: Payload)

  datatype Record = Record(body: Body, sha256: Hash)

  datatype Manifest = Manifest(expected: nat, externalAccounts: map<string, string>, approvalPeriods: set<nat>)

  datatype Policy = Policy(config: nat, founderReleased: nat, treasuryReleased: nat, approvalCount: nat,
      changeSequence: nat)

  /** What unpacking a verified sample yields. */
  datatype Observation = Observation(manifest: Manifest, slot: int, bankTime: int, policy: Policy)

  datatype Stamp = Stamp(slot: int, bankTime: int, wallNs: int)

  datatype Anomaly =
    | SlotNotAdvancing | BankTimeRollback | ObservationGap | BankWallTimeDivergence
    | HostWallTimeRollback | HostBootChanged | HostClockDiscontinuity

  /**
   A run's declaration. `digest` is the content hash, and `unpack` fetches a sample's stored objects and verifies
   their graph and provenance; both are fixed for the run.
   */
  datatype Declaration = Declaration(
    digest: Body -> Hash, unpack: Hash -> Option<Observation>, runHash: Hash, schema: string, programHash: Hash,
    runtimeHash: Hash, origin: string, initial: Manifest, maxGapSeconds: int, toleranceSeconds: int)

  const LIMIT: nat := 4_000_000

  /** The code that reads a journal: its own hashes, its rule for manifests, and the bytes of a record's line. */
  datatype Reader = Reader(
    programHash: Hash, runtimeHash: Hash, validManifest: Manifest -> bool, lineBytes: Record -> nat)

  /** A declaration that a reader takes on: made for the same code, with a known origin and a sensible time policy. */
  predicate Declared(reader: Reader, d: Declaration) {
    && d.schema == "K4V-SOAK-RUN-v1"
    && d.programHash == reader.programHash && d.runtimeHash == reader.runtimeHash
    && reader.validManifest(d.initial)
    && d.origin in ["signed-bootstrap-declared", "preloaded-fixture", "unknown"]
    && d.maxGapSeconds >= 1 && d.toleranceSeconds >= 0
  }

  /** No line is longer than a reader reads. */
  predicate Short(reader: Reader, records: seq<Record>) {
    forall r | r in records :: reader.lineBytes(r) <= LIMIT
  }

  /** A stored file that a reader opens. */
  predicate Opens(reader: Reader, d: Declaration, records: seq<Record>) {
    Declared(reader, d) && Short(reader, records) && Replay(d, records).Some?
  }

  /** Everything the journal remembers. */
  datatype Live = Live(
    head: Hash, count: nat, samples: nat, errors: nat, sessions: nat, unclosed: nat, anomalies: set<Anomaly>,
    active: Option<string>, seen: set<string>, lastEvent: Option<Record>, firstSample: Option<Stamp>,
    lastSample: Option<Stamp>,
    lastPolicy: Option<Policy>, lastManifest: Manifest, maxGap: real)

  function Blank(d: Declaration): Live {
    Live(ZERO, 0, 0, 0, 0, 0, {}, None, {}, None, None, None, None, d.initial, 0.0)
  }

  predicate NameChar(c: char) { 'a' <= c <= 'z' || 'A' <= c <= 'Z' || '0' <= c <= '9' || c == '-' }

  predicate SessionName(s: string) { 1 <= |s| <= 80 && forall i :: 0 <= i < |s| ==> NameChar(s[i]) }

  predicate ReasonChar(c: char) { 'A' <= c <= 'Z' || '0' <= c <= '9' || c == '_' }

  predicate ReasonText(s: string) { 1 <= |s| <= 100 && forall i :: 0 <= i < |s| ==> ReasonChar(s[i]) }

  function Seconds(ns: int): real { ns as real / 1_000_000_000.0 }

  function Abs(x: real): real { if x < 0.0 then -x else x }

  function Max(x: real, y: real): real { if x < y then y else x }

  predicate Bound(d: Declaration, live: Live, r: Record) {
    && r.body.runHash == d.runHash && d.digest(r.body) == r.sha256
    && r.body.previous == live.head && r.body.sequence == live.count
    && r.body.wallNs > 0 && r.body.monotonicNs > 0 && SessionName(r.body.session) && SessionName(r.body.bootId)
  }

  /** A manifest keeps the run's identity and never drops an external account or an approval period. */
  predicate ManifestContinues(d: Declaration, last: Manifest, m: Manifest) {
    && m.expected == d.initial.expected
    && (forall k :: k in last.externalAccounts ==>
        k in m.externalAccounts && m.externalAccounts[k] == last.externalAccounts[k])
    && last.approvalPeriods <= m.approvalPeriods
  }

  predicate PolicyContinues(last: Policy, p: Policy) {
    && p.config == last.config && p.founderReleased >= last.founderReleased
    && p.treasuryReleased >= last.treasuryReleased
    && p.approvalCount >= last.approvalCount && p.changeSequence >= last.changeSequence
  }

  function SampleAnomalies(d: Declaration, last: Stamp, current: Stamp): set<Anomaly> {
    var wall, bank := Seconds(current.wallNs - last.wallNs), current.bankTime - last.bankTime;
    (if current.slot <= last.slot then {SlotNotAdvancing} else {})
    + (if bank < 0 then {BankTimeRollback} else {})
    + (if wall > d.maxGapSeconds as real then {ObservationGap} else {})
    + (if Abs(bank as real - wall) > d.toleranceSeconds as real then {BankWallTimeDivergence} else {})
  }

  function EventAnomalies(d: Declaration, last: Body, current: Body): set<Anomaly> {
    var wall := Seconds(current.wallNs - last.wallNs);
    (if wall < 0.0 then {HostWallTimeRollback} else {})
    + (if current.bootId != last.bootId then {HostBootChanged}
       else
         var mono := Seconds(current.monotonicNs - last.monotonicNs);
         if mono < 0.0 || Abs(mono - wall) > d.toleranceSeconds as real then {HostClockDiscontinuity} else {})
  }

  function StartStep(live: Live, b: Body): Option<Live> {
    if b.payload != Empty || b.session in live.seen then None
    else Some(live.(seen := live.seen + {b.session}, unclosed := live.unclosed + (if live.active.Some? then 1 else 0),
                    active := Some(b.session), sessions := live.sessions + 1))
  }

  function SampleStep(d: Declaration, live: Live, b: Body): Option<Live> {
    if !b.payload.SampleOf? || d.unpack(b.payload.objects).None? then None
    else
      var o := d.unpack(b.payload.objects).value;
      var current := Stamp(o.slot, o.bankTime, b.wallNs);
      if !ManifestContinues(d, live.lastManifest, o.manifest) then None
      else if live.lastSample.Some? && live.lastPolicy.Some?
        && !PolicyContinues(live.lastPolicy.value, o.policy) then None
      else
        Some(live.(
          anomalies := live.anomalies
            + (if live.lastSample.Some? then SampleAnomalies(d, live.lastSample.value, current) else {}),
          maxGap :=
            if live.lastSample.Some? then Max(live.maxGap, Seconds(b.wallNs - live.lastSample.value.wallNs))
              else live.maxGap,
          firstSample := if live.firstSample.Some? then live.firstSample else Some(current),
          lastSample := Some(current), lastPolicy := Some(o.policy), lastManifest := o.manifest, samples :=
            live.samples + 1))
  }

  function KindStep(d: Declaration, live: Live, b: Body): Option<Live> {
    if b.kind.Start? then StartStep(live, b)
    else if live.active != Some(b.session) then None
    else
      match b.kind
      case Sample => SampleStep(d, live, b)
      case Error =>
        if b.payload.Reason? && ReasonText(b.payload.text) then Some(live.(errors := live.errors + 1)) else None
      case Stop => if b.payload == Empty then Some(live.(active := None)) else None
      case _ => None
  }

  /** What accepting one record makes of the journal's memory. */
  function Accepted(d: Declaration, live: Live, r: Record): Option<Live> {
    if !Bound(d, live, r) then None
    else
      match KindStep(d, live, r.body)
      case None => None
      case Some(l) =>
        Some(l.(anomalies := l.anomalies
                  + (if live.lastEvent.Some? then EventAnomalies(d, live.lastEvent.value.body, r.body) else {}),
                lastEvent := Some(r), head := r.sha256, count := l.count + 1))
  }

  /** Replaying a file from scratch. */
  function Replay(d: Declaration, records: seq<Record>): Option<Live>
    decreases |records|
  {
    if records == [] then Some(Blank(d))
    else
      match Replay(d, records[..|records| - 1])
      case None => None
      case Some(live) => Accepted(d, live, records[|records| - 1])
  }

  /* ---- What a replayable file says ---- */

  function CountOf(records: seq<Record>, kind: Kind): nat {
    if records == [] then 0
    else CountOf(records[..|records| - 1], kind) + (if records[|records| - 1].body.kind == kind then 1 else 0)
  }

  lemma AcceptedCounts(d: Declaration, live: Live, r: Record)
    requires Accepted(d, live, r).Some?
    ensures var l := Accepted(d, live, r).value;
      && !r.body.kind.Unknown?
      && l.count == live.count + 1 && l.head == r.sha256 == d.digest(r.body) && l.lastEvent == Some(r)
      && l.samples == live.samples + (if r.body.kind.Sample? then 1 else 0)
      && l.errors == live.errors + (if r.body.kind.Error? then 1 else 0)
      && l.sessions == live.sessions + (if r.body.kind.Start? then 1 else 0)
      && l.seen == live.seen + (if r.body.kind.Start? then {r.body.session} else {})
      && (r.body.kind.Start? ==> r.body.session !in live.seen && l.active == Some(r.body.session))
      && (!r.body.kind.Start? ==> live.active == Some(r.body.session))
      && (r.body.kind.Stop? ==> l.active == None)
      && (r.body.kind.Sample? || r.body.kind.Error? ==> l.active == live.active)
      && l.unclosed == live.unclosed + (if r.body.kind.Start? && live.active.Some? then 1 else 0)
      && live.anomalies <= l.anomalies
  {
    hide EventAnomalies, SampleAnomalies, ManifestContinues, PolicyContinues, SessionName, ReasonText;
  }

  /**
   Every session is started once, and is stopped, still active, or left unclosed; the counters count their records.
   */
  lemma {:induction false} ReplayCounts(d: Declaration, records: seq<Record>)
    requires Replay(d, records).Some?
    ensures var live := Replay(d, records).value;
      && live.count == |records| && live.samples == CountOf(records, Sample) && live.errors == CountOf(records, Error)
      && live.sessions == CountOf(records, Start) == |live.seen|
      && live.sessions == CountOf(records, Stop) + live.unclosed + (if live.active.Some? then 1 else 0)
      && (live.active.Some? ==> live.active.value in live.seen)
    decreases |records|
  {
    if records != [] {
      ReplayCounts(d, records[..|records| - 1]);
      hide Accepted;
      AcceptedCounts(d, Replay(d, records[..|records| - 1]).value, records[|records| - 1]);
    }
  }

  /** The content hash: no two bodies share a digest, and none has the zero head. */
  ghost predicate Collisionless(digest: Body -> Hash) {
    && (forall a, b :: digest(a) == digest(b) ==> a == b)
    && (forall a :: digest(a) != ZERO)
  }

  lemma HeadOf(d: Declaration, records: seq<Record>)
    requires Replay(d, records).Some?
    ensures records == [] ==> Replay(d, records).value.head == ZERO
    ensures records != [] ==>
      var r := records[|records| - 1];
      && Replay(d, records).value.head == r.sha256 == d.digest(r.body)
      && Replay(d, records[..|records| - 1]).Some? && r.body.previous == Replay(d, records[..|records| - 1]).value.head
  {
    if records != [] {
      hide KindStep, EventAnomalies, SessionName;
    }
  }

  lemma NoCollision(digest: Body -> Hash, one: Option<Body>, other: Option<Body>)
    requires Collisionless(digest)
    requires (if one.Some? then digest(one.value) else ZERO) == (if other.Some? then digest(other.value) else ZERO)
    ensures one == other
  {
  }

  /** The head commits to the whole file: two files, even of two runs, that replay to one head hold the same records. */
  lemma {:induction false} HeadDetermines(d: Declaration, e: Declaration, one: seq<Record>, other: seq<Record>)
    requires Collisionless(d.digest) && e.digest == d.digest
    requires Replay(d, one).Some? && Replay(e, other).Some? && Replay(d, one).value.head == Replay(e, other).value.head
    ensures one == other
    decreases |one|
  {
    hide Accepted, Replay, Collisionless;
    HeadOf(d, one);
    HeadOf(e, other);
    NoCollision(d.digest, if one == [] then None else Some(one[|one| - 1].body),
        if other == [] then None else Some(other[|other| - 1].body));
    if one == [] || other == [] {
    } else {
      var r, s := one[|one| - 1], other[|other| - 1];
      HeadDetermines(d, e, one[..|one| - 1], other[..|other| - 1]);
      assert one == one[..|one| - 1] + [r] && other == other[..|other| - 1] + [s];
    }
  }

  lemma ReplayAppends(d: Declaration, records: seq<Record>, r: Record)
    requires Replay(d, records).Some?
    ensures Replay(d, records + [r]) == Accepted(d, Replay(d, records).value, r)
  {
    assert (records + [r])[..|records|] == records;
  }

  /** From one state to a later one nothing observed is taken back. */
  predicate Continues(d: Declaration, early: Live, late: Live) {
    && early.anomalies <= late.anomalies && early.seen <= late.seen && early.maxGap <= late.maxGap
    && ManifestContinues(d, early.lastManifest, late.lastManifest)
    && (early.firstSample.Some? ==> late.firstSample == early.firstSample)
    && (early.lastPolicy.Some? ==>
        early.lastSample.Some? && late.lastPolicy.Some?
          && PolicyContinues(early.lastPolicy.value, late.lastPolicy.value))
  }

  lemma AcceptedContinues(d: Declaration, live: Live, r: Record)
    requires Accepted(d, live, r).Some? && live.lastManifest.expected == d.initial.expected
    requires live.lastPolicy.Some? <==> live.lastSample.Some?
    ensures Continues(d, live, Accepted(d, live, r).value)
    ensures Accepted(d, live, r).value.lastManifest.expected == d.initial.expected
    ensures Accepted(d, live, r).value.lastPolicy.Some? <==> Accepted(d, live, r).value.lastSample.Some?
  {
    hide EventAnomalies, SampleAnomalies, SessionName, ReasonText, Seconds;
  }

  /** In every replayable file, counters never fall, history is never dropped and anomalies are never cleared. */
  lemma {:induction false} ReplayContinues(d: Declaration, records: seq<Record>, k: nat)
    requires k <= |records| && Replay(d, records).Some?
    ensures Replay(d, records[..k]).Some? && Continues(d, Replay(d, records[..k]).value, Replay(d, records).value)
    ensures Replay(d, records).value.lastManifest.expected == d.initial.expected
    ensures Replay(d, records).value.lastPolicy.Some? <==> Replay(d, records).value.lastSample.Some?
    decreases |records|
  {
    if records == [] {
      assert records[..k] == records;
    } else {
      var before := records[..|records| - 1];
      ReplayContinues(d, before, if k == |records| then |records| - 1 else k);
      hide Accepted;
      AcceptedContinues(d, Replay(d, before).value, records[|records| - 1]);
      if k == |records| {
        assert records[..k] == records;
      } else {
        assert records[..k] == before[..k];
      }
    }
  }

  /** A kind's own effect leaves the chain alone. */
  lemma KindKeepsLast(d: Declaration, live: Live, b: Body)
    requires KindStep(d, live, b).Some?
    ensures KindStep(d, live, b).value.lastEvent == live.lastEvent && KindStep(d, live, b).value.count == live.count
  {
    hide SampleAnomalies, ManifestContinues, PolicyContinues, ReasonText;
  }

  /* ---- The journal as it runs ---- */

  class Log {
    const declaration: Declaration
    /** The file's records. */
    var file: seq<Record>
    var head: Hash
    var count: nat
    var samples: nat
    var errors: nat
    var sessions: nat
    var unclosed: nat
    var anomalies: set<Anomaly>
    var active: Option<string>
    var seen: set<string>
    var lastEvent: Option<Record>
    var firstSample: Option<Stamp>
    var lastSample: Option<Stamp>
    var lastPolicy: Option<Policy>
    var lastManifest: Manifest
    var maxGap: real
    var writeBroken: bool

    ghost function Memory(): Live
      reads this
    {
      Live(head, count, samples, errors, sessions, unclosed, anomalies, active, seen, lastEvent, firstSample,
           lastSample, lastPolicy, lastManifest, maxGap)
    }

    /** What is remembered is what replaying the file gives. */
    ghost predicate Valid()
      reads this
    {
      Replay(declaration, file) == Some(Memory())
    }

    constructor (d: Declaration)
      ensures declaration == d && file == [] && !writeBroken && Memory() == Blank(d) && Valid()
    {
      declaration, file, writeBroken := d, [], false;
      head, count, samples, errors, sessions, unclosed := ZERO, 0, 0, 0, 0, 0;
      anomalies, active, seen, lastEvent := {}, None, {}, None;
      firstSample, lastSample, lastPolicy, lastManifest, maxGap := None, None, None, d.initial, 0.0;
    }

    /** Notes how a new sample follows the last one. */
    method NoteSample(last: Stamp, current: Stamp)
      modifies `anomalies, `maxGap
      ensures anomalies == old(anomalies) + SampleAnomalies(declaration, last, current)
      ensures maxGap == Max(old(maxGap), Seconds(current.wallNs - last.wallNs))
    {
      hide Seconds, Abs, Max;
      var wall := Seconds(current.wallNs - last.wallNs);
      var bank := current.bankTime - last.bankTime;
      maxGap := Max(maxGap, wall);
      if current.slot <= last.slot { anomalies := anomalies + {SlotNotAdvancing}; }
      if bank < 0 { anomalies := anomalies + {BankTimeRollback}; }
      if wall > declaration.maxGapSeconds as real { anomalies := anomalies + {ObservationGap}; }
      if Abs(bank as real - wall) > declaration.toleranceSeconds as real {
        anomalies := anomalies + {BankWallTimeDivergence};
      }
    }

    /** Takes one sample, writing fields as it goes. */
    method TakeSample(b: Body) returns (ok: bool)
      modifies `anomalies, `maxGap, `firstSample, `lastSample, `lastPolicy, `lastManifest, `samples
      ensures ok == SampleStep(declaration, old(Memory()), b).Some?
      ensures ok ==> Memory() == SampleStep(declaration, old(Memory()), b).value
    {
      hide ManifestContinues, PolicyContinues, SampleAnomalies, Seconds, Max;
      if !b.payload.SampleOf? { return false; }
      var unpacked := declaration.unpack(b.payload.objects);
      if unpacked.None? || !ManifestContinues(declaration, lastManifest, unpacked.value.manifest) { return false; }
      var o := unpacked.value;
      var current := Stamp(o.slot, o.bankTime, b.wallNs);
      if lastSample.Some? {
        NoteSample(lastSample.value, current);
        if lastPolicy.Some? && !PolicyContinues(lastPolicy.value, o.policy) { return false; }
      }
      if firstSample.None? { firstSample := Some(current); }
      lastSample, lastPolicy, lastManifest := Some(current), Some(o.policy), o.manifest;
      samples := samples + 1;
      return true;
    }

    /** Notes how a new event follows the last one. */
    method NoteEvent(last: Body, b: Body)
      modifies `anomalies
      ensures anomalies == old(anomalies) + EventAnomalies(declaration, last, b)
    {
      hide Seconds, Abs;
      var wall := Seconds(b.wallNs - last.wallNs);
      if wall < 0.0 { anomalies := anomalies + {HostWallTimeRollback}; }
      if b.bootId != last.bootId {
        anomalies := anomalies + {HostBootChanged};
      } else {
        var mono := Seconds(b.monotonicNs - last.monotonicNs);
        if mono < 0.0 || Abs(mono - wall) > declaration.toleranceSeconds as real {
          anomalies := anomalies + {HostClockDiscontinuity};
        }
      }
    }

    /** Accepts one record, writing fields as it goes; after a refusal they are not to be used. */
    method Accept(r: Record) returns (ok: bool)
      modifies this
      ensures file == old(file) && writeBroken == old(writeBroken)
      ensures ok == Accepted(declaration, old(Memory()), r).Some?
      ensures ok ==> Memory() == Accepted(declaration, old(Memory()), r).value
    {
      hide KindStep, EventAnomalies, SessionName;
      var b := r.body;
      if b.runHash != declaration.runHash { return false; }
      if declaration.digest(b) != r.sha256 || b.previous != head || b.sequence != count { return false; }
      if b.wallNs <= 0 || b.monotonicNs <= 0 || !SessionName(b.session) || !SessionName(b.bootId) { return false; }
      ok := TakeKind(b);
      if !ok { return false; }
      KindKeepsLast(declaration, old(Memory()), b);
      if lastEvent.Some? {
        NoteEvent(lastEvent.value.body, b);
      }
      lastEvent := Some(r);
      head, count := r.sha256, count + 1;
    }

    method TakeKind(b: Body) returns (ok: bool)
      modifies this
      ensures file == old(file) && writeBroken == old(writeBroken)
      ensures ok == KindStep(declaration, old(Memory()), b).Some?
      ensures ok ==> Memory() == KindStep(declaration, old(Memory()), b).value
    {
      hide SampleStep, ReasonText;
      if b.kind == Start {
        if b.payload != Empty || b.session in seen { return false; }
        seen := seen + {b.session};
        if active.Some? { unclosed := unclosed + 1; }
        active := Some(b.session);
        sessions := sessions + 1;
        return true;
      }
      if active != Some(b.session) { return false; }
      match b.kind
      case Sample => ok := TakeSample(b);
      case Error =>
        if !b.payload.Reason? || !ReasonText(b.payload.text) { return false; }
        errors := errors + 1;
        return true;
      case Stop =>
        if b.payload != Empty { return false; }
        active := None;
        return true;
      case _ => return false;
    }

    /**
     Checks the declaration and replays a stored file line by line; refuses it unless it replays, and to the expected
     head if one is given.
     */
    static method Open(reader: Reader, d: Declaration, stored: seq<Record>, expectedHead: Option<Hash>)
      returns (ok: bool, log: Log)
      ensures fresh(log) && log.declaration == d
      ensures ok == (Opens(reader, d, stored)
                     && (expectedHead.Some? ==> Replay(d, stored).value.head == expectedHead.value))
      ensures ok ==> log.file == stored && log.Valid() && !log.writeBroken
    {
      log := new Log(d);
      if d.schema != "K4V-SOAK-RUN-v1" || d.programHash != reader.programHash || d.runtimeHash != reader.runtimeHash {
        return false, log;
      }
      if !reader.validManifest(d.initial)
         || d.origin !in ["signed-bootstrap-declared", "preloaded-fixture", "unknown"] { return false, log; }
      if d.maxGapSeconds < 1 || d.toleranceSeconds < 0 { return false, log; }
      for i := 0 to |stored|
        invariant fresh(log) && log.declaration == d && !log.writeBroken && log.file == stored[..i]
        invariant Replay(d, stored[..i]) == Some(log.Memory()) && Short(reader, stored[..i])
      {
        hide Accepted;
        if reader.lineBytes(stored[i]) > LIMIT { return false, log; }
        ReplayAppends(d, stored[..i], stored[i]);
        assert stored[..i + 1] == stored[..i] + [stored[i]];
        var accepted := log.Accept(stored[i]);
        if !accepted {
          ReplayPrefix(d, stored, i + 1);
          return false, log;
        }
        log.file := log.file + [stored[i]];
      }
      assert stored[..|stored|] == stored;
      ok := expectedHead.None? || log.head == expectedHead.value;
    }

    method CopyChain(other: Log)
      requires other != this
      modifies `head, `count, `errors, `sessions, `unclosed, `active, `seen, `lastEvent
      ensures head == other.head && count == other.count && errors == other.errors && sessions == other.sessions
      ensures unclosed == other.unclosed && active == other.active && seen == other.seen && lastEvent == other.lastEvent
    {
      head, count, errors, sessions := other.head, other.count, other.errors, other.sessions;
      unclosed, active, seen, lastEvent := other.unclosed, other.active, other.seen, other.lastEvent;
    }

    method CopySamples(other: Log)
      requires other != this
      modifies `samples, `anomalies, `firstSample, `lastSample, `lastPolicy, `lastManifest, `maxGap
      ensures samples == other.samples && anomalies == other.anomalies && firstSample == other.firstSample
      ensures lastSample == other.lastSample && lastPolicy == other.lastPolicy && lastManifest == other.lastManifest
      ensures maxGap == other.maxGap
    {
      samples, anomalies, firstSample := other.samples, other.anomalies, other.firstSample;
      lastSample, lastPolicy, lastManifest, maxGap :=
        other.lastSample, other.lastPolicy, other.lastManifest, other.maxGap;
    }

    /** Takes over another journal's memory, not its file. */
    method CopyFrom(other: Log)
      requires other != this
      modifies this
      ensures Memory() == other.Memory() && file == old(file) && writeBroken == old(writeBroken)
    {
      CopyChain(other);
      CopySamples(other);
    }

    /**
     Appends one event: it is validated on a staged copy, written, and only then remembered. `written` says whether
     the storage took it. A refused event changes nothing, and a failed write ends all writing.
     */
    method Append(kind: Kind, session: string, wallNs: int, monotonicNs: int, bootId: string, payload: Payload,
            written: bool) returns (ok: bool)
      requires Valid()
      modifies this
      ensures Valid()
      ensures var b := Body(old(count), old(head), declaration.runHash, kind, session, wallNs, monotonicNs, bootId,
          payload);
        var r := Record(b, declaration.digest(b));
        var accepted := !old(writeBroken) && Accepted(declaration, old(Memory()), r).Some?;
        && ok == (accepted && written)
        && file == (if ok then old(file) + [r] else old(file))
        && (!ok ==> Memory() == old(Memory()))
        && writeBroken == (old(writeBroken) || (accepted && !written))
    {
      hide Accepted;
      if writeBroken { return false; }
      var b := Body(count, head, declaration.runHash, kind, session, wallNs, monotonicNs, bootId, payload);
      var r := Record(b, declaration.digest(b));
      var staged := new Log(declaration);
      staged.CopyFrom(this);
      ReplayAppends(declaration, file, r);
      ok := staged.Accept(r);
      if !ok { return false; }
      if !written {
        writeBroken := true;
        return false;
      }
      file := file + [r];
      CopyFrom(staged);
    }
  }

  /** A file replays only if each of its prefixes does. */
  lemma {:induction false} ReplayPrefix(d: Declaration, records: seq<Record>, n: nat)
    requires n <= |records| && Replay(d, records[..n]).None?
    ensures Replay(d, records).None?
    decreases |records| - n
  {
    if n == |records| {
      assert records[..n] == records;
    } else {
      assert records[..n + 1][..n] == records[..n];
      hide Accepted;
      ReplayPrefix(d, records, n + 1);
    }
  }

  /* ---- Lines that are too long ---- */

  /** An appended record is not measured: an opened file opens again exactly when every new line is within the limit. */
  lemma ReopensExactly(reader: Reader, d: Declaration, before: seq<Record>, more: seq<Record>)
    requires Opens(reader, d, before) && Replay(d, before + more).Some?
    ensures Opens(reader, d, before + more) <==> Short(reader, more)
  {
    if Short(reader, before + more) {
      forall r | r in more ensures reader.lineBytes(r) <= LIMIT {
        assert r in before + more;
      }
    }
  }

  /** A file with one line over the limit is never opened again, whatever follows. */
  lemma OversizeNeverOpens(reader: Reader, d: Declaration, before: seq<Record>, r: Record, more: seq<Record>)
    requires reader.lineBytes(r) > LIMIT
    ensures !Opens(reader, d, before + [r] + more)
  {
    assert r in before + [r] + more;
  }

  /** A sample's line holds what its provenance says. */
  ghost predicate CountsRemarks(reader: Reader) {
    forall r: Record :: r.body.payload.SampleOf? ==> |r.body.payload.remarks| <= reader.lineBytes(r)
  }

  function Sealed(d: Declaration, b: Body): Record { Record(b, d.digest(b)) }

  function Padded(b: Body, remarks: string): Body
    requires b.payload.SampleOf?
  {
    b.(payload := SampleOf(b.payload.objects, remarks))
  }

  /** Whether a sample is accepted does not depend on its remarks. */
  lemma RemarksAreFree(d: Declaration, live: Live, b: Body, remarks: string)
    requires b.kind.Sample? && Accepted(d, live, Sealed(d, b)).Some?
    ensures b.payload.SampleOf? && Accepted(d, live, Sealed(d, Padded(b, remarks))).Some?
  {
    hide EventAnomalies, SampleAnomalies, ManifestContinues, PolicyContinues, SessionName, Seconds;
  }

  /** Wherever a sample can be appended, so can one whose line is over the limit, and the file never opens again. */
  lemma AnySampleCanLock(reader: Reader, d: Declaration, file: seq<Record>, b: Body) returns (r: Record)
    requires CountsRemarks(reader) && Replay(d, file).Some?
    requires b.kind.Sample? && Accepted(d, Replay(d, file).value, Sealed(d, b)).Some?
    ensures Replay(d, file + [r]).Some? && reader.lineBytes(r) > LIMIT
    ensures forall more :: !Opens(reader, d, file + [r] + more)
  {
    var remarks := seq(LIMIT + 1, _ => 'x');
    RemarksAreFree(d, Replay(d, file).value, b, remarks);
    hide Accepted, Replay, Opens;
    r := Sealed(d, Padded(b, remarks));
    ReplayAppends(d, file, r);
    forall more ensures !Opens(reader, d, file + [r] + more) {
      OversizeNeverOpens(reader, d, file, r, more);
    }
  }

  function StartBody(d: Declaration): Body { Body(0, ZERO, d.runHash, Start, "s", 1, 1, "b", Empty) }

  function SampleBody(d: Declaration, previous: Hash, objects: Hash, remarks: string): Body {
    Body(1, previous, d.runHash, Sample, "s", 2, 2, "b", SampleOf(objects, remarks))
  }

  lemma StartTaken(d: Declaration)
    ensures var live := Accepted(d, Blank(d), Sealed(d, StartBody(d)));
      live.Some? && live.value.count == 1 && live.value.active == Some("s") && live.value.lastSample.None?
      && live.value.lastManifest == d.initial
  {
  }

  lemma SampleTaken(d: Declaration, live: Live, objects: Hash, remarks: string)
    requires live.count == 1 && live.active == Some("s") && live.lastSample.None? && live.lastManifest == d.initial
    requires d.unpack(objects).Some? && ManifestContinues(d, d.initial, d.unpack(objects).value.manifest)
    ensures Accepted(d, live, Sealed(d, SampleBody(d, live.head, objects, remarks))).Some?
  {
    hide EventAnomalies, SampleAnomalies, ManifestContinues, PolicyContinues;
  }

  /** A fresh journal takes a start and a sample with long remarks, and is refused when it is opened again. */
  method LockOut(reader: Reader, d: Declaration, objects: Hash) returns (file: seq<Record>, reopened: bool)
    requires Declared(reader, d) && CountsRemarks(reader)
    requires d.unpack(objects).Some? && ManifestContinues(d, d.initial, d.unpack(objects).value.manifest)
    ensures |file| == 2 && Replay(d, file).Some? && !reopened
  {
    hide Accepted, Declared, ManifestContinues;
    var remarks := seq(LIMIT + 1, _ => 'x');
    var loaded, log := Log.Open(reader, d, [], None);
    StartTaken(d);
    assert log.Memory() == Blank(d);
    var started := log.Append(Start, "s", 1, 1, "b", Empty, true);
    SampleTaken(d, log.Memory(), objects, remarks);
    var sampled := log.Append(Sample, "s", 2, 2, "b", SampleOf(objects, remarks), true);
    file := log.file;
    OversizeNeverOpens(reader, d, file[..1], file[1], []);
    assert file[..1] + [file[1]] + [] == file;
    var again: Log;
    reopened, again := Log.Open(reader, d, file, None);
  }
}
