/**
 Signed admission windows over the history-list model: a proposal counts its notice from its accepted submission,
 and only the exact signed intent can later execute, cancel or expire it.
 */
module SubmissionModel {
  import opened Basics
  import opened State
  import H = HistoryModel

  datatype Intent = Intent(program: nat, policy: nat, identity: nat, role: Role, predecessor: Key, successor: Key,
      recovery: bool, nonce: u64, epoch: u64, validFrom: time, validUntil: time)

  /** The digest of an intent, kept opaque: distinct intents have distinct seals. */
  datatype Seal = SealOf(intent: Intent)

  datatype Admission = Admission(intent: Intent, seal: Seal, acceptedAt: time)

  datatype Slot = Slot(role: Role, nonce: u64)

  datatype Desk = Desk(program: nat, identity: nat, core: H.Book, admissions: map<Slot, Admission>)

  predicate Fresh(m: H.Member) { m.sequence == 0 && m.pending.None? }

  function Bind(core: H.Book, program: nat, identity: nat): Option<Desk> {
    if Fresh(core.founder) && Fresh(core.treasury) then Some(Desk(program, identity, core, map[])) else None
  }

  predicate ValidIntent(i: Intent) {
    && i.predecessor != Default && i.successor != Default
    && 0 <= i.validUntil - i.validFrom <= MAX_SUBMISSION_WINDOW
    && i.validUntil <= I64_MAX - CHANGE_NOTICE - EXECUTION_WINDOW
  }

  predicate InDomain(s: Desk, i: Intent) {
    i.program == s.program && i.policy == s.core.policy && i.identity == s.identity
  }

  function Prepare(s: Desk, r: Role, successor: Key, recovery: bool, validFrom: time, validUntil: time): Option<Intent>
  {
    var m := s.core.Of(r);
    if m.sequence + 1 > U64_MAX || m.epoch > U64_MAX then None
    else
      var i := Intent(s.program, s.core.policy, s.identity, r, m.current, successor, recovery, m.sequence + 1, m.epoch,
          validFrom, validUntil);
      if ValidIntent(i) then Some(i) else None
  }

  function Submit(s: Desk, i: Intent, attestations: map<Key, Seal>, now: time): Option<Desk> {
    if !ValidIntent(i) || !InDomain(s, i) || !(i.validFrom <= now <= i.validUntil)
      || i.predecessor != s.core.Of(i.role).current then None
    else if exists k :: k in attestations && (k == Default || attestations[k] != SealOf(i)) then None
    else
      match H.Propose(s.core, i.role, i.successor, i.recovery, i.nonce, i.epoch, attestations.Keys, now)
      case None => None
      case Some(core) =>
        if Slot(i.role, i.nonce) in s.admissions then None
        else Some(s.(core := core, admissions := s.admissions[Slot(i.role, i.nonce) := Admission(i, SealOf(i), now)]))
  }

  /** The plan and the intent that admitted it say the same. */
  predicate PlanMatches(p: H.Plan, i: Intent) {
    && p.policy == i.policy && p.role == i.role && p.nonce == i.nonce && p.epoch == i.epoch
    && p.predecessor == i.predecessor && p.successor == i.successor && p.recovery == i.recovery
  }

  predicate FullNotice(p: H.Plan, a: Admission) {
    && a.intent.validFrom <= a.acceptedAt <= a.intent.validUntil
    && p.createdAt == a.acceptedAt && p.executeAfter == a.acceptedAt + CHANGE_NOTICE
    && p.expiresAt == a.acceptedAt + CHANGE_NOTICE + EXECUTION_WINDOW
  }

  function Pending(s: Desk, r: Role, seal: Seal): Option<H.Plan> {
    match s.core.Of(r).pending
    case None => None
    case Some(p) =>
      if Slot(r, p.nonce) !in s.admissions then None
      else
        var a := s.admissions[Slot(r, p.nonce)];
        if ValidIntent(a.intent) && a.seal == SealOf(a.intent) && a.seal == seal && InDomain(s, a.intent)
           && PlanMatches(p, a.intent) && FullNotice(p, a) then Some(p) else None
  }

  function WithCore(s: Desk, core: Option<H.Book>): Option<Desk> {
    match core case Some(b) => Some(s.(core := b)) case None => None
  }

  function Execute(s: Desk, r: Role, seal: Seal, now: time): Option<Desk> {
    match Pending(s, r, seal)
    case Some(p) => WithCore(s, H.Execute(s.core, r, H.DigestOf(p), now))
    case None => None
  }

  function Cancel(s: Desk, r: Role, seal: Seal, signers: set<Key>, now: time): Option<Desk> {
    match Pending(s, r, seal)
    case Some(p) => WithCore(s, H.Cancel(s.core, r, H.DigestOf(p), signers, now))
    case None => None
  }

  function Expire(s: Desk, r: Role, seal: Seal, now: time): Option<Desk> {
    match Pending(s, r, seal)
    case Some(p) => WithCore(s, H.Expire(s.core, r, H.DigestOf(p), now))
    case None => None
  }

  /* ---- Runs and their projection ---- */

  datatype Act =
    | ActSubmit(intent: Intent, attestations: map<Key, Seal>, now: time)
    | ActExecute(role: Role, seal: Seal, now: time)
    | ActCancel(role: Role, seal: Seal, signers: set<Key>, now: time)
    | ActExpire(role: Role, seal: Seal, now: time)

  function Do(s: Desk, a: Act): Option<Desk> {
    match a
    case ActSubmit(i, attestations, now) => Submit(s, i, attestations, now)
    case ActExecute(r, seal, now) => Execute(s, r, seal, now)
    case ActCancel(r, seal, signers, now) => Cancel(s, r, seal, signers, now)
    case ActExpire(r, seal, now) => Expire(s, r, seal, now)
  }

  function DoAll(s: Desk, acts: seq<Act>): Option<Desk>
    decreases |acts|
  {
    if acts == [] then Some(s)
    else match DoAll(s, acts[..|acts| - 1])
         case Some(s') => Do(s', acts[|acts| - 1])
         case None => None
  }

  /** The call that an act makes of the model underneath, forgetting admissions and seals. */
  function CallOf(s: Desk, a: Act): H.Call {
    match a
    case ActSubmit(i, attestations, now) => H.CallPropose(i.role, i.successor, i.recovery, i.nonce, i.epoch,
        attestations.Keys, now)
    case ActExecute(r, _, now) => H.CallExecute(r, PendingDigest(s, r), now)
    case ActCancel(r, _, signers, now) => H.CallCancel(r, PendingDigest(s, r), signers, now)
    case ActExpire(r, _, now) => H.CallExpire(r, PendingDigest(s, r), now)
  }

  /** The digest of the pending plan, or of an arbitrary one when nothing is pending. */
  function PendingDigest(s: Desk, r: Role): H.Digest {
    H.DigestOf(match s.core.Of(r).pending
               case Some(p) => p
               case None => H.Plan(0, r, 0, 0, Default, Default, false, 0, 0, 0))
  }

  function Projected(s: Desk, acts: seq<Act>): seq<H.Call>
    decreases |acts|
  {
    if acts == [] then []
    else
      var before := Projected(s, acts[..|acts| - 1]);
      match DoAll(s, acts[..|acts| - 1])
      case Some(s') => before + [CallOf(s', acts[|acts| - 1])]
      case None => before
  }

  lemma ActProjects(s: Desk, a: Act)
    requires Do(s, a).Some?
    ensures H.Do(s.core, CallOf(s, a)) == Some(Do(s, a).value.core)
  {
    hide H.Propose, H.Execute, H.Cancel, H.Expire;
  }

  /** Dropping the admissions of any run leaves a run of the model underneath, with the same states. */
  lemma {:induction false} RunProjects(s: Desk, acts: seq<Act>)
    requires DoAll(s, acts).Some?
    ensures H.DoAll(s.core, Projected(s, acts)) == Some(DoAll(s, acts).value.core)
    decreases |acts|
  {
    if acts != [] {
      hide H.Do, Do;
      RunProjects(s, acts[..|acts| - 1]);
      var before, last := DoAll(s, acts[..|acts| - 1]).value, acts[|acts| - 1];
      ActProjects(before, last);
      var calls := Projected(s, acts[..|acts| - 1]);
      assert (calls + [CallOf(before, last)])[..|calls|] == calls;
    }
  }

  /* ---- Every pending proposal has its one admission ---- */

  predicate RoleAdmitted(s: Desk, r: Role) {
    var m := s.core.Of(r);
    m.pending.Some? ==>
      var p := m.pending.value;
      && p.nonce == m.sequence && Slot(r, p.nonce) in s.admissions
      && var a := s.admissions[Slot(r, p.nonce)];
      ValidIntent(a.intent) && a.seal == SealOf(a.intent) && InDomain(s, a.intent) && PlanMatches(p, a.intent)
        && FullNotice(p, a)
  }

  ghost predicate DeskInv(s: Desk) {
    && RoleAdmitted(s, Founder) && RoleAdmitted(s, Treasury)
    && (forall k :: k in s.admissions ==>
          k.role == s.admissions[k].intent.role && k.nonce == s.admissions[k].intent.nonce
            && k.nonce <= s.core.Of(k.role).sequence)
  }

  lemma BindInv(core: H.Book, program: nat, identity: nat)
    requires Bind(core, program, identity).Some?
    ensures DeskInv(Bind(core, program, identity).value)
  {
  }

  /** What one proposal of the model underneath changes. */
  lemma ProposeCore(b: H.Book, r: Role, successor: Key, recovery: bool, nonce: u64, epoch: u64, signers: set<Key>,
          now: time)
    requires H.Propose(b, r, successor, recovery, nonce, epoch, signers, now).Some?
    ensures var b' := H.Propose(b, r, successor, recovery, nonce, epoch, signers, now).value;
      && b'.policy == b.policy && b'.Of(r.Other()) == b.Of(r.Other()) && nonce == b.Of(r).sequence + 1
      && b'.Of(r).sequence == nonce && now + CHANGE_NOTICE + EXECUTION_WINDOW <= I64_MAX
      && b'.Of(r).pending == Some(H.Plan(b.policy, r, nonce, epoch, b.Of(r).current, successor, recovery, now,
          now + CHANGE_NOTICE, now + CHANGE_NOTICE + EXECUTION_WINDOW))
  {
    hide H.SuccessorAllowed, H.Quorum;
    if r.Founder? {} else {}
  }

  /** What ending a proposal of the model underneath leaves. */
  lemma EndCore(b: H.Book, r: Role, digest: H.Digest, signers: set<Key>, now: time, b': H.Book)
    requires H.Execute(b, r, digest, now) == Some(b') || H.Cancel(b, r, digest, signers, now) == Some(b')
      || H.Expire(b, r, digest, now) == Some(b')
    ensures b'.policy == b.policy && b'.Of(r.Other()) == b.Of(r.Other())
    ensures b'.Of(r).pending.None? && b'.Of(r).sequence == b.Of(r).sequence
  {
    hide H.SuccessorAllowed, H.Quorum;
    if r.Founder? {} else {}
  }

  lemma SubmitKeeps(s: Desk, i: Intent, attestations: map<Key, Seal>, now: time)
    requires DeskInv(s) && Submit(s, i, attestations, now).Some?
    ensures DeskInv(Submit(s, i, attestations, now).value)
  {
    hide H.Propose;
    ProposeCore(s.core, i.role, i.successor, i.recovery, i.nonce, i.epoch, attestations.Keys, now);
    var s' := Submit(s, i, attestations, now).value;
    var r := i.role;
    assert RoleAdmitted(s, r.Other());
    assert RoleAdmitted(s', r) && RoleAdmitted(s', r.Other());
    if r.Founder? {} else {}
  }

  lemma EndKeeps(s: Desk, a: Act)
    requires DeskInv(s) && !a.ActSubmit? && Do(s, a).Some?
    ensures DeskInv(Do(s, a).value)
  {
    hide H.Execute, H.Cancel, H.Expire;
    var s' := Do(s, a).value;
    var r := a.role;
    EndCore(s.core, r, PendingDigest(s, r), if a.ActCancel? then a.signers else {}, a.now, s'.core);
    assert RoleAdmitted(s, r.Other());
    assert RoleAdmitted(s', r) && RoleAdmitted(s', r.Other());
    if r.Founder? {} else {}
  }

  lemma {:induction false} RunKeeps(s: Desk, acts: seq<Act>)
    requires DeskInv(s) && DoAll(s, acts).Some?
    ensures DeskInv(DoAll(s, acts).value)
    decreases |acts|
  {
    if acts != [] {
      hide DeskInv;
      RunKeeps(s, acts[..|acts| - 1]);
      var before, last := DoAll(s, acts[..|acts| - 1]).value, acts[|acts| - 1];
      if last.ActSubmit? {
        SubmitKeeps(before, last.intent, last.attestations, last.now);
      } else {
        EndKeeps(before, last);
      }
    }
  }

  /** An admission that fits a pending plan: the same proposal, with the full notice from acceptance. */
  predicate AdmissionOf(s: Desk, r: Role, p: H.Plan, k: Slot) {
    k in s.admissions && k.role == r && PlanMatches(p, s.admissions[k].intent) && FullNotice(p, s.admissions[k])
  }

  /**
   After any run from a fresh desk, each pending proposal has exactly one admission that fits it, giving full notice
   from acceptance; handing in that admission's seal passes every consistency check, and no other seal does.
   */
  lemma PendingHasItsAdmission(core: H.Book, program: nat, identity: nat, acts: seq<Act>, r: Role, seal: Seal)
    requires Bind(core, program, identity).Some? && DoAll(Bind(core, program, identity).value, acts).Some?
    ensures var s := DoAll(Bind(core, program, identity).value, acts).value;
      var pending := s.core.Of(r).pending;
      if pending.None? then Pending(s, r, seal).None?
      else
        var own := Slot(r, pending.value.nonce);
        && AdmissionOf(s, r, pending.value, own)
        && (forall k :: AdmissionOf(s, r, pending.value, k) ==> k == own)
        && (Pending(s, r, seal) == if seal == s.admissions[own].seal then pending else None)
        && s.admissions[own].acceptedAt + CHANGE_NOTICE == pending.value.executeAfter
  {
    BindInv(core, program, identity);
    RunKeeps(Bind(core, program, identity).value, acts);
    var s := DoAll(Bind(core, program, identity).value, acts).value;
    hide DoAll, Bind;
    assert RoleAdmitted(s, r) by {
      if r.Founder? {} else {}
    }
  }

  /**
   After any run from a fresh desk, a submission whose proposal the model accepts is never refused as already used.
   */
  lemma NeverAlreadyUsed(core: H.Book, program: nat, identity: nat, acts: seq<Act>, i: Intent,
          attestations: map<Key, Seal>, now: time)
    requires Bind(core, program, identity).Some? && DoAll(Bind(core, program, identity).value, acts).Some?
    ensures var s := DoAll(Bind(core, program, identity).value, acts).value;
      H.Propose(s.core, i.role, i.successor, i.recovery, i.nonce, i.epoch, attestations.Keys, now).Some?
      ==> Slot(i.role, i.nonce) !in s.admissions
  {
    BindInv(core, program, identity);
    RunKeeps(Bind(core, program, identity).value, acts);
    var s := DoAll(Bind(core, program, identity).value, acts).value;
    hide DoAll, Bind, H.Propose;
    if H.Propose(s.core, i.role, i.successor, i.recovery, i.nonce, i.epoch, attestations.Keys, now).Some? {
      ProposeCore(s.core, i.role, i.successor, i.recovery, i.nonce, i.epoch, attestations.Keys, now);
    }
  }

  /**
   After any run from a fresh desk, a prepared intent that its signers sealed, handed in on time, is refused only by the
   model.
   */
  lemma PreparedIsAccepted(core: H.Book, program: nat, identity: nat, acts: seq<Act>, r: Role, successor: Key,
          recovery: bool, validFrom: time, validUntil: time, attestations: map<Key, Seal>, now: time)
    requires Bind(core, program, identity).Some? && DoAll(Bind(core, program, identity).value, acts).Some?
    requires var s := DoAll(Bind(core, program, identity).value, acts).value;
      var i := Prepare(s, r, successor, recovery, validFrom, validUntil);
      && i.Some? && validFrom <= now <= validUntil
      && forall k :: k in attestations ==> k != Default && attestations[k] == SealOf(i.value)
    ensures var s := DoAll(Bind(core, program, identity).value, acts).value;
      var i := Prepare(s, r, successor, recovery, validFrom, validUntil).value;
      Submit(s, i, attestations, now).Some?
      == H.Propose(s.core, r, successor, recovery, s.core.Of(r).sequence + 1, s.core.Of(r).epoch, attestations.Keys,
          now).Some?
  {
    var s := DoAll(Bind(core, program, identity).value, acts).value;
    NeverAlreadyUsed(core, program, identity, acts, Prepare(s, r, successor, recovery, validFrom, validUntil).value,
        attestations, now);
    hide DoAll, Bind, H.Propose;
  }

  /**
   After any run from a fresh desk, a submission succeeds exactly when it is addressed to this desk by the current key,
   inside its window of at most five minutes, every attestation seals exactly this intent, and the model underneath
   accepts the proposal from those who attested.
   */
  lemma SubmitExactly(core: H.Book, program: nat, identity: nat, acts: seq<Act>, i: Intent,
          attestations: map<Key, Seal>, now: time)
    requires Bind(core, program, identity).Some? && DoAll(Bind(core, program, identity).value, acts).Some?
    ensures var s := DoAll(Bind(core, program, identity).value, acts).value;
      Submit(s, i, attestations, now).Some? <==>
        (i.program == s.program && i.policy == s.core.policy && i.identity == s.identity
         && i.predecessor == s.core.Of(i.role).current && i.predecessor != Default && i.successor != Default
         && i.validFrom <= now <= i.validUntil <= i.validFrom + 300 && i.validUntil + 120 * 86_400 <= I64_MAX
         && (forall k | k in attestations :: k != Default && attestations[k] == SealOf(i))
         && H.Propose(s.core, i.role, i.successor, i.recovery, i.nonce, i.epoch, attestations.Keys, now).Some?)
  {
    NeverAlreadyUsed(core, program, identity, acts, i, attestations, now);
    hide DoAll, Bind, H.Propose;
  }

  /** Whatever is submitted is what preparing it gives. */
  lemma SubmittedWasPrepared(s: Desk, i: Intent, attestations: map<Key, Seal>, now: time)
    requires Submit(s, i, attestations, now).Some?
    ensures Prepare(s, i.role, i.successor, i.recovery, i.validFrom, i.validUntil) == Some(i)
  {
    hide H.SuccessorAllowed, H.Quorum;
  }

  /**
   After any run from a fresh desk, handing in the seal of the pending proposal's admission executes,
     retracts or expires
   it exactly when the model underneath does, and no other seal does anything.
   */
  lemma EndExactly(core: H.Book, program: nat, identity: nat, acts: seq<Act>, r: Role, seal: Seal, signers: set<Key>,
          now: time)
    requires Bind(core, program, identity).Some? && DoAll(Bind(core, program, identity).value, acts).Some?
    ensures var s := DoAll(Bind(core, program, identity).value, acts).value;
      var m, digest := s.core.Of(r), PendingDigest(s, r);
      if m.pending.None? || Slot(r, m.pending.value.nonce) !in s.admissions
         || seal != SealOf(s.admissions[Slot(r, m.pending.value.nonce)].intent)
      then Execute(s, r, seal, now) == None == Cancel(s, r, seal, signers, now) == Expire(s, r, seal, now)
      else
        && Execute(s, r, seal, now) == WithCore(s, H.Execute(s.core, r, digest, now))
        && Cancel(s, r, seal, signers, now) == WithCore(s, H.Cancel(s.core, r, digest, signers, now))
        && Expire(s, r, seal, now) == WithCore(s, H.Expire(s.core, r, digest, now))
  {
    PendingHasItsAdmission(core, program, identity, acts, r, seal);
    BindInv(core, program, identity);
    RunKeeps(Bind(core, program, identity).value, acts);
    var s := DoAll(Bind(core, program, identity).value, acts).value;
    hide DoAll, Bind, H.Execute, H.Cancel, H.Expire, AdmissionOf;
    assert RoleAdmitted(s, r) by {
      if r.Founder? {} else {}
    }
  }
}
