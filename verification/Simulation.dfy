/**
 The O(1) key index refines the history lists: every committed step of every run is a successful call of the simple
 model.
 */
module Simulation {
  import opened Basics
  import opened State
  import opened Launch
  import opened Invariant
  import opened Tombstones
  import Withdrawal
  import RegistryProofs
  import Capacity
  import H = HistoryModel

  const POLICY := 0

  /* ---- The abstraction ---- */

  function PlanOf(q: Proposal): H.Plan
    requires 0 <= q.createdAt
  {
    H.Plan(POLICY, q.role, q.nonce, q.epoch, q.predecessor, q.successor, q.recovery, q.createdAt, q.executeAfter,
        q.expiresAt)
  }

  /** A stored proposal and the model's record of it. */
  predicate SameTombstone(q: Proposal, m: H.Tombstone) {
    0 <= q.createdAt && m == H.Tombstone(PlanOf(q), H.DigestOf(PlanOf(q)), q.status, q.finishedAt)
  }

  predicate SamePending(lane: Lane, pending: Option<H.Plan>) {
    if lane.state.pending == 0 then pending.None?
    else lane.state.sequence in lane.proposals && 0 <= lane.proposals[lane.state.sequence].createdAt
         && pending == Some(PlanOf(lane.proposals[lane.state.sequence]))
  }

  ghost predicate SameTombstones(proposals: map<u64, Proposal>, tombstones: map<u64, H.Tombstone>) {
    forall n :: (n in tombstones <==> n in proposals && proposals[n].status != Pending)
                && (n in tombstones ==> SameTombstone(proposals[n], tombstones[n]))
  }

  ghost predicate MemberOf(t: Terms, r: Role, lane: Lane, m: H.Member) {
    && Dense(lane.proposals, lane.state.sequence)
    && m.initial == t.Owner(r) && m.committee == t.config.Guardians(r)
    && m.current == lane.state.current && m.epoch == lane.state.epoch && m.sequence == lane.state.sequence
    && m.history == LaneFold(t.Owner(r), lane).history
    && SamePending(lane, m.pending)
    && SameTombstones(lane.proposals, m.tombstones)
  }

  predicate SameGrant(a: Approval, g: H.Grant) {
    g == H.Grant(a.period, a.recipient, a.recipientOwner, a.need, 0, a.createdAt, a.author, a.authorEpoch)
  }

  ghost predicate SameGrants(approvals: map<u64, Approval>, grants: map<u64, H.Grant>) {
    forall p :: (p in grants <==> p in approvals) && (p in grants ==> SameGrant(approvals[p], grants[p]))
  }

  /** The model's book of a world: it never sees time pass that its own calls did not use. */
  ghost predicate Related(t: Terms, reg: Registry, at: time, b: H.Book) {
    && b.policy == POLICY && b.t0 == t.config.t0 && b.lastAt <= at
    && MemberOf(t, Founder, reg.founder, b.founder) && MemberOf(t, Treasury, reg.treasury, b.treasury)
    && SameGrants(reg.approvals, b.grants)
  }

  lemma RelatedLane(t: Terms, reg: Registry, at: time, b: H.Book, r: Role)
    requires Related(t, reg, at, b)
    ensures MemberOf(t, r, reg.Lane(r), b.Of(r))
  {
    hide MemberOf, SameGrants;
    if r.Founder? {} else {}
  }

  /* ---- The index answers what the lists answer ---- */

  /** What one role's masks say of a key that has a record. */
  lemma LaneView(t: Terms, reg: Registry, at: i64, r: Role, k: Key)
    requires LaneInv(t, reg, r, at) && k in reg.keys
    ensures var f, lane := LaneFold(t.Owner(r), reg.Lane(r)), reg.Lane(r);
      && (k in f.history <==> k == t.Owner(r) || reg.keys[k].history.Has(r))
      && (lane.state.pending != 0 && lane.state.sequence in lane.proposals
          && lane.proposals[lane.state.sequence].successor == k
          <==> reg.keys[k].pending.Has(r))
  {
    RegistryProofs.LaneFacts(t, r, reg.Lane(r), at);
    var f := LaneFold(t.Owner(r), reg.Lane(r));
    assert Indexed(k, reg.keys[k], r, f);
    assert f.history == [f.history[0]] + f.history[1..];
    RegistryProofs.SettledLane(t, r, reg.Lane(r), at);
    if reg.Lane(r).state.pending != 0 {
      PendingPlan(t, reg, at, r);
    }
    hide LaneInv;
  }

  /** The O(1) successor test is the scan of the role's history, committee and approvals. */
  lemma SuccessorTestExact(t: Terms, reg: Registry, at: time, b: H.Book, r: Role, k: Key)
    requires RegistryInv(t, reg, at) && Related(t, reg, at, b) && k in reg.keys
    ensures Withdrawal.EligibleSuccessor(t, r, k, reg.keys[k]) <==> H.SuccessorAllowed(b, b.Of(r), k)
  {
    assert LaneInv(t, reg, r, at);
    RelatedLane(t, reg, at, b, r);
    hide RegistryInv, LaneInv, SameTombstones, SamePending, SameGrants, Related;
    LaneView(t, reg, at, r, k);
    RecipientScan(t, reg, at, b, k);
  }

  lemma ScanGrants(approvals: map<u64, Approval>, grants: map<u64, H.Grant>, k: Key)
    requires SameGrants(approvals, grants)
    ensures Approved(approvals, k) <==> exists p :: p in grants && grants[p].owner == k
  {
    if p :| p in approvals && approvals[p].recipientOwner == k {
      assert p in grants && grants[p].owner == k;
    }
    if p :| p in grants && grants[p].owner == k {
      assert p in approvals && approvals[p].recipientOwner == k;
    }
  }

  lemma RecipientScan(t: Terms, reg: Registry, at: time, b: H.Book, k: Key)
    requires RegistryInv(t, reg, at) && Related(t, reg, at, b) && k in reg.keys
    ensures reg.keys[k].recipient <==> exists p :: p in b.grants && b.grants[p].owner == k
  {
    assert SameGrants(reg.approvals, b.grants);
    hide RegistryInv, Related, Approved, SameGrants;
    RegistryProofs.RecipientExactly(t, reg, at, k);
    ScanGrants(reg.approvals, b.grants, k);
  }

  /** The O(1) recipient test is the scan of both roles' histories, committees and pending successors. */
  lemma RecipientTestExact(t: Terms, reg: Registry, at: time, b: H.Book, k: Key)
    requires RegistryInv(t, reg, at) && Related(t, reg, at, b) && k in reg.keys
    ensures Withdrawal.EligibleRecipient(t, k, reg.keys[k]) <==> !H.ForbiddenRecipient(b, k)
  {
    BlockedExact(t, reg, at, b, Founder, k);
    BlockedExact(t, reg, at, b, Treasury, k);
    hide RegistryInv, Related, H.BlockedBy;
  }

  lemma BlockedExact(t: Terms, reg: Registry, at: time, b: H.Book, r: Role, k: Key)
    requires RegistryInv(t, reg, at) && Related(t, reg, at, b) && k in reg.keys
    ensures H.BlockedBy(b.Of(r), k) <==>
      (k == t.Owner(r) || t.config.Guardians(r).Has(k) || reg.keys[k].history.Has(r) || reg.keys[k].pending.Has(r))
  {
    assert LaneInv(t, reg, r, at);
    RelatedLane(t, reg, at, b, r);
    hide RegistryInv, LaneInv, SameTombstones, Related;
    LaneView(t, reg, at, r, k);
  }

  lemma PendingPlan(t: Terms, reg: Registry, at: time, r: Role)
    requires LaneInv(t, reg, r, at) && reg.Lane(r).state.pending != 0
    ensures var n := reg.Lane(r).state.sequence;
      n in reg.Lane(r).proposals
        && LaneFold(t.Owner(r), reg.Lane(r)).pending == Some(reg.Lane(r).proposals[n].successor)
  {
    RegistryProofs.SettledLane(t, r, reg.Lane(r), at);
    PendingIsLast(t.Owner(r), t.config.Guardians(r), r, History(reg.Lane(r)), at);
  }

  lemma TwoSigners(m: H.Member, a: Key, b: Key, signers: set<Key>)
    requires Quorum(m.committee, a, b) && a in signers && b in signers
    ensures H.Quorum(m, signers)
  {
    var both := signers * m.committee.Members();
    assert {a, b} <= both;
    var rest := both - {a, b};
    assert both == {a, b} + rest;
    assert |both| == |{a, b}| + |rest|;
  }

  /* ---- Each operation ---- */

  function ProposedMember(m: H.Member, plan: H.Plan): H.Member { m.(pending := Some(plan), sequence := plan.nonce) }

  predicate TimesFit(now: time) { now + CHANGE_NOTICE + EXECUTION_WINDOW <= I64_MAX }

  function ProposedPlan(r: Role, i: Withdrawal.Intent, current: Key, now: time): H.Plan
    requires TimesFit(now)
  {
    H.Plan(POLICY, r, i.nonce, i.epoch, current, i.successor, i.recovery, now, now + CHANGE_NOTICE,
        now + CHANGE_NOTICE + EXECUTION_WINDOW)
  }

  /** What a committed proposal checked, and the lane it leaves. */
  lemma ProposeFacts(t: Terms, reg: Registry, i: Withdrawal.Intent, now: time)
    requires i.successor in reg.keys && Withdrawal.Propose(t, reg, i, now).Ok?
    ensures RoleOf(i.role).Some? && TimesFit(now)
    ensures var r := RoleOf(i.role).value; var rs := reg.Lane(r).state;
      && rs.pending == 0 && rs.sequence < U64_MAX && i.nonce == rs.sequence + 1 && i.epoch == rs.epoch < U64_MAX
      && Withdrawal.EligibleSuccessor(t, r, i.successor, reg.keys[i.successor])
      && (if i.recovery then Quorum(t.config.Guardians(r), i.initiator, i.cosigner) else i.initiator == rs.current)
      && var lane' := Withdrawal.Propose(t, reg, i, now).value.Lane(r);
      && lane'.state == rs.(pending := i.nonce, sequence := i.nonce)
      && lane'.proposals == reg.Lane(r).proposals[i.nonce := Withdrawal.NewProposal(r, i, rs.current, now,
          now + CHANGE_NOTICE, now + CHANGE_NOTICE + EXECUTION_WINDOW)]
  {
    hide Withdrawal.EligibleSuccessor, Quorum;
  }

  lemma ProposedTombstones(proposals: map<u64, Proposal>, tombstones: map<u64, H.Tombstone>, n: u64, q: Proposal)
    requires SameTombstones(proposals, tombstones) && n !in proposals && q.status == Pending
    ensures SameTombstones(proposals[n := q], tombstones)
  {
    hide SameTombstone;
  }

  /** A proposal beyond a dense sequence is new. */
  lemma NextIsNew(lane: Lane)
    requires Dense(lane.proposals, lane.state.sequence)
    ensures lane.state.sequence < U64_MAX ==> lane.state.sequence + 1 !in lane.proposals
  {
  }

  lemma UnnamedSuccessor(t: Terms, reg: Registry, at: i64, k: Key, now: i64)
    requires RegistryInv(t, reg, at) && at <= now && k in reg.keys && !reg.keys[k].recipient
    ensures RegistryProofs.Unnamed(reg.approvals, k, now)
  {
    hide Accepted, StateMatches, IndexOk, LaneClear, LaneUnpaused, ApprovalsInv, Dense;
    RegistryProofs.SuccessorUnapproved(t, reg, at, k, now);
  }

  lemma ProposedHistory(t: Terms, reg: Registry, i: Withdrawal.Intent, at: time, now: time, r: Role)
    requires RegistryInv(t, reg, at) && at <= now
    requires i.successor in reg.keys && RoleOf(i.role) == Some(r) && Withdrawal.Propose(t, reg, i, now).Ok?
    ensures Dense(reg.Lane(r).proposals, reg.Lane(r).state.sequence)
    ensures var lane' := Withdrawal.Propose(t, reg, i, now).value.Lane(r);
      Dense(lane'.proposals, lane'.state.sequence)
        && LaneFold(t.Owner(r), lane').history == LaneFold(t.Owner(r), reg.Lane(r)).history
  {
    hide Withdrawal.Propose, LaneInv, Dense, Replay, ApprovalsInv;
    RegistryProofs.ProposeChanges(t, reg, i, now);
    assert LaneInv(t, reg, r, at);
    UnnamedSuccessor(t, reg, at, i.successor, now);
    RegistryProofs.ProposeLane(t, reg, i, at, now, r);
    RegistryProofs.LaneDense(t, reg, r, at);
    RegistryProofs.LaneDense(t, Withdrawal.Propose(t, reg, i, now).value, r, now);
  }

  lemma ProposeMember(t: Terms, reg: Registry, at: time, m: H.Member, i: Withdrawal.Intent, now: time, r: Role)
    requires RegistryInv(t, reg, at) && at <= now && MemberOf(t, r, reg.Lane(r), m)
    requires i.successor in reg.keys && RoleOf(i.role) == Some(r) && Withdrawal.Propose(t, reg, i, now).Ok?
    ensures TimesFit(now)
    ensures MemberOf(t, r, Withdrawal.Propose(t, reg, i, now).value.Lane(r),
        ProposedMember(m, ProposedPlan(r, i, m.current, now)))
  {
    hide Withdrawal.Propose, LaneInv, RegistryInv, Withdrawal.EligibleSuccessor, SameTombstones, Replay,
      Tombstones.Tombstones, Dense;
    ProposeFacts(t, reg, i, now);
    ProposedHistory(t, reg, i, at, now, r);
    NextIsNew(reg.Lane(r));
    ProposedTombstones(reg.Lane(r).proposals, m.tombstones, i.nonce,
      Withdrawal.NewProposal(r, i, m.current, now, now + CHANGE_NOTICE, now + CHANGE_NOTICE + EXECUTION_WINDOW));
  }

  /** Related books after a step that changed one role's lane. */
  lemma RelatedLaneStep(t: Terms, reg: Registry, reg': Registry, at: time, now: time, b: H.Book, r: Role, m: H.Member)
    requires Related(t, reg, at, b) && at <= now
    requires reg'.Lane(r.Other()) == reg.Lane(r.Other()) && reg'.approvals == reg.approvals
    requires MemberOf(t, r, reg'.Lane(r), m)
    ensures Related(t, reg', now, b.With(r, m).(lastAt := now))
  {
    hide MemberOf, SameGrants;
    if r.Founder? {} else {}
  }

  lemma ModelProposes(b: H.Book, r: Role, i: Withdrawal.Intent, signers: set<Key>, now: time)
    requires var m := b.Of(r);
      && b.policy == POLICY && b.lastAt <= now && m.pending.None? && m.sequence < U64_MAX && i.nonce == m.sequence + 1
      && i.epoch == m.epoch < U64_MAX && H.SuccessorAllowed(b, m, i.successor) && i.successor in signers
      && (if i.recovery then H.Quorum(m, signers) else m.current in signers) && TimesFit(now)
    ensures H.Propose(b, r, i.successor, i.recovery, i.nonce, i.epoch, signers, now)
         == Some(b.With(r, ProposedMember(b.Of(r), ProposedPlan(r, i, b.Of(r).current, now))).(lastAt := now))
  {
    hide H.SuccessorAllowed, H.Quorum;
  }

  /** What related books say of one role. */
  lemma RelatedFacts(t: Terms, reg: Registry, at: time, b: H.Book, r: Role)
    requires Related(t, reg, at, b)
    ensures b.policy == POLICY && b.lastAt <= at && b.t0 == t.config.t0
    ensures var m, lane := b.Of(r), reg.Lane(r);
      && m.current == lane.state.current && m.epoch == lane.state.epoch && m.sequence == lane.state.sequence
      && m.committee == t.config.Guardians(r) && (lane.state.pending == 0 <==> m.pending.None?)
    ensures MemberOf(t, r, reg.Lane(r), b.Of(r)) && SameGrants(reg.approvals, b.grants)
  {
    RelatedLane(t, reg, at, b, r);
    hide SameTombstones, SameGrants, Dense, Replay;
  }

  /** A committed proposal is a successful one of the model. */
  lemma ProposeSimulates(t: Terms, reg: Registry, at: time, b: H.Book, i: Withdrawal.Intent, now: time)
    requires RegistryInv(t, reg, at) && at <= now && Related(t, reg, at, b)
    requires i.successor in reg.keys && Withdrawal.Propose(t, reg, i, now).Ok?
    ensures RoleOf(i.role).Some?
    ensures var b' := H.Propose(b, RoleOf(i.role).value, i.successor, i.recovery, i.nonce, i.epoch,
        {i.initiator, i.cosigner, i.successor}, now);
      b'.Some? && Related(t, Withdrawal.Propose(t, reg, i, now).value, now, b'.value)
  {
    hide Withdrawal.Propose, RegistryInv, Withdrawal.EligibleSuccessor, H.SuccessorAllowed, H.Quorum, H.Propose,
      Related, MemberOf;
    ProposeFacts(t, reg, i, now);
    RegistryProofs.ProposeChanges(t, reg, i, now);
    var r := RoleOf(i.role).value;
    var m := b.Of(r);
    AdmissionExactly(i.validFrom, i.validUntil, now);
    RelatedFacts(t, reg, at, b, r);
    SuccessorTestExact(t, reg, at, b, r, i.successor);
    var signers: set<Key> := {i.initiator, i.cosigner, i.successor};
    if i.recovery {
      TwoSigners(m, i.initiator, i.cosigner, signers);
    }
    ModelProposes(b, r, i, signers, now);
    ProposeMember(t, reg, at, m, i, now, r);
    RelatedLaneStep(t, reg, Withdrawal.Propose(t, reg, i, now).value, at, now, b, r, ProposedMember(m,
        ProposedPlan(r, i, m.current, now)));
  }

  /* ---- Ending a proposal ---- */

  function EndedMember(m: H.Member, status: Status, now: time): H.Member
    requires m.pending.Some?
  {
    var p := m.pending.value;
    var m' := m.(pending := None, tombstones := m.tombstones[p.nonce := H.Tombstone(p, H.DigestOf(p), status, now)]);
    if status == Executed then m'.(current := p.successor, history := m.history + [p.successor], epoch := m.epoch + 1)
      else m'
  }

  lemma EndedTombstones(proposals: map<u64, Proposal>, tombstones: map<u64, H.Tombstone>, n: u64, status: Status,
          now: time)
    requires SameTombstones(proposals, tombstones) && n in proposals && status != Pending && 0 <= proposals[n].createdAt
    requires proposals[n].nonce == n
    ensures var p := PlanOf(proposals[n]);
      SameTombstones(proposals[n := proposals[n].(status := status, finishedAt := now)],
                     tombstones[n := H.Tombstone(p, H.DigestOf(p), status, now)])
  {
  }

  lemma EndedLane(reg: Registry, r: Role, status: Status, now: time)
    requires RegistryProofs.MayEnd(reg, r, status, now)
    ensures var lane, n := reg.Lane(r), reg.Lane(r).state.sequence;
      RegistryProofs.EndedRegistry(reg, r, status, now).Lane(r)
      == Lane(RegistryProofs.EndedState(lane.state, status, lane.proposals[n].successor),
              lane.proposals[n := lane.proposals[n].(status := status, finishedAt := now)])
  {
    hide Finished;
  }

  lemma EndMember(t: Terms, reg: Registry, at: time, m: H.Member, status: Status, now: time, r: Role)
    requires LaneInv(t, reg, r, at) && at <= now && MemberOf(t, r, reg.Lane(r), m)
    requires RegistryProofs.MayEnd(reg, r, status, now)
    ensures m.pending.Some? && m.pending.value.nonce == m.sequence
    ensures MemberOf(t, r, RegistryProofs.EndedRegistry(reg, r, status, now).Lane(r), EndedMember(m, status, now))
  {
    hide LaneInv, SameTombstones, Replay, Finished, Tombstones.Tombstones, RegistryProofs.EndedRegistry, Dense;
    var lane, n := reg.Lane(r), reg.Lane(r).state.sequence;
    RegistryProofs.PendingExactly(t, reg, r, n, at);
    RegistryProofs.EndLane(t, reg, r, status, at, now);
    RegistryProofs.LaneDense(t, RegistryProofs.EndedRegistry(reg, r, status, now), r, now);
    PendingBinds(t, reg, at, r);
    EndedLane(reg, r, status, now);
    EndedTombstones(lane.proposals, m.tombstones, n, status, now);
    if status == Executed {} else {}
  }

  lemma EndBook(t: Terms, reg: Registry, at: time, b: H.Book, status: Status, now: time, r: Role)
    requires LaneInv(t, reg, r, at) && at <= now && Related(t, reg, at, b) && RegistryProofs.MayEnd(reg, r, status, now)
    ensures b.Of(r).pending.Some? && reg.Lane(r).state.sequence in reg.Lane(r).proposals
    ensures var q := reg.Lane(r).proposals[reg.Lane(r).state.sequence];
      0 <= q.createdAt && b.Of(r).pending == Some(PlanOf(q)) && H.Pending(b, r, H.DigestOf(PlanOf(q)), now)
    ensures Related(t, RegistryProofs.EndedRegistry(reg, r, status, now), now,
        b.With(r, EndedMember(b.Of(r), status, now)).(lastAt := now))
  {
    RelatedLane(t, reg, at, b, r);
    EndMember(t, reg, at, b.Of(r), status, now, r);
    RegistryProofs.EndChanges(reg, r, status, now);
    RelatedLaneStep(t, reg, RegistryProofs.EndedRegistry(reg, r, status, now), at, now, b, r,
        EndedMember(b.Of(r), status, now));
    PendingBinds(t, reg, at, r);
    hide RegistryProofs.EndedRegistry, LaneInv, SameTombstones, SameGrants;
  }

  predicate Binds(lane: Lane, r: Role) {
    && lane.state.sequence in lane.proposals
    && var q := lane.proposals[lane.state.sequence];
    q.role == r && q.epoch == lane.state.epoch && q.predecessor == lane.state.current && q.nonce == lane.state.sequence
  }

  /** The pending proposal carries its role's current epoch, key and sequence. */
  lemma PendingBinds(t: Terms, reg: Registry, at: time, r: Role)
    requires LaneInv(t, reg, r, at) && reg.Lane(r).state.pending != 0
    ensures Binds(reg.Lane(r), r)
  {
    RegistryProofs.PendingSuccessor(t, reg, r, at);
    RegistryProofs.PendingExactly(t, reg, r, reg.Lane(r).state.sequence, at);
    hide LaneInv;
  }

  lemma ModelEnds(b: H.Book, r: Role, digest: H.Digest, signers: set<Key>, now: time)
    requires H.Pending(b, r, digest, now)
    ensures var m, p := b.Of(r), b.Of(r).pending.value;
      && (p.executeAfter <= now < p.expiresAt && H.SuccessorAllowed(b, m, p.successor) ==>
            H.Execute(b, r, digest, now) == Some(b.With(r, EndedMember(m, Executed, now)).(lastAt := now)))
      && (p.successor in signers || H.Quorum(m, signers) || (!p.recovery && m.current in signers) ==>
            H.Cancel(b, r, digest, signers, now) == Some(b.With(r, EndedMember(m, Retracted, now)).(lastAt := now)))
      && (now >= p.expiresAt ==>
          H.Expire(b, r, digest, now) == Some(b.With(r, EndedMember(m, Expired, now)).(lastAt := now)))
  {
    hide H.SuccessorAllowed, H.Quorum;
    if r.Founder? {} else {}
  }

  lemma ExecuteSimulates(t: Terms, reg: Registry, at: time, b: H.Book, r: Role, nonce: u64, now: time)
    requires RegistryInv(t, reg, at) && at <= now && Related(t, reg, at, b)
    requires Withdrawal.Bound(reg, r, nonce) && Withdrawal.Execute(t, reg, r, nonce, now).Ok?
    requires 0 <= reg.Lane(r).proposals[nonce].createdAt
    ensures var b' := H.Execute(b, r, H.DigestOf(PlanOf(reg.Lane(r).proposals[nonce])), now);
      b'.Some? && Related(t, Withdrawal.Execute(t, reg, r, nonce, now).value, now, b'.value)
  {
    assert LaneInv(t, reg, r, at);
    var q := reg.Lane(r).proposals[nonce];
    ExecuteFacts(t, reg, r, nonce, now);
    hide Withdrawal.Execute, LaneInv, RegistryInv, Related, RegistryProofs.MayEnd, RegistryProofs.EndedRegistry,
      Withdrawal.EligibleSuccessor, H.SuccessorAllowed, H.Pending, H.Execute, EndedMember;
    RegistryProofs.ExecuteIsEnded(t, reg, r, nonce, at, now);
    EndBook(t, reg, at, b, Executed, now, r);
    SuccessorTestExact(t, reg, at, b, r, q.successor);
    ModelEnds(b, r, H.DigestOf(PlanOf(q)), {}, now);
  }

  lemma ExecuteFacts(t: Terms, reg: Registry, r: Role, nonce: u64, now: time)
    requires Withdrawal.Bound(reg, r, nonce) && Withdrawal.Execute(t, reg, r, nonce, now).Ok?
    ensures var q := reg.Lane(r).proposals[nonce];
      q.executeAfter <= now < q.expiresAt && Withdrawal.EligibleSuccessor(t, r, q.successor, reg.keys[q.successor])
  {
  }

  lemma CancelFacts(t: Terms, reg: Registry, r: Role, nonce: u64, one: Key, two: Key, now: time)
    requires Withdrawal.Bound(reg, r, nonce) && Withdrawal.Cancel(t, reg, r, nonce, one, two, now).Ok?
    ensures var q := reg.Lane(r).proposals[nonce];
      || Quorum(t.config.Guardians(r), one, two)
      || (one == two && (one == q.successor || (!q.recovery && one == reg.Lane(r).state.current)))
  {
    hide Quorum;
  }

  lemma CancelSimulates(t: Terms, reg: Registry, at: time, b: H.Book, r: Role, nonce: u64, one: Key, two: Key,
          now: time)
    requires RegistryInv(t, reg, at) && at <= now && Related(t, reg, at, b)
    requires Withdrawal.Bound(reg, r, nonce) && Withdrawal.Cancel(t, reg, r, nonce, one, two, now).Ok?
    requires 0 <= reg.Lane(r).proposals[nonce].createdAt
    ensures var b' := H.Cancel(b, r, H.DigestOf(PlanOf(reg.Lane(r).proposals[nonce])), {one, two}, now);
      b'.Some? && Related(t, Withdrawal.Cancel(t, reg, r, nonce, one, two, now).value, now, b'.value)
  {
    assert LaneInv(t, reg, r, at);
    var q := reg.Lane(r).proposals[nonce];
    CancelFacts(t, reg, r, nonce, one, two, now);
    hide Withdrawal.Cancel, LaneInv, RegistryInv, Related, RegistryProofs.MayEnd, RegistryProofs.EndedRegistry,
      MemberOf, H.Pending, H.Quorum, H.Cancel, Quorum, EndedMember;
    RelatedFacts(t, reg, at, b, r);
    if Quorum(b.Of(r).committee, one, two) {
      TwoSigners(b.Of(r), one, two, {one, two});
    }
    RegistryProofs.CancelIsEnded(t, reg, r, nonce, one, two, at, now);
    EndBook(t, reg, at, b, Retracted, now, r);
    ModelEnds(b, r, H.DigestOf(PlanOf(q)), {one, two}, now);
  }

  lemma ExpireSimulates(t: Terms, reg: Registry, at: time, b: H.Book, r: Role, nonce: u64, now: time)
    requires RegistryInv(t, reg, at) && at <= now && Related(t, reg, at, b)
    requires Withdrawal.Bound(reg, r, nonce) && Withdrawal.Expire(reg, r, nonce, now).Ok?
    requires 0 <= reg.Lane(r).proposals[nonce].createdAt
    ensures var b' := H.Expire(b, r, H.DigestOf(PlanOf(reg.Lane(r).proposals[nonce])), now);
      b'.Some? && Related(t, Withdrawal.Expire(reg, r, nonce, now).value, now, b'.value)
  {
    assert LaneInv(t, reg, r, at);
    var q := reg.Lane(r).proposals[nonce];
    assert now >= q.expiresAt;
    hide Withdrawal.Expire, LaneInv, RegistryInv, Related, RegistryProofs.MayEnd, RegistryProofs.EndedRegistry,
      H.Pending, H.Expire, EndedMember;
    RegistryProofs.ExpireIsEnded(t, reg, r, nonce, at, now);
    EndBook(t, reg, at, b, Expired, now, r);
    ModelEnds(b, r, H.DigestOf(PlanOf(q)), {}, now);
  }

  /* ---- Approvals and releases ---- */

  lemma ApproveFacts(t: Terms, reg: Registry, author: Key, period: u64, need: u64, epoch: u64, recipient: Addr,
          owner: Key, now: time)
    requires 0 <= t.config.t0 && owner in reg.keys && owner != Default
    requires Withdrawal.Approve(t, reg, author, period, need, epoch, recipient, owner, now).Ok?
    ensures var reg' := Withdrawal.Approve(t, reg, author, period, need, epoch, recipient, owner, now).value;
      && need > 0 && Withdrawal.Authenticate(reg, Treasury, author, epoch).Pass?
      && Withdrawal.EligibleRecipient(t, owner, reg.keys[owner])
      && t.config.t0 + (period + 1) * PERIOD <= I64_MAX && now + PERIOD < t.config.t0 + (period + 1) * PERIOD
      && (now < t.config.t0 || period > (now - t.config.t0) / PERIOD)
      && reg'.founder == reg.founder && reg'.treasury == reg.treasury
      && reg'.approvals == reg.approvals[period := Approval(period, recipient, owner, need, 0, now, author, epoch)]
  {
    hide Withdrawal.EligibleRecipient;
  }

  lemma GrantKnown(approvals: map<u64, Approval>, grants: map<u64, H.Grant>, p: u64)
    requires SameGrants(approvals, grants)
    ensures p in grants <==> p in approvals
    ensures p in grants ==> SameGrant(approvals[p], grants[p])
  {
  }

  lemma RelatedApproval(t: Terms, reg: Registry, reg': Registry, at: time, now: time, b: H.Book, a: Approval)
    requires Related(t, reg, at, b) && at <= now && a.consumed == 0
    requires reg'.founder == reg.founder && reg'.treasury == reg.treasury
    requires reg'.approvals == reg.approvals[a.period := a]
    ensures Related(t, reg', now,
              b.(grants := b.grants[a.period := H.Grant(a.period, a.recipient, a.recipientOwner, a.need, 0, a.createdAt,
                  a.author, a.authorEpoch)], lastAt := now))
  {
    hide MemberOf;
  }

  lemma ModelApproves(b: H.Book, author: Key, period: u64, need: u64, epoch: u64, recipient: Addr, owner: Key,
          now: time)
    requires H.Authenticated(b, Treasury, author, epoch, now) && need > 0 && owner != Default
    requires !H.ForbiddenRecipient(b, owner) && period !in b.grants
    requires b.t0 + (period + 1) * PERIOD <= I64_MAX && now + PERIOD < b.t0 + (period + 1) * PERIOD
    requires now < b.t0 || period > (now - b.t0) / PERIOD
    ensures H.Approve(b, author, epoch, period, recipient, owner, need, now)
         == Some(b.(grants := b.grants[period := H.Grant(period, recipient, owner, need, 0, now, author, epoch)],
             lastAt := now))
  {
    hide H.ForbiddenRecipient;
  }

  lemma ApproveSimulates(t: Terms, reg: Registry, at: time, b: H.Book, author: Key, period: u64, need: u64, epoch: u64,
          recipient: Addr, owner: Key, now: time)
    requires RegistryInv(t, reg, at) && at <= now && Related(t, reg, at, b) && 0 <= t.config.t0
    requires owner in reg.keys && owner != Default && period !in reg.approvals
    requires Withdrawal.Approve(t, reg, author, period, need, epoch, recipient, owner, now).Ok?
    ensures var b' := H.Approve(b, author, epoch, period, recipient, owner, need, now);
      b'.Some? && Related(t, Withdrawal.Approve(t, reg, author, period, need, epoch, recipient, owner, now).value, now,
          b'.value)
  {
    hide RegistryInv, Withdrawal.Approve, Withdrawal.EligibleRecipient, H.ForbiddenRecipient, H.Approve, MemberOf,
      Related, SameGrants;
    ApproveFacts(t, reg, author, period, need, epoch, recipient, owner, now);
    RecipientTestExact(t, reg, at, b, owner);
    RelatedFacts(t, reg, at, b, Treasury);
    GrantKnown(reg.approvals, b.grants, period);
    ModelApproves(b, author, period, need, epoch, recipient, owner, now);
    RelatedApproval(t, reg, Withdrawal.Approve(t, reg, author, period, need, epoch, recipient, owner, now).value, at,
        now, b, Approval(period, recipient, owner, need, 0, now, author, epoch));
  }

  /** The approval argument of an authorized release: none for the founder, the current period's for the treasury. */
  lemma ReleaseNames(w: World, now: time, authority: Signer, r: Role, amount: u64, epoch: u64, destination: Addr,
          approval: Option<u64>, recipientRecord: Option<Key>)
    requires r in w.vaults && destination in w.tokens
    requires approval.Some? ==> approval.value in w.registry.approvals
    requires recipientRecord.Some? ==> recipientRecord.value in w.registry.keys
    requires AuthorizeRelease(w, now, authority, r, amount, epoch, destination, approval, recipientRecord).Ok?
    ensures State.PeriodAt(w.terms.config.t0, now).Ok?
    ensures approval == if r.Founder? then None else Some(State.PeriodAt(w.terms.config.t0, now).value)
  {
    hide Withdrawal.EligibleRecipient, CheckReport;
  }

  lemma ReleaseParts(w: World)
    requires Inv(w)
    ensures TermsOk(w.terms) && RegistryInv(w.terms, w.registry, w.lastActionAt)
  {
  }

  lemma ReleaseSimulates(w: World, b: H.Book, now: time, authority: Signer, r: Role, amount: u64, epoch: u64,
          destination: Addr, approval: Option<u64>, recipientRecord: Option<Key>)
    requires Inv(w) && Related(w.terms, w.registry, w.lastActionAt, b)
    requires ReleaseStep(w, now, authority, r, amount, epoch, destination, approval, recipientRecord).Ok?
    ensures destination in w.tokens && now >= w.lastActionAt
    ensures H.AuthorizesRelease(b, r, authority, epoch, destination, w.tokens[destination].owner, now, approval)
  {
    hide Inv, RegistryInv, AuthorizeRelease, H.ForbiddenRecipient, Related, MemberOf, SameGrants,
      Withdrawal.EligibleRecipient, CheckReport, Capacity.Consume;
    ReleaseParts(w);
    ReleaseAuthorized(Tick(w, now).value, now, authority, r, amount, epoch, destination, approval, recipientRecord);
    ReleaseNames(Tick(w, now).value, now, authority, r, amount, epoch, destination, approval, recipientRecord);
    RelatedFacts(w.terms, w.registry, w.lastActionAt, b, r);
    if r.Treasury? {
      var p := State.PeriodAt(w.terms.config.t0, now).value;
      RegistryProofs.RecipientStaysEligible(w.terms, w.registry, w.lastActionAt, p);
      RecipientTestExact(w.terms, w.registry, w.lastActionAt, b, w.registry.approvals[p].recipientOwner);
      GrantKnown(w.registry.approvals, b.grants, p);
    }
  }

  /* ---- And back: what the model accepts, the chain accepts ---- */

  /** A stored proposal whose digest the model knows as pending is the lane's pending proposal. */
  lemma DigestNamesPending(t: Terms, reg: Registry, at: time, b: H.Book, r: Role, nonce: u64, now: time)
    requires LaneInv(t, reg, r, at) && Related(t, reg, at, b) && Withdrawal.Bound(reg, r, nonce)
      && 0 <= reg.Lane(r).proposals[nonce].createdAt
    requires H.Pending(b, r, H.DigestOf(PlanOf(reg.Lane(r).proposals[nonce])), now)
    ensures reg.Lane(r).state.pending != 0 && nonce == reg.Lane(r).state.sequence
    ensures Withdrawal.CheckPending(reg.Lane(r).state, r, reg.Lane(r).proposals[nonce],
        reg.keys[reg.Lane(r).proposals[nonce].successor]).Pass?
  {
    hide LaneInv, SameTombstones, SameGrants, Replay, Dense, Withdrawal.CheckPending;
    RelatedLane(t, reg, at, b, r);
    RegistryProofs.PendingExactly(t, reg, r, nonce, at);
    PendingBinds(t, reg, at, r);
    RegistryProofs.PendingSuccessor(t, reg, r, at);
  }

  /** What the model executes or expires, the chain does too. */
  lemma EndingReflects(t: Terms, reg: Registry, at: time, b: H.Book, r: Role, nonce: u64, now: time)
    requires RegistryInv(t, reg, at) && at <= now && Related(t, reg, at, b)
    requires Withdrawal.Bound(reg, r, nonce) && 0 <= reg.Lane(r).proposals[nonce].createdAt
    requires H.Pending(b, r, H.DigestOf(PlanOf(reg.Lane(r).proposals[nonce])), now)
    ensures var q := reg.Lane(r).proposals[nonce];
      && (q.executeAfter <= now < q.expiresAt ==> Withdrawal.Execute(t, reg, r, nonce, now).Ok?)
      && (q.expiresAt <= now ==> Withdrawal.Expire(reg, r, nonce, now).Ok?)
  {
    hide RegistryInv, LaneInv, Related, H.Pending, Withdrawal.Execute, Withdrawal.Expire, Withdrawal.CheckPending;
    RegistryLane(t, reg, at, r);
    DigestNamesPending(t, reg, at, b, r, nonce, now);
    RegistryProofs.PendingNeverStuck(t, reg, r, at, now);
  }

  /** Execution and expiry succeed on chain exactly when they do in the model. */
  lemma EndingExact(t: Terms, reg: Registry, at: time, b: H.Book, r: Role, nonce: u64, now: time)
    requires RegistryInv(t, reg, at) && at <= now && Related(t, reg, at, b)
    requires Withdrawal.Bound(reg, r, nonce) && 0 <= reg.Lane(r).proposals[nonce].createdAt
    ensures var digest := H.DigestOf(PlanOf(reg.Lane(r).proposals[nonce]));
      && (Withdrawal.Execute(t, reg, r, nonce, now).Ok? <==> H.Execute(b, r, digest, now).Some?)
      && (Withdrawal.Expire(reg, r, nonce, now).Ok? <==> H.Expire(b, r, digest, now).Some?)
  {
    var digest := H.DigestOf(PlanOf(reg.Lane(r).proposals[nonce]));
    hide Withdrawal.Execute, Withdrawal.Expire, Withdrawal.Bound, RegistryInv, Related, H.Pending, H.Execute, H.Expire;
    if Withdrawal.Execute(t, reg, r, nonce, now).Ok? {
      ExecuteSimulates(t, reg, at, b, r, nonce, now);
    }
    if Withdrawal.Expire(reg, r, nonce, now).Ok? {
      ExpireSimulates(t, reg, at, b, r, nonce, now);
    }
    ModelWindow(b, r, digest, now);
    if H.Pending(b, r, digest, now) {
      EndingReflects(t, reg, at, b, r, nonce, now);
    }
  }

  lemma ModelWindow(b: H.Book, r: Role, digest: H.Digest, now: time)
    ensures H.Pending(b, r, digest, now) ==> b.Of(r).pending == Some(digest.plan)
    ensures H.Execute(b, r, digest, now).Some? ==>
      H.Pending(b, r, digest, now) && digest.plan.executeAfter <= now < digest.plan.expiresAt
    ensures H.Expire(b, r, digest, now).Some? ==> H.Pending(b, r, digest, now) && digest.plan.expiresAt <= now
  {
    hide H.SuccessorAllowed;
  }

  lemma RegistryLane(t: Terms, reg: Registry, at: i64, r: Role)
    requires RegistryInv(t, reg, at)
    ensures LaneInv(t, reg, r, at)
  {
    hide LaneInv, ApprovalsInv;
    if r.Founder? {} else {}
  }

  lemma ModelCancels(b: H.Book, r: Role, digest: H.Digest, one: Key, two: Key, now: time)
    requires H.Cancel(b, r, digest, {one, two}, now).Some?
    ensures H.Pending(b, r, digest, now) && b.Of(r).pending == Some(digest.plan)
    ensures one == two ==> digest.plan.successor == one || (!digest.plan.recovery && b.Of(r).current == one)
  {
    if one == two {
      OneSigner(b.Of(r), one);
    }
    hide H.Quorum;
  }

  lemma ChainCancels(t: Terms, reg: Registry, r: Role, nonce: u64, one: Key, two: Key, now: time)
    requires Withdrawal.Bound(reg, r, nonce)
    requires var q, rs := reg.Lane(r).proposals[nonce], reg.Lane(r).state;
      && Withdrawal.CheckPending(rs, r, q, reg.keys[q.successor]).Pass?
      && (Quorum(t.config.Guardians(r), one, two)
          || (one == two && (one == q.successor || (!q.recovery && one == rs.current))))
    ensures Withdrawal.Cancel(t, reg, r, nonce, one, two, now).Ok?
  {
    hide Withdrawal.CheckPending, Quorum;
  }

  /** What the model lets one key or two guardians cancel, the chain does too. */
  lemma CancelReflects(t: Terms, reg: Registry, at: time, b: H.Book, r: Role, nonce: u64, one: Key, two: Key, now: time)
    requires RegistryInv(t, reg, at) && Related(t, reg, at, b)
    requires Withdrawal.Bound(reg, r, nonce) && 0 <= reg.Lane(r).proposals[nonce].createdAt
    requires one == two || Quorum(t.config.Guardians(r), one, two)
    requires H.Cancel(b, r, H.DigestOf(PlanOf(reg.Lane(r).proposals[nonce])), {one, two}, now).Some?
    ensures Withdrawal.Cancel(t, reg, r, nonce, one, two, now).Ok?
  {
    hide RegistryInv, LaneInv, Related, H.Pending, H.Cancel, Withdrawal.Cancel, Withdrawal.CheckPending, Quorum,
      MemberOf, SameGrants;
    RegistryLane(t, reg, at, r);
    RelatedFacts(t, reg, at, b, r);
    ModelCancels(b, r, H.DigestOf(PlanOf(reg.Lane(r).proposals[nonce])), one, two, now);
    DigestNamesPending(t, reg, at, b, r, nonce, now);
    ChainCancels(t, reg, r, nonce, one, two, now);
  }

  /** Cancellation by one key alone or by two guardians succeeds on chain exactly when it does in the model. */
  lemma CancelExact(t: Terms, reg: Registry, at: time, b: H.Book, r: Role, nonce: u64, one: Key, two: Key, now: time)
    requires RegistryInv(t, reg, at) && at <= now && Related(t, reg, at, b)
    requires Withdrawal.Bound(reg, r, nonce) && 0 <= reg.Lane(r).proposals[nonce].createdAt
    requires one == two || Quorum(t.config.Guardians(r), one, two)
    ensures Withdrawal.Cancel(t, reg, r, nonce, one, two, now).Ok?
       <==> H.Cancel(b, r, H.DigestOf(PlanOf(reg.Lane(r).proposals[nonce])), {one, two}, now).Some?
  {
    var digest := H.DigestOf(PlanOf(reg.Lane(r).proposals[nonce]));
    hide RegistryInv, Related, H.Cancel, Withdrawal.Cancel, Withdrawal.Bound, Quorum;
    if Withdrawal.Cancel(t, reg, r, nonce, one, two, now).Ok? {
      CancelSimulates(t, reg, at, b, r, nonce, one, two, now);
    } else if H.Cancel(b, r, digest, {one, two}, now).Some? {
      CancelReflects(t, reg, at, b, r, nonce, one, two, now);
    }
  }

  lemma OneSigner(m: H.Member, k: Key)
    ensures !H.Quorum(m, {k, k})
  {
    var both := {k, k} * m.committee.Members();
    if k in m.committee.Members() {
      assert both == {k};
    } else {
      assert both == {};
    }
  }

  /** The signed window: at most five minutes, with the time of admission in it, and its last consequences in range. */
  lemma AdmissionExactly(validFrom: i64, validUntil: i64, now: time)
    ensures Withdrawal.ValidateAdmission(validFrom, validUntil, now).Pass? <==>
      0 <= validFrom <= now <= validUntil <= validFrom + 300 && validUntil + 120 * 86_400 <= I64_MAX
  {
  }

  /**
   A proposal whose normal signer signs in both places succeeds on chain exactly when it does in the model, inside its
   window.
   */
  lemma ProposeExact(t: Terms, reg: Registry, at: time, b: H.Book, i: Withdrawal.Intent, now: time, r: Role)
    requires RegistryInv(t, reg, at) && at <= now && Related(t, reg, at, b)
    requires i.successor in reg.keys && RoleOf(i.role) == Some(r) && i.predecessor == reg.Lane(r).state.current
    requires !i.recovery ==> i.initiator == i.cosigner
    ensures Withdrawal.Propose(t, reg, i, now).Ok? <==>
      (0 <= i.validFrom <= now <= i.validUntil <= i.validFrom + 300 && i.validUntil + 120 * 86_400 <= I64_MAX
       && H.Propose(b, r, i.successor, i.recovery, i.nonce, i.epoch, {i.initiator, i.cosigner, i.successor}, now).Some?)
  {
    hide RegistryInv, Related, MemberOf, Withdrawal.EligibleSuccessor, H.SuccessorAllowed, Quorum, H.Quorum, SameGrants,
      Withdrawal.ValidateAdmission;
    AdmissionExactly(i.validFrom, i.validUntil, now);
    RelatedFacts(t, reg, at, b, r);
    SuccessorTestExact(t, reg, at, b, r, i.successor);
    var signers: set<Key> := {i.initiator, i.cosigner, i.successor};
    if Withdrawal.Propose(t, reg, i, now).Ok? {
      ProposeSimulates(t, reg, at, b, i, now);
      assert Withdrawal.ValidateAdmission(i.validFrom, i.validUntil, now).Pass?;
    } else if H.Propose(b, r, i.successor, i.recovery, i.nonce, i.epoch, signers, now).Some? {
      SuccessorOutside(t, reg, at, b, r, i.successor);
      if i.recovery {
        GuardiansSigned(b.Of(r), i.initiator, i.cosigner, i.successor);
      }
    }
  }

  lemma SuccessorOutside(t: Terms, reg: Registry, at: time, b: H.Book, r: Role, k: Key)
    requires RegistryInv(t, reg, at) && Related(t, reg, at, b) && H.SuccessorAllowed(b, b.Of(r), k)
    ensures k != reg.Lane(r).state.current && !b.Of(r).committee.Has(k)
  {
    RegistryLane(t, reg, at, r);
    RelatedLane(t, reg, at, b, r);
    hide RegistryInv, IndexOk, SameTombstones, SameGrants, Accepted, Replay;
  }

  /** Two committee members among a proposal's signers, its outside successor aside, are the two signing guardians. */
  lemma GuardiansSigned(m: H.Member, a: Key, b: Key, successor: Key)
    requires H.Quorum(m, {a, b, successor}) && !m.committee.Has(successor)
    ensures Quorum(m.committee, a, b)
  {
    var signed := {a, b, successor} * m.committee.Members();
    assert signed <= {a, b};
    if a == b || !m.committee.Has(a) || !m.committee.Has(b) {
      var one := if m.committee.Has(a) then a else b;
      assert signed <= {one};
      SubsetSize(signed, {one});
    }
  }

  lemma SubsetSize(a: set<Key>, b: set<Key>)
    requires a <= b
    ensures |a| <= |b|
  {
    assert b == a + (b - a);
  }

  /** An approval of a recorded recipient succeeds on chain exactly when it does in the model. */
  lemma ApproveExact(t: Terms, reg: Registry, at: time, b: H.Book, author: Key, period: u64, need: u64, epoch: u64,
          recipient: Addr, owner: Key, now: time)
    requires RegistryInv(t, reg, at) && at <= now && Related(t, reg, at, b) && 0 <= t.config.t0
    requires owner in reg.keys && owner != Default && period !in reg.approvals && reg.approvalCount < U64_MAX
    ensures Withdrawal.Approve(t, reg, author, period, need, epoch, recipient, owner, now).Ok?
       <==> H.Approve(b, author, epoch, period, recipient, owner, need, now).Some?
  {
    hide RegistryInv, Withdrawal.EligibleRecipient, H.ForbiddenRecipient, MemberOf, Related, SameGrants;
    RecipientTestExact(t, reg, at, b, owner);
    RelatedFacts(t, reg, at, b, Treasury);
    GrantKnown(reg.approvals, b.grants, period);
  }
}
