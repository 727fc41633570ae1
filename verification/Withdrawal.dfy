/**
 Withdrawal authority: key records, proposals, their execution, cancellation and expiry, and the
 eligibility of successors and recipients.
 */
module Withdrawal {
  import opened Basics
  import opened State

  /** The fields a withdrawal proposal's signers bind. */
  datatype Intent = Intent(
    initiator: Signer, cosigner: Signer, successor: Signer, role: u8, recovery: bool, nonce: u64,
    epoch: u64, validFrom: i64, validUntil: i64, predecessor: Key)

  function FreshLane(owner: Key): Lane { Lane(RoleState(owner, 0, 0, 0), map[]) }

  function FreshRegistry(t: Terms): Registry {
    Registry(FreshLane(t.founder), FreshLane(t.treasury), map[], map[], 0)
  }

  /** A key the policy knows as a beneficiary's or a guardian's from its terms alone. */
  predicate KnownParty(t: Terms, k: Key) {
    || k == t.founder || k == t.treasury
    || t.config.founderGuardians.Has(k) || t.config.treasuryGuardians.Has(k)
  }

  predicate EligibleRecipient(t: Terms, subject: Key, record: KeyRecord) {
    !KnownParty(t, subject) && record.history == EMPTY_MASK && record.pending == EMPTY_MASK
  }

  predicate EligibleSuccessor(t: Terms, r: Role, subject: Key, record: KeyRecord) {
    && subject != Default && subject != t.Owner(r)
    && !record.history.Has(r) && !record.recipient && !t.config.Guardians(r).Has(subject)
  }

  function Authenticate(reg: Registry, r: Role, signer: Key, epoch: u64): Check {
    var rs := reg.Lane(r).state;
    if rs.pending != 0 then Fail(WithdrawalPaused)
    else Require(rs.current == signer && rs.epoch == epoch, Error.WithdrawalAuthority)
  }

  function PrepareKey(reg: Registry, subject: Key): Result<Registry> {
    if subject == Default then Err(InvalidConfig) else
    Ok(reg.(keys := reg.keys[subject := KeyRecord(EMPTY_MASK, EMPTY_MASK, false)]))
  }

  function ValidateAdmission(validFrom: i64, validUntil: i64, now: time): Check {
    if !(validFrom >= 0 && validUntil >= validFrom) then Fail(SubmissionWindow)
    else if !(validUntil - validFrom <= MAX_SUBMISSION_WINDOW
        && validFrom <= now <= validUntil) then Fail(SubmissionWindow)
    else Require(validUntil + CHANGE_NOTICE + EXECUTION_WINDOW <= I64_MAX, Overflow)
  }

  function NewProposal(r: Role, i: Intent, current: Key, now: time, executeAfter: i64, expiresAt: i64): Proposal {
    Proposal(r, i.nonce, i.epoch, current, i.successor, i.recovery, i.validFrom, i.validUntil, now,
             executeAfter, expiresAt, Pending, 0)
  }

  function Propose(t: Terms, reg: Registry, i: Intent, now: time): Result<Registry>
    requires i.successor in reg.keys
  {
    var admission := ValidateAdmission(i.validFrom, i.validUntil, now);
    :- admission;
    :- Require(RoleOf(i.role).Some?, InvalidConfig);
    var r := RoleOf(i.role).value;
    var rs := reg.Lane(r).state;
    :- Require(rs.pending == 0, InvalidChange);
    var next :- CheckedAdd(rs.sequence, 1, Overflow);
    :- Require(i.nonce == next && i.epoch == rs.epoch && i.predecessor == rs.current, InvalidChange);
    var _ :- CheckedAdd(rs.epoch, 1, Overflow);
    :- if i.recovery then Require(Quorum(t.config.Guardians(r), i.initiator, i.cosigner), RecoveryQuorum)
       else Require(i.initiator == rs.current && i.cosigner == rs.current, Error.WithdrawalAuthority);
    var record := reg.keys[i.successor];
    :- Require(EligibleSuccessor(t, r, i.successor, record), IneligibleSuccessor);
    var executeAfter :- CheckedAddTime(now, CHANGE_NOTICE);
    var expiresAt :- CheckedAddTime(executeAfter, EXECUTION_WINDOW);
    var q := NewProposal(r, i, rs.current, now, executeAfter, expiresAt);
    Ok(reg.With(r, Lane(rs.(pending := i.nonce, sequence := i.nonce), reg.Lane(r).proposals[i.nonce := q]))
          .(keys := reg.keys[i.successor := record.(pending := record.pending.With(r))]))
  }

  /** The account bindings of execution, cancellation and expiry: the proposal and its successor's record exist. */
  predicate Bound(reg: Registry, r: Role, nonce: u64) {
    nonce in reg.Lane(r).proposals && reg.Lane(r).proposals[nonce].successor in reg.keys
  }

  function CheckPending(rs: RoleState, r: Role, q: Proposal, record: KeyRecord): Check {
    Require(q.status == Pending && q.nonce == rs.sequence && q.nonce == rs.pending && q.epoch == rs.epoch
            && q.predecessor == rs.current && q.finishedAt == 0 && record.pending.Has(r), InvalidChange)
  }

  /** The end of a proposal, given the role's state and the successor's record as its outcome leaves them. */
  function Finish(reg: Registry, r: Role, nonce: u64, status: Status, now: time, rs: RoleState,
          record: KeyRecord): Registry
    requires Bound(reg, r, nonce)
  {
    var q := reg.Lane(r).proposals[nonce];
    reg.With(r, Lane(rs.(pending := 0), reg.Lane(r).proposals[nonce := q.(status := status, finishedAt := now)]))
       .(keys := reg.keys[q.successor := record.(pending := record.pending.Without(r))])
  }

  function Execute(t: Terms, reg: Registry, r: Role, nonce: u64, now: time): Result<Registry>
    requires Bound(reg, r, nonce)
  {
    var q, rs := reg.Lane(r).proposals[nonce], reg.Lane(r).state;
    var record := reg.keys[q.successor];
    :- CheckPending(rs, r, q, record);
    :- Require(q.executeAfter <= now < q.expiresAt, WithdrawalWindow);
    :- Require(EligibleSuccessor(t, r, q.successor, record), IneligibleSuccessor);
    var epoch :- CheckedAdd(rs.epoch, 1, Overflow);
    Ok(Finish(reg, r, nonce, Executed, now, rs.(current := q.successor, epoch := epoch),
              record.(history := record.history.With(r))))
  }

  function Cancel(t: Terms, reg: Registry, r: Role, nonce: u64, a: Key, b: Key, now: time): Result<Registry>
    requires Bound(reg, r, nonce)
  {
    var q, rs := reg.Lane(r).proposals[nonce], reg.Lane(r).state;
    :- CheckPending(rs, r, q, reg.keys[q.successor]);
    :- Require(MayRetract(t.config.Guardians(r), rs.current, q.successor, q.recovery, a, b), Error.WithdrawalAuthority);
    Ok(Finish(reg, r, nonce, Retracted, now, rs, reg.keys[q.successor]))
  }

  function Expire(reg: Registry, r: Role, nonce: u64, now: time): Result<Registry>
    requires Bound(reg, r, nonce)
  {
    var q, rs := reg.Lane(r).proposals[nonce], reg.Lane(r).state;
    :- CheckPending(rs, r, q, reg.keys[q.successor]);
    :- Require(now >= q.expiresAt, WithdrawalWindow);
    Ok(Finish(reg, r, nonce, Expired, now, rs, reg.keys[q.successor]))
  }

  /** The target of an approval: a future period whose end leaves a full period's notice. */
  function CheckTarget(t0: i64, period: u64, now: time): Result<()> {
    var ahead :=
      if now < t0 then Pass
      else match PeriodAt(t0, now)
           case Err(e) => Fail(e)
           case Ok(current) => Require(period > current, InvalidApproval);
    :- ahead;
    var next :- CheckedAdd(period, 1, Overflow);
    var end :- PeriodStart(t0, next);
    var notice :- CheckedAddTime(now, PERIOD);
    :- Require(notice < end, InvalidApproval);
    Ok(())
  }

  function Approve(t: Terms, reg: Registry, author: Key, period: u64, need: u64, epoch: u64, recipient: Addr,
          owner: Key, now: time): Result<Registry>
    requires owner in reg.keys
  {
    var authority := Authenticate(reg, Treasury, author, epoch);
    :- authority;
    :- Require(EligibleRecipient(t, owner, reg.keys[owner]), KnownSelfPayment);
    :- Require(need > 0, InvalidApproval);
    var _ :- CheckTarget(t.config.t0, period, now);
    var count :- CheckedAdd(reg.approvalCount, 1, Overflow);
    Ok(reg.(
      approvals := reg.approvals[period := Approval(period, recipient, owner, need, 0, now, author, epoch)],
      keys := reg.keys[owner := reg.keys[owner].(recipient := true)],
      approvalCount := count))
  }
}
