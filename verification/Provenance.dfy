/**
 Where the state of a run comes from: who took tokens out of a vault, who cancelled or activated the policy, who
 approved.
 */
module Provenance {
  import opened Basics
  import opened State
  import opened Tokens
  import opened Launch
  import opened Invariant
  import opened Safety
  import opened Commits
  import Withdrawal
  import Control
  import Capacity

  /* ---- Vaults ---- */

  /** An event that takes tokens out of a vault is a release or a refund of that pool. */
  lemma OutflowKinds(w: World, e: Event, r: Role)
    requires Inv(w) && Apply(w, e).Ok?
    requires Balance(Apply(w, e).value.tokens, VaultToken(r)) < Balance(w.tokens, VaultToken(r))
    ensures e.Invoke? && (e.instruction.Release? || e.instruction.Refund?) && e.instruction.role == r
  {
    hide Inv, Withdrawal.Propose, Withdrawal.Execute, Withdrawal.Cancel, Withdrawal.Expire, Withdrawal.Approve,
      Control.Propose, Control.Execute, Control.Cancel, Control.ReportCapacity, Transfer, DepositStep, ReleaseStep,
      RefundStep;
    if e.Invoke? {
      match e.instruction
      case Deposit(creator, depositor, authority, n, amount, source) =>
        DepositInflow(w, e.now, creator, depositor, authority, n, amount, source, r);
      case Refund(depositor, role, destination) =>
        RefundOutflow(w, e.now, depositor, role, destination, r);
      case Release(authority, role, amount, epoch, destination, approval, record) =>
        ReleaseOutflow(w, e.now, authority, role, amount, epoch, destination, approval, record, r);
      case _ =>
    } else if e.MoveTokens? {
      TransferMoves(w.tokens, Wallet(e.wallet), e.to, e.amount);
    }
  }

  lemma DepositInflow(w: World, now: time, creator: Signer, depositor: Signer, authority: Signer, n: u8, amount: u64,
          source: Addr, r: Role)
    requires Inv(w) && DepositStep(w, now, creator, depositor, authority, n, amount, source).Ok?
    ensures Balance(w.tokens, VaultToken(r))
      <= Balance(DepositStep(w, now, creator, depositor, authority, n, amount, source).value.tokens, VaultToken(r))
  {
    hide Inv, Transfer, DepositStep;
    VaultsOwned(w);
    DepositPassed(w, now, creator, depositor, authority, n, amount, source);
    var to := RoleOf(n).value;
    TransferMoves(w.tokens[VaultToken(to) := TokenAccount(VaultAuthority(to), 0)], source, VaultToken(to), amount);
  }

  lemma DepositPassed(w: World, now: time, creator: Signer, depositor: Signer, authority: Signer, n: u8, amount: u64,
          source: Addr)
    requires DepositStep(w, now, creator, depositor, authority, n, amount, source).Ok?
    ensures RoleOf(n).Some? && source in w.tokens && w.tokens[source].owner == depositor
    ensures var r := RoleOf(n).value;
      var transfer := Transfer(w.tokens[VaultToken(r) := TokenAccount(VaultAuthority(r), 0)], source, VaultToken(r),
          amount);
      && VaultToken(r) !in w.tokens && transfer.Ok?
      && DepositStep(w, now, creator, depositor, authority, n, amount, source).value.tokens == transfer.value
  {
    hide Transfer, Withdrawal.Authenticate;
  }

  /** A vault's token account belongs to its program-derived authority, which cannot sign. */
  lemma VaultsOwned(w: World)
    requires Inv(w)
    ensures forall r: Role :: VaultToken(r) in w.tokens ==> w.tokens[VaultToken(r)].owner == VaultAuthority(r)
  {
    hide TermsOk, AuthorityInv, Capacity.BooksInv, SpendingInv, Supply, VaultOk;
    forall r: Role | VaultToken(r) in w.tokens ensures w.tokens[VaultToken(r)].owner == VaultAuthority(r) {
      if r.Founder? {} else {}
      assert VaultInv(w, r);
    }
  }

  lemma RefundOutflow(w: World, now: time, depositor: Signer, role: Role, destination: Addr, r: Role)
    requires RefundStep(w, now, depositor, role, destination).Ok?
    ensures var w' := RefundStep(w, now, depositor, role, destination).value;
      r != role ==> Balance(w.tokens, VaultToken(r)) <= Balance(w'.tokens, VaultToken(r))
  {
    hide Transfer;
    TransferMoves(w.tokens, VaultToken(role), destination, w.tokens[VaultToken(role)].amount);
  }

  lemma ReleaseOutflow(w: World, now: time, authority: Signer, role: Role, amount: u64, epoch: u64, destination: Addr,
          approval: Option<u64>, record: Option<Key>, r: Role)
    requires ReleaseStep(w, now, authority, role, amount, epoch, destination, approval, record).Ok?
    ensures var w' := ReleaseStep(w, now, authority, role, amount, epoch, destination, approval, record).value;
      r != role ==> Balance(w.tokens, VaultToken(r)) <= Balance(w'.tokens, VaultToken(r))
  {
    hide Transfer, AuthorizeRelease, Capacity.Consume;
    TransferMoves(w.tokens, VaultToken(role), destination, amount);
  }

  /** A refund of a pool to its depositor's own account. */
  predicate RefundsOwn(w: World, e: Event, r: Role, depositor: Key) {
    && e.Invoke? && e.instruction.Refund? && e.instruction.role == r && e.instruction.depositor == depositor
    && e.instruction.destination in w.tokens && w.tokens[e.instruction.destination].owner == depositor
  }

  /** A release of a pool, signed by its current key. */
  predicate ReleasesOwn(w: World, e: Event, r: Role) {
    && e.Invoke? && e.instruction.Release? && e.instruction.role == r
    && e.instruction.authority == w.registry.Lane(r).state.current
    && e.instruction.authorityEpoch == w.registry.Lane(r).state.epoch
  }

  /**
   Only two events of a run take tokens out of a pool's vault: a release signed by the pool's current key, and a refund
   signed by the key that signed the pool's deposit, an earlier event of the run, to an account of its own.
   */
  lemma OnlyOwnersArePaid(w: World, events: seq<Event>, i: nat, r: Role) returns (j: nat)
    requires Genesis(w) && i < |events|
    requires Balance(At(w, events, i + 1).tokens, VaultToken(r)) < Balance(At(w, events, i).tokens, VaultToken(r))
    ensures Committed(w, events, i)
    ensures ReleasesOwn(At(w, events, i), events[i], r)
         || (j < i && Committed(w, events, j) && events[j].Invoke? && events[j].instruction.Deposit?
             && RoleOf(events[j].instruction.roleNumber) == Some(r) && At(w, events, i).phase == Cancelled
             && RefundsOwn(At(w, events, i), events[i], r, events[j].instruction.depositor))
  {
    hide Inv, Genesis, Apply;
    AtNext(w, events, i);
    Reached(w, events, i);
    var w', e := At(w, events, i), events[i];
    OutflowKinds(w', e, r);
    j := 0;
    if e.instruction.Refund? {
      RefundSigned(w', e);
      j := VaultDeposited(w, events, i, r);
    } else {
      ReleaseSigned(w', e);
    }
  }

  lemma RefundSigned(w: World, e: Event)
    requires Inv(w) && Apply(w, e).Ok? && e.Invoke? && e.instruction.Refund?
    ensures var i := e.instruction;
      && w.phase == Cancelled && i.role in w.vaults && i.depositor == w.vaults[i.role].depositor
      && i.destination in w.tokens && w.tokens[i.destination].owner == i.depositor
  {
    hide Inv, RefundStep;
    RefundExactly(w, e.now, e.instruction.depositor, e.instruction.role, e.instruction.destination);
  }

  lemma ReleaseSigned(w: World, e: Event)
    requires Inv(w) && Apply(w, e).Ok? && e.Invoke? && e.instruction.Release?
    ensures ReleasesOwn(w, e, e.instruction.role)
  {
    hide Inv, ReleaseStep, AuthorizeRelease, Capacity.Consume, TermsOk;
    var i := e.instruction;
    TermsHold(w);
    CliffFits(w.terms);
    ReleasePassed(w, e.now, i.authority, i.role, i.amount, i.authorityEpoch, i.destination, i.approval,
        i.recipientRecord);
    ReleaseAuthorized(w.(lastActionAt := e.now), e.now, i.authority, i.role, i.amount, i.authorityEpoch, i.destination,
        i.approval, i.recipientRecord);
  }

  /* ---- Lifecycle ---- */

  /** Cancelled before the start, by the controller and both pools' current keys. */
  predicate CancelledByAll(w: World, e: Event) {
    && e.Invoke? && e.instruction.CancelPolicy? && e.now < w.terms.config.t0
    && e.instruction.creator == w.gov.controller && e.instruction.founder == w.registry.founder.state.current
    && e.instruction.treasury == w.registry.treasury.state.current
  }

  /** Left unarmed until the start. */
  predicate LeftUnarmed(w: World, e: Event) {
    e.Invoke? && e.instruction.ExpireUnarmed? && w.phase == Prepared && w.terms.config.t0 <= e.now
  }

  lemma PhaseMoves(w: World, e: Event)
    requires Apply(w, e).Ok? && Apply(w, e).value.phase != w.phase
    ensures e.Invoke? && (e.instruction.Arm? || e.instruction.Activate? || e.instruction.CancelPolicy?
                          || e.instruction.ExpireUnarmed?)
  {
    hide Withdrawal.Propose, Withdrawal.Execute, Withdrawal.Cancel, Withdrawal.Expire, Withdrawal.Approve,
      Control.Propose, Control.Execute, Control.Cancel, Control.ReportCapacity, Transfer, Capacity.Consume,
      AuthorizeRelease, Withdrawal.Authenticate;
    if e.Invoke? {
      match e.instruction case _ =>
    }
  }

  lemma CancellingEvent(w: World, e: Event)
    requires Apply(w, e).Ok? && w.phase != Cancelled && Apply(w, e).value.phase == Cancelled
    ensures CancelledByAll(w, e) || LeftUnarmed(w, e)
  {
    hide Step;
    PhaseMoves(w, e);
    PhaseWritten(w, e);
    match e.instruction
    case CancelPolicy(creator, founder, treasury) => CancelPolicyExactly(w, e.now, creator, founder, treasury);
    case ExpireUnarmed => ExpireUnarmedExactly(w, e.now);
    case _ =>
  }

  lemma PhaseWritten(w: World, e: Event)
    requires Apply(w, e).Ok? && e.Invoke?
    ensures e.instruction.Arm? ==> Apply(w, e).value.phase == Armed && ArmStep(w, e.now, e.instruction.creator).Ok?
    ensures e.instruction.Activate? ==> Apply(w, e).value.phase == Active && ActivateStep(w, e.now).Ok?
    ensures e.instruction.CancelPolicy? ==>
      CancelStep(w, e.now, e.instruction.creator, e.instruction.founder, e.instruction.treasury).Ok?
    ensures e.instruction.ExpireUnarmed? ==> ExpireUnarmedStep(w, e.now).Ok?
  {
    hide DepositStep, RefundStep, ReportStep, ApproveStep, ReleaseStep, PrepareKeyStep, ProposeWithdrawalStep,
      ExecuteWithdrawalStep, CancelWithdrawalStep, ExpireWithdrawalStep, ProposeChangeStep, CancelChangeStep,
      ExecuteChangeStep;
  }

  lemma GenesisPhase(w: World)
    requires Genesis(w)
    ensures w.phase == Prepared && w.registry.approvals == map[]
  {
    hide Validate;
    var p, consent, tokens, now :| Safety.Admits(p, consent, tokens, now, w);
  }

  /**
   A cancelled policy was cancelled in one of two ways: before the start by the controller and both pools' current keys,
   or from the start on because it was never armed.
   */
  lemma {:induction false} HowCancelled(w: World, events: seq<Event>, j: nat) returns (i: nat)
    requires Genesis(w) && j <= |events| && At(w, events, j).phase == Cancelled
    ensures i < j && Committed(w, events, i)
    ensures CancelledByAll(At(w, events, i), events[i]) || LeftUnarmed(At(w, events, i), events[i])
    decreases j
  {
    hide Genesis, Apply;
    if j == 0 {
      GenesisPhase(w);
    } else {
      AtNext(w, events, j - 1);
      if At(w, events, j - 1).phase == Cancelled {
        i := HowCancelled(w, events, j - 1);
      } else {
        i := j - 1;
        CancellingEvent(At(w, events, i), events[i]);
      }
    }
  }

  /** Armed before the start by the controller, with both pools deposited. */
  predicate ArmedInTime(w: World, e: Event) {
    && e.Invoke? && e.instruction.Arm? && e.instruction.creator == w.gov.controller && e.now < w.terms.config.t0
    && Founder in w.vaults && Treasury in w.vaults
  }

  lemma ArmingEvent(w: World, e: Event)
    requires Inv(w) && Apply(w, e).Ok? && w.phase != Apply(w, e).value.phase
    ensures Apply(w, e).value.phase == Armed ==> ArmedInTime(w, e)
    ensures Apply(w, e).value.phase == Active ==>
      w.phase == Armed && e.Invoke? && e.instruction.Activate? && w.terms.config.t0 <= e.now
  {
    hide Step, Inv;
    PhaseMoves(w, e);
    PhaseWritten(w, e);
    match e.instruction
    case Arm(creator) => ArmExactly(w, e.now, creator);
    case Activate => ActivateExactly(w, e.now);
    case CancelPolicy(creator, founder, treasury) =>
      CancelPolicyExactly(w, e.now, creator, founder, treasury);
      CancelWritten(w, e);
    case ExpireUnarmed =>
      ExpireUnarmedExactly(w, e.now);
      CancelWritten(w, e);
    case _ =>
  }

  lemma CancelWritten(w: World, e: Event)
    requires Apply(w, e).Ok? && e.Invoke? && (e.instruction.CancelPolicy? || e.instruction.ExpireUnarmed?)
    ensures Apply(w, e).value.phase == Cancelled
  {
    hide DepositStep, RefundStep, ReportStep, ApproveStep, ReleaseStep, PrepareKeyStep, ProposeWithdrawalStep,
      ExecuteWithdrawalStep, CancelWithdrawalStep, ExpireWithdrawalStep, ProposeChangeStep, CancelChangeStep,
      ExecuteChangeStep;
  }

  /**
   An armed or active policy was armed before the start, by the controller of that moment, with both pools deposited.
   */
  lemma {:induction false} HowArmed(w: World, events: seq<Event>, j: nat) returns (i: nat)
    requires Genesis(w) && j <= |events| && (At(w, events, j).phase == Armed || At(w, events, j).phase == Active)
    ensures i < j && Committed(w, events, i) && ArmedInTime(At(w, events, i), events[i])
    decreases j
  {
    hide Genesis, Apply, Inv, ArmedInTime;
    if j == 0 {
      GenesisPhase(w);
    } else {
      AtNext(w, events, j - 1);
      Reached(w, events, j - 1);
      var last := At(w, events, j - 1);
      if last.phase != At(w, events, j).phase {
        ArmingEvent(last, events[j - 1]);
      }
      if last.phase == Armed || last.phase == Active {
        i := HowArmed(w, events, j - 1);
      } else {
        i := j - 1;
      }
    }
  }

  /* ---- Approvals ---- */

  /** The treasury's approval of a period, for the account and owner it names, made by its current key. */
  predicate Approves(w: World, e: Event, a: Approval) {
    && e.Invoke? && e.instruction.ApproveTreasury? && e.now == a.createdAt
    && e.instruction.period == a.period && e.instruction.need == a.need && e.instruction.recipient == a.recipient
    && a.recipient in w.tokens && w.tokens[a.recipient].owner == a.recipientOwner
    && e.instruction.author == a.author == w.registry.treasury.state.current
    && e.instruction.authorityEpoch == a.authorEpoch == w.registry.treasury.state.epoch
    && w.registry.treasury.state.pending == 0
  }

  predicate SameApproval(a: Approval, a': Approval) { a' == a.(consumed := a'.consumed) }

  /** A stored approval was stored before, or this event made it. */
  lemma ApprovalOrigin(w: World, e: Event, p: u64)
    requires Apply(w, e).Ok? && p in Apply(w, e).value.registry.approvals
    ensures var a := Apply(w, e).value.registry.approvals[p];
      (p in w.registry.approvals && SameApproval(w.registry.approvals[p], a)) || (a.period == p && Approves(w, e, a))
  {
    hide Step;
    if e.Invoke? && e.instruction.ApproveTreasury? {
      ApprovedOrigin(w, e, p);
    } else if e.Invoke? && e.instruction.Release? {
      ReleasedOrigin(w, e, p);
    } else {
      ApprovalsUntouched(w, e);
    }
  }

  lemma ApprovedOrigin(w: World, e: Event, p: u64)
    requires Apply(w, e).Ok? && e.Invoke? && e.instruction.ApproveTreasury?
    requires p in Apply(w, e).value.registry.approvals
    ensures var a := Apply(w, e).value.registry.approvals[p];
      (p in w.registry.approvals && SameApproval(w.registry.approvals[p], a)) || (a.period == p && Approves(w, e, a))
  {
    hide Withdrawal.EligibleRecipient, Withdrawal.CheckTarget;
  }

  lemma ReleasedOrigin(w: World, e: Event, p: u64)
    requires Apply(w, e).Ok? && e.Invoke? && e.instruction.Release? && p in Apply(w, e).value.registry.approvals
    ensures p in w.registry.approvals
    ensures SameApproval(w.registry.approvals[p], Apply(w, e).value.registry.approvals[p])
  {
    hide Capacity.Consume, Transfer, CheckReport, Withdrawal.EligibleRecipient;
  }

  lemma ApprovalsUntouched(w: World, e: Event)
    requires Apply(w, e).Ok?
    requires e.Invoke? ==> !e.instruction.ApproveTreasury? && !e.instruction.Release?
    ensures Apply(w, e).value.registry.approvals == w.registry.approvals
  {
    hide Transfer, Control.Propose, Control.Execute, Control.Cancel, Control.ReportCapacity, Withdrawal.Authenticate,
      Withdrawal.Propose, Withdrawal.Execute, Withdrawal.Cancel, Withdrawal.Expire, ReleaseStep, ApproveStep;
    if e.Invoke? {
      match e.instruction
      case ProposeWithdrawal(i) => ProposalKeepsApprovals(w.terms, w.registry, i, e.now);
      case ExecuteWithdrawal(r, n) => EndKeepsApprovals(w.terms, w.registry, r, n, Account(0), Account(0), e.now);
      case CancelWithdrawal(a, b, r, n) => EndKeepsApprovals(w.terms, w.registry, r, n, a, b, e.now);
      case ExpireWithdrawal(r, n) => EndKeepsApprovals(w.terms, w.registry, r, n, Account(0), Account(0), e.now);
      case _ =>
    }
  }

  lemma ProposalKeepsApprovals(t: Terms, reg: Registry, i: Withdrawal.Intent, now: time)
    requires i.successor in reg.keys && Withdrawal.Propose(t, reg, i, now).Ok?
    ensures Withdrawal.Propose(t, reg, i, now).value.approvals == reg.approvals
  {
    hide Withdrawal.EligibleSuccessor, Quorum;
  }

  lemma EndKeepsApprovals(t: Terms, reg: Registry, r: Role, n: u64, a: Key, b: Key, now: time)
    requires Withdrawal.Bound(reg, r, n)
    ensures var end := Withdrawal.Execute(t, reg, r, n, now); end.Ok? ==> end.value.approvals == reg.approvals
    ensures var end := Withdrawal.Cancel(t, reg, r, n, a, b, now); end.Ok? ==> end.value.approvals == reg.approvals
    ensures var end := Withdrawal.Expire(reg, r, n, now); end.Ok? ==> end.value.approvals == reg.approvals
  {
    hide Withdrawal.EligibleSuccessor, MayRetract, Withdrawal.CheckPending;
  }

  /**
   Every stored approval was made by a committed event of the run, signed by the treasury's key of that moment while no
   proposal was pending, for the account and owner that it still names.
   */
  lemma {:induction false} ApprovalMade(w: World, events: seq<Event>, j: nat, p: u64) returns (i: nat)
    requires Genesis(w) && j <= |events| && p in At(w, events, j).registry.approvals
    ensures i < j && Committed(w, events, i) && events[i].Invoke? && events[i].instruction.ApproveTreasury?
    ensures events[i].instruction.period == p
    ensures var a := At(w, events, j).registry.approvals[p];
      a.period == p && Approves(At(w, events, i), events[i], a)
    decreases j
  {
    hide Genesis, Apply;
    if j == 0 {
      GenesisPhase(w);
    } else {
      AtNext(w, events, j - 1);
      var last, e := At(w, events, j - 1), events[j - 1];
      var a := At(w, events, j).registry.approvals[p];
      if Committed(w, events, j - 1) {
        ApprovalOrigin(last, e, p);
        if a.period == p && Approves(last, e, a) {
          i := j - 1;
        } else {
          i := ApprovalMade(w, events, j - 1, p);
        }
      } else {
        i := ApprovalMade(w, events, j - 1, p);
      }
    }
  }
}
