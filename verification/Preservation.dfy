/** Every event keeps the invariant and the token supply, so every run from admission does. */
module Preservation {
  import opened Basics
  import opened State
  import opened Tokens
  import opened Launch
  import opened Invariant
  import opened Capacity
  import Withdrawal
  import Tombstones
  import RegistryProofs
  import Control

  /* ---- Steps on authority alone ---- */

  lemma PrepareKeyKeeps(w: World, subject: Key)
    requires Inv(w) && PrepareKeyStep(w, subject).Ok?
    ensures Inv(PrepareKeyStep(w, subject).value)
  {
    RegistryProofs.PrepareKeyKeeps(w.terms, w.registry, subject, w.lastActionAt);
    hide Tombstones.RegistryInv, LedgerInv, Control.ControlInv, TermsOk;
    RegistryStep(w, Withdrawal.PrepareKey(w.registry, subject).value);
  }

  lemma ProposeWithdrawalKeeps(w: World, now: time, i: Withdrawal.Intent)
    requires Inv(w) && ProposeWithdrawalStep(w, now, i).Ok?
    ensures Inv(ProposeWithdrawalStep(w, now, i).value)
  {
    hide Tombstones.RegistryInv, LedgerInv, Control.ControlInv, TermsOk, Withdrawal.Propose;
    TickKeeps(w, now);
    RegistryProofs.ProposeKeeps(w.terms, w.registry, i, now, now);
    RegistryStep(Tick(w, now).value, Withdrawal.Propose(w.terms, w.registry, i, now).value) by {
      ProposeFrame(w.terms, w.registry, i, now);
    }
  }

  lemma ProposeFrame(t: Terms, reg: Registry, i: Withdrawal.Intent, now: time)
    requires i.successor in reg.keys && Withdrawal.Propose(t, reg, i, now).Ok?
    ensures Withdrawal.Propose(t, reg, i, now).value.approvals == reg.approvals
  {
  }

  lemma ExecuteFrame(t: Terms, reg: Registry, r: Role, nonce: u64, now: time)
    requires Withdrawal.Bound(reg, r, nonce) && Withdrawal.Execute(t, reg, r, nonce, now).Ok?
    ensures Withdrawal.Execute(t, reg, r, nonce, now).value.approvals == reg.approvals
  {
  }

  lemma CancelFrame(t: Terms, reg: Registry, r: Role, nonce: u64, a: Key, b: Key, now: time)
    requires Withdrawal.Bound(reg, r, nonce) && Withdrawal.Cancel(t, reg, r, nonce, a, b, now).Ok?
    ensures Withdrawal.Cancel(t, reg, r, nonce, a, b, now).value.approvals == reg.approvals
  {
  }

  lemma ExpireFrame(reg: Registry, r: Role, nonce: u64, now: time)
    requires Withdrawal.Bound(reg, r, nonce) && Withdrawal.Expire(reg, r, nonce, now).Ok?
    ensures Withdrawal.Expire(reg, r, nonce, now).value.approvals == reg.approvals
  {
  }

  lemma ExecuteWithdrawalKeeps(w: World, now: time, r: Role, nonce: u64)
    requires Inv(w) && ExecuteWithdrawalStep(w, now, r, nonce).Ok?
    ensures Inv(ExecuteWithdrawalStep(w, now, r, nonce).value)
  {
    hide Tombstones.RegistryInv, LedgerInv, Control.ControlInv, TermsOk, Withdrawal.Execute;
    TickKeeps(w, now);
    RegistryProofs.ExecuteKeeps(w.terms, w.registry, r, nonce, now, now);
    RegistryStep(Tick(w, now).value, Withdrawal.Execute(w.terms, w.registry, r, nonce, now).value) by {
      ExecuteFrame(w.terms, w.registry, r, nonce, now);
    }
  }

  lemma CancelWithdrawalKeeps(w: World, now: time, a: Signer, b: Signer, r: Role, nonce: u64)
    requires Inv(w) && CancelWithdrawalStep(w, now, a, b, r, nonce).Ok?
    ensures Inv(CancelWithdrawalStep(w, now, a, b, r, nonce).value)
  {
    hide Tombstones.RegistryInv, LedgerInv, Control.ControlInv, TermsOk, Withdrawal.Cancel;
    TickKeeps(w, now);
    RegistryProofs.CancelKeeps(w.terms, w.registry, r, nonce, a, b, now, now);
    RegistryStep(Tick(w, now).value, Withdrawal.Cancel(w.terms, w.registry, r, nonce, a, b, now).value) by {
      CancelFrame(w.terms, w.registry, r, nonce, a, b, now);
    }
  }

  lemma ExpireWithdrawalKeeps(w: World, now: time, r: Role, nonce: u64)
    requires Inv(w) && ExpireWithdrawalStep(w, now, r, nonce).Ok?
    ensures Inv(ExpireWithdrawalStep(w, now, r, nonce).value)
  {
    hide Tombstones.RegistryInv, LedgerInv, Control.ControlInv, TermsOk, Withdrawal.Expire;
    TickKeeps(w, now);
    RegistryProofs.ExpireKeeps(w.terms, w.registry, r, nonce, now, now);
    RegistryStep(Tick(w, now).value, Withdrawal.Expire(w.registry, r, nonce, now).value) by {
      ExpireFrame(w.registry, r, nonce, now);
    }
  }

  lemma ProposeChangeKeeps(w: World, now: time, a: Signer, b: Signer, successor: Signer, kind: u8, recovery: bool,
          nonce: u64)
    requires Inv(w) && ProposeChangeStep(w, now, a, b, successor, kind, recovery, nonce).Ok?
    ensures Inv(ProposeChangeStep(w, now, a, b, successor, kind, recovery, nonce).value)
  {
    TickKeeps(w, now);
    Control.ProposeKeeps(w.terms, w.gov, a, b, successor, kind, recovery, nonce, now, now);
    hide Tombstones.RegistryInv, LedgerInv, Control.ControlInv, TermsOk, Control.Propose;
    GovStep(Tick(w, now).value, Control.Propose(w.terms.config.recoveryKeys, w.gov, a, b, successor, kind, recovery,
        nonce, now).value);
  }

  lemma CancelChangeKeeps(w: World, now: time, a: Signer, b: Signer, nonce: u64)
    requires Inv(w) && CancelChangeStep(w, now, a, b, nonce).Ok?
    ensures Inv(CancelChangeStep(w, now, a, b, nonce).value)
  {
    TickKeeps(w, now);
    Control.CancelKeeps(w.terms, w.gov, nonce, a, b, now, now);
    hide Tombstones.RegistryInv, LedgerInv, Control.ControlInv, TermsOk, Control.Cancel;
    GovStep(Tick(w, now).value, Control.Cancel(w.terms.config.recoveryKeys, w.gov, nonce, a, b).value);
  }

  lemma ExecuteChangeKeeps(w: World, now: time, nonce: u64)
    requires Inv(w) && ExecuteChangeStep(w, now, nonce).Ok?
    ensures Inv(ExecuteChangeStep(w, now, nonce).value)
  {
    TickKeeps(w, now);
    Control.ExecuteKeeps(w.terms, w.gov, nonce, now, now);
    hide Tombstones.RegistryInv, LedgerInv, Control.ControlInv, TermsOk, Control.Execute;
    GovStep(Tick(w, now).value, Control.Execute(w.gov, nonce, now).value);
  }

  lemma ReportKeeps(w: World, now: time, oracle: Signer, capacity: u64, observedAt: i64, sequence: u64, epoch: u64)
    requires Inv(w) && ReportStep(w, now, oracle, capacity, observedAt, sequence, epoch).Ok?
    ensures Inv(ReportStep(w, now, oracle, capacity, observedAt, sequence, epoch).value)
  {
    TickKeeps(w, now);
    Control.ReportKeeps(w.terms, w.gov, capacity, observedAt, sequence, epoch, now, now);
    hide Tombstones.RegistryInv, LedgerInv, Control.ControlInv, Control.ReportCapacity;
    GovStep(Tick(w, now).value,
        Control.ReportCapacity(w.terms.config, w.gov, capacity, observedAt, sequence, epoch, now).value);
  }

  /* ---- Approving ---- */

  /** A new approval, for a period that releases have not reached, has spent nothing. */
  lemma ApprovalUnspent(w: World, registry: Registry, a: Approval)
    requires SpendingInv(w) && a.period !in w.registry.approvals && a.consumed == 0
    requires a.period == w.books.period ==> w.books.periodUsed.treasury == 0
    requires registry.approvals == w.registry.approvals[a.period := a]
    ensures SpendingInv(w.(registry := registry))
  {
    SumInsert(w.registry.approvals, ConsumedOf, a.period, a);
    var w' := w.(registry := registry);
    forall p | p in registry.approvals
      ensures registry.approvals[p].period == p && ApprovalSpent(w', registry.approvals[p])
    {
      assert p != a.period ==> ApprovalSpent(w, w.registry.approvals[p]);
    }
  }

  lemma ApprovedRegistry(t: Terms, reg: Registry, author: Key, period: u64, need: u64, epoch: u64, recipient: Addr,
          owner: Key, now: time)
    requires 0 <= t.config.t0 && owner in reg.keys
    requires Withdrawal.Approve(t, reg, author, period, need, epoch, recipient, owner, now).Ok?
    ensures Withdrawal.Approve(t, reg, author, period, need, epoch, recipient, owner, now).value.approvals
         == reg.approvals[period := Approval(period, recipient, owner, need, 0, now, author, epoch)]
    ensures now < t.config.t0 + period * PERIOD
  {
    RegistryProofs.TargetLeavesNotice(t.config.t0, period, now);
  }

  lemma ApproveLedger(w: World, registry: Registry, a: Approval)
    requires LedgerInv(w) && a.period !in w.registry.approvals && a.consumed == 0
    requires w.lastActionAt < w.terms.config.t0 + a.period * PERIOD
    requires registry.approvals == w.registry.approvals[a.period := a]
    ensures LedgerInv(w.(registry := registry))
  {
    hide BooksInv, SpendingInv, VaultInv, Supply;
    ApprovalUnspent(w, registry, a);
    VaultsIgnoreRegistry(w, registry);
  }

  lemma ApproveKeeps(w: World, now: time, author: Signer, period: u64, need: u64, epoch: u64, recipient: Addr)
    requires Inv(w) && ApproveStep(w, now, author, period, need, epoch, recipient).Ok?
    ensures Inv(ApproveStep(w, now, author, period, need, epoch, recipient).value)
  {
    hide Tombstones.RegistryInv, Control.ControlInv, LedgerInv, Withdrawal.Approve;
    TickKeeps(w, now);
    var owner := w.tokens[recipient].owner;
    RegistryProofs.ApproveKeeps(w.terms, w.registry, author, period, need, epoch, recipient, owner, now, now);
    ApprovedRegistry(w.terms, w.registry, author, period, need, epoch, recipient, owner, now);
    var registry := Withdrawal.Approve(w.terms, w.registry, author, period, need, epoch, recipient, owner, now).value;
    ApproveLedger(Tick(w, now).value, registry, registry.approvals[period]);
  }

  lemma VaultsIgnoreRegistry(w: World, registry: Registry)
    requires VaultInv(w, Founder) && VaultInv(w, Treasury)
    ensures VaultInv(w.(registry := registry), Founder) && VaultInv(w.(registry := registry), Treasury)
  {
  }

  /* ---- Lifecycle ---- */

  lemma PhaseStepsKeep(w: World, now: time, phase: Phase)
    requires Inv(w) && Tick(w, now).Ok? && w.phase != Active && w.phase != Cancelled
    requires phase == Armed ==> w.funded == Mask(true, true)
    requires phase == Active ==> w.phase == Armed && w.terms.config.t0 <= now
    ensures Inv(Tick(w, now).value.(phase := phase))
  {
    TickKeeps(w, now);
    hide AuthorityInv, BooksInv, TermsOk, VaultOk, SpendingInv;
    assert VaultInv(w, Founder) && VaultInv(w, Treasury);
    PhaseStep(Tick(w, now).value, phase);
  }

  lemma LifecycleKeeps(w: World, now: time, i: Instruction)
    requires i.Arm? || i.Activate? || i.CancelPolicy? || i.ExpireUnarmed?
    requires Inv(w) && Step(w, now, i).Ok?
    ensures Inv(Step(w, now, i).value) && Step(w, now, i).value.tokens == w.tokens
  {
    hide Inv;
    PhaseStepsKeep(w, now, Step(w, now, i).value.phase);
  }

  /* ---- All instructions ---- */

  lemma StepKeeps(w: World, now: time, i: Instruction)
    requires Inv(w) && Step(w, now, i).Ok?
    ensures Inv(Step(w, now, i).value)
  {
    hide Inv;
    match i
    case Deposit(creator, depositor, authority, roleNumber, amount, source) =>
      DepositKeeps(w, now, creator, depositor, authority, roleNumber, amount, source);
    case Refund(depositor, role, destination) => RefundKeeps(w, now, depositor, role, destination);
    case ReportCapacity(oracle, capacity, observedAt, sequence, epoch) =>
      ReportKeeps(w, now, oracle, capacity, observedAt, sequence, epoch);
    case ApproveTreasury(author, period, need, epoch, recipient) =>
      ApproveKeeps(w, now, author, period, need, epoch, recipient);
    case Release(authority, role, amount, epoch, destination, approval, recipientRecord) =>
      ReleaseKeeps(w, now, authority, role, amount, epoch, destination, approval, recipientRecord);
    case PrepareWithdrawalKey(subject) => PrepareKeyKeeps(w, subject);
    case ProposeWithdrawal(intent) => ProposeWithdrawalKeeps(w, now, intent);
    case ExecuteWithdrawal(role, nonce) => ExecuteWithdrawalKeeps(w, now, role, nonce);
    case CancelWithdrawal(a, b, role, nonce) => CancelWithdrawalKeeps(w, now, a, b, role, nonce);
    case ExpireWithdrawal(role, nonce) => ExpireWithdrawalKeeps(w, now, role, nonce);
    case ProposeChange(a, b, successor, kind, recovery, nonce) =>
      ProposeChangeKeeps(w, now, a, b, successor, kind, recovery, nonce);
    case CancelChange(a, b, nonce) => CancelChangeKeeps(w, now, a, b, nonce);
    case ExecuteChange(nonce) => ExecuteChangeKeeps(w, now, nonce);
    case _ => LifecycleKeeps(w, now, i);
  }

  /* ---- Supply ---- */

  /** Only deposits, refunds and releases move tokens. */
  lemma TokensUntouched(w: World, now: time, i: Instruction)
    requires !i.Deposit? && !i.Refund? && !i.Release? && Step(w, now, i).Ok?
    ensures Step(w, now, i).value.tokens == w.tokens
  {
    hide Withdrawal.Propose, Withdrawal.Execute, Withdrawal.Cancel, Withdrawal.Expire, Withdrawal.Approve,
      Control.Propose, Control.Execute, Control.Cancel, Control.ReportCapacity, DepositStep, RefundStep, ReleaseStep;
    match i case _ =>
  }

  /** Every instruction conserves the total of all token accounts. */
  lemma StepConserves(w: World, now: time, i: Instruction)
    requires Inv(w) && Step(w, now, i).Ok?
    ensures Supply(Step(w, now, i).value.tokens) == Supply(w.tokens)
  {
    hide Supply, DepositStep, RefundStep, ReleaseStep;
    if i.Deposit? {
      DepositKeeps(w, now, i.creator, i.depositor, i.authority, i.roleNumber, i.amount, i.source);
    } else if i.Refund? {
      RefundKeeps(w, now, i.depositor, i.role, i.destination);
    } else if i.Release? {
      ReleaseConserves(w, now, i.authority, i.role, i.amount, i.authorityEpoch, i.destination, i.approval,
          i.recipientRecord) by {
        assert LedgerInv(w);
      }
    } else {
      TokensUntouched(w, now, i);
    }
  }

  lemma ReleaseConserves(w: World, now: time, authority: Signer, r: Role, amount: u64, epoch: u64, destination: Addr,
          approval: Option<u64>, recipientRecord: Option<Key>)
    requires Supply(w.tokens) <= U64_MAX && ReleaseStep(w, now, authority, r, amount, epoch, destination, approval,
        recipientRecord).Ok?
    ensures Supply(ReleaseStep(w, now, authority, r, amount, epoch, destination, approval,
        recipientRecord).value.tokens)
      == Supply(w.tokens)
  {
    hide AuthorizeRelease, Consume, Supply;
    TransferConserves(w.tokens, VaultToken(r), destination, amount);
  }

  /* ---- Token events outside the program ---- */

  lemma TokenEventKeeps(w: World, e: Event)
    requires Inv(w) && !e.Invoke? && Apply(w, e).Ok?
    ensures Inv(Apply(w, e).value) && Supply(Apply(w, e).value.tokens) == Supply(w.tokens)
  {
    hide AuthorityInv, BooksInv, TermsOk, SpendingInv, VaultOk;
    var tokens := Apply(w, e).value.tokens;
    match e {
      case OpenTokenAccount(wallet, owner) => SumInsert(w.tokens, AmountOf, Wallet(wallet), TokenAccount(owner, 0));
      case MoveTokens(wallet, to, amount) => TransferConserves(w.tokens, Wallet(wallet), to, amount);
      case ReassignTokenAccount(wallet, owner) =>
        SumUpdate(w.tokens, AmountOf, Wallet(wallet), w.tokens[Wallet(wallet)].(owner := owner));
    }
    TokensStep(w, tokens);
  }

  lemma ApplyKeeps(w: World, e: Event)
    requires Inv(w) && Apply(w, e).Ok?
    ensures Inv(Apply(w, e).value) && Supply(Apply(w, e).value.tokens) == Supply(w.tokens)
  {
    hide Inv, Step;
    match e
    case Invoke(now, i) =>
      StepKeeps(w, now, i);
      StepConserves(w, now, i);
    case _ => TokenEventKeeps(w, e);
  }

  /** In every run from a state in the invariant, each state keeps it, and no token is made or lost. */
  lemma {:induction false} RunKeeps(w: World, events: seq<Event>)
    requires Inv(w)
    ensures Inv(Run(w, events)) && Supply(Run(w, events).tokens) == Supply(w.tokens) && Run(w, events).terms == w.terms
    decreases |events|
  {
    if events != [] {
      RunKeeps(w, events[..|events| - 1]);
      hide Inv;
      var last, e := Run(w, events[..|events| - 1]), events[|events| - 1];
      if Apply(last, e).Ok? {
        ApplyKeeps(last, e);
        TermsFixed(last, e);
      }
    }
  }

  lemma TermsFixed(w: World, e: Event)
    requires Apply(w, e).Ok?
    ensures Apply(w, e).value.terms == w.terms
  {
    hide Transfer, Capacity.Consume, AuthorizeRelease, Withdrawal.Authenticate, Withdrawal.Approve, Withdrawal.Propose,
      Withdrawal.Execute, Withdrawal.Cancel, Withdrawal.Expire, Control.Propose, Control.Execute, Control.Cancel,
      Control.ReportCapacity;
    if e.Invoke? {
      match e.instruction
      case _ =>
    }
  }
}
