/**
 The launch vault as it runs: instructions write the policy's accounts in place, in the order the program writes
 them, and may refuse half-way; the runtime then discards every write of the instruction. Each instruction is
 proved to be the step of the same name, and each transaction to keep the invariant.
 */
module Program {
  import opened Basics
  import opened State
  import opened Capacity
  import opened Launch
  import Invariant
  import Preservation
  import Tokens
  import Withdrawal
  import Control

  /** What a handler left behind is the expected step, or it gave the expected refusal. */
  predicate Handled(result: Result<()>, after: World, expected: Result<World>) {
    match result
    case Ok(_) => expected == Ok(after)
    case Err(e) => expected == Err(e)
  }

  class Accounts {
    const terms: Terms
    var phase: Phase
    var funded: Mask
    var lastActionAt: time
    var books: Books
    var gov: Governance
    var founderLane: Lane
    var treasuryLane: Lane
    var keys: map<Key, KeyRecord>
    var approvals: map<u64, Approval>
    var approvalCount: u64
    var vaults: map<Role, Vault>
    var tokens: map<Addr, TokenAccount>

    function Registry(): Registry
      reads this
    {
      State.Registry(founderLane, treasuryLane, keys, approvals, approvalCount)
    }

    function World(): World
      reads this
    {
      State.World(terms, phase, funded, lastActionAt, books, gov, Registry(), vaults, tokens)
    }

    constructor (w: World)
      ensures World() == w
    {
      terms, phase, funded, lastActionAt, books, gov := w.terms, w.phase, w.funded, w.lastActionAt, w.books, w.gov;
      founderLane, treasuryLane, keys := w.registry.founder, w.registry.treasury, w.registry.keys;
      approvals, approvalCount, vaults, tokens := w.registry.approvals, w.registry.approvalCount, w.vaults, w.tokens;
    }

    function LaneOf(r: Role): Lane
      reads this
    {
      if r.Founder? then founderLane else treasuryLane
    }

    method SetLane(r: Role, lane: Lane)
      modifies `founderLane, `treasuryLane
      ensures Registry() == old(Registry()).With(r, lane)
    {
      if r.Founder? { founderLane := lane; } else { treasuryLane := lane; }
    }

    method Tick(now: time) returns (result: Result<()>)
      modifies `lastActionAt
      ensures Handled(result, World(), Launch.Tick(old(World()), now))
    {
      if now < lastActionAt { return Err(ClockRollback); }
      lastActionAt := now;
      return Ok(());
    }

    /** The token program's transfer, between accounts of the policy's mint. */
    method TransferTokens(from: Addr, to: Addr, amount: u64) returns (result: Result<()>)
      modifies `tokens
      ensures match result
              case Ok(_) => Tokens.Transfer(old(tokens), from, to, amount) == Ok(tokens)
              case Err(e) => Tokens.Transfer(old(tokens), from, to, amount) == Err(e)
    {
      if from !in tokens || to !in tokens { return Err(Constraint); }
      if tokens[from].amount < amount { return Err(InsufficientFunds); }
      if from != to {
        tokens := tokens[from := tokens[from].(amount := tokens[from].amount - amount)];
        var received :- CheckedAdd(tokens[to].amount, amount, Overflow);
        tokens := tokens[to := tokens[to].(amount := received)];
      }
      return Ok(());
    }

    /* ---- Lifecycle ---- */

    method Deposit(now: time, creator: Signer, depositor: Signer, authority: Signer, roleNumber: u8, amount: u64,
            source: Addr) returns (result: Result<()>)
      modifies this
      ensures Handled(result, World(),
          DepositStep(old(World()), now, creator, depositor, authority, roleNumber, amount, source))
    {
      hide Tokens.Transfer, Withdrawal.Authenticate;
      if gov.controller != creator { return Err(Unauthorized); }
      if source !in tokens || tokens[source].owner != depositor { return Err(Constraint); }
      if RoleOf(roleNumber).Some?
         && (RoleOf(roleNumber).value in vaults || VaultToken(RoleOf(roleNumber).value) in tokens) {
        return Err(Constraint);
      }
      var _ :- Tick(now);
      if phase != Prepared { return Err(InvalidState); }
      if now >= terms.config.t0 { return Err(T0Boundary); }
      if RoleOf(roleNumber).None? { return Err(InvalidConfig); }
      var r := RoleOf(roleNumber).value;
      :- Withdrawal.Authenticate(Registry(), r, authority, Registry().Lane(r).state.epoch);
      if amount != terms.config.amount.Get(r) { return Err(WrongPrincipal); }
      if terms.mint.mintAuthority.Some? || terms.mint.freezeAuthority.Some? { return Err(MintAuthorityLive); }
      if funded.Has(r) { return Err(PoolsNotFunded); }
      tokens := tokens[VaultToken(r) := TokenAccount(VaultAuthority(r), 0)];
      var _ :- TransferTokens(source, VaultToken(r), amount);
      vaults := vaults[r := Vault(depositor, terms.Owner(r), r, amount, 0, 0, 0)];
      funded := funded.With(r);
      return Ok(());
    }

    method Arm(now: time, creator: Signer) returns (result: Result<()>)
      modifies this
      ensures Handled(result, World(), ArmStep(old(World()), now, creator))
    {
      if gov.controller != creator { return Err(Unauthorized); }
      var _ :- Tick(now);
      if phase != Prepared { return Err(InvalidState); }
      if now >= terms.config.t0 { return Err(T0Boundary); }
      if funded != Mask(true, true) { return Err(PoolsNotFunded); }
      phase := Armed;
      return Ok(());
    }

    method Activate(now: time) returns (result: Result<()>)
      modifies this
      ensures Handled(result, World(), ActivateStep(old(World()), now))
    {
      var _ :- Tick(now);
      if phase != Armed { return Err(InvalidState); }
      if now < terms.config.t0 { return Err(T0Boundary); }
      phase := Active;
      return Ok(());
    }

    method Cancel(now: time, creator: Signer, founder: Signer, treasury: Signer) returns (result: Result<()>)
      modifies this
      ensures Handled(result, World(), CancelStep(old(World()), now, creator, founder, treasury))
    {
      if gov.controller != creator || founderLane.state.current != founder || treasuryLane.state.current != treasury {
        return Err(Unauthorized);
      }
      var _ :- Tick(now);
      if phase != Prepared && phase != Armed { return Err(InvalidState); }
      if now >= terms.config.t0 { return Err(T0Boundary); }
      phase := Cancelled;
      return Ok(());
    }

    method ExpireUnarmed(now: time) returns (result: Result<()>)
      modifies this
      ensures Handled(result, World(), ExpireUnarmedStep(old(World()), now))
    {
      var _ :- Tick(now);
      if phase != Prepared { return Err(InvalidState); }
      if now < terms.config.t0 { return Err(T0Boundary); }
      phase := Cancelled;
      return Ok(());
    }

    method Refund(now: time, depositor: Signer, r: Role, destination: Addr) returns (result: Result<()>)
      modifies this
      ensures Handled(result, World(), RefundStep(old(World()), now, depositor, r, destination))
    {
      hide Tokens.Transfer;
      if r !in vaults || vaults[r].depositor != depositor || VaultToken(r) !in tokens { return Err(Constraint); }
      if destination !in tokens || tokens[destination].owner != depositor { return Err(Constraint); }
      var _ :- Tick(now);
      if phase != Cancelled { return Err(InvalidState); }
      if vaults[r].releasedTotal != 0 { return Err(InvalidState); }
      var amount := tokens[VaultToken(r)].amount;
      if amount == 0 { return Err(ZeroAmount); }
      var _ :- TransferTokens(VaultToken(r), destination, amount);
      return Ok(());
    }

    /* ---- Reports and approvals ---- */

    method ReportCapacity(now: time, oracle: Signer, capacity: u64, observedAt: i64, sequence: u64, epoch: u64)
      returns (result: Result<()>)
      modifies this
      ensures Handled(result, World(), ReportStep(old(World()), now, oracle, capacity, observedAt, sequence, epoch))
    {
      hide PeriodAt, PeriodStart;
      if gov.oracle != oracle { return Err(Constraint); }
      var _ :- Tick(now);
      if phase != Active { return Err(InvalidState); }
      var period :- PeriodAt(terms.config.t0, now);
      if epoch != gov.oracleEpoch || observedAt < gov.oracleActivatedAt || sequence <= gov.report.sequence
        || observedAt < gov.report.at {
        return Err(InvalidReport);
      }
      var start :- PeriodStart(terms.config.t0, period);
      if observedAt < start || observedAt > now { return Err(InvalidReport); }
      if now - observedAt > I64_MAX { return Err(Overflow); }
      if now - observedAt > terms.config.maxReportAge { return Err(InvalidReport); }
      gov := gov.(report := gov.report.(period := period, capacity := capacity));
      gov := gov.(report := gov.report.(at := observedAt, sequence := sequence));
      gov := gov.(report := gov.report.(epoch := epoch, valid := true));
      return Ok(());
    }

    method ApproveTreasury(now: time, author: Signer, period: u64, need: u64, epoch: u64, recipient: Addr)
      returns (result: Result<()>)
      modifies this
      ensures Handled(result, World(), ApproveStep(old(World()), now, author, period, need, epoch, recipient))
    {
      hide PeriodAt, PeriodStart, Withdrawal.EligibleRecipient;
      if treasuryLane.state.current != author { return Err(Error.WithdrawalAuthority); }
      if recipient !in tokens || period in approvals || tokens[recipient].owner !in keys { return Err(Constraint); }
      var _ :- Tick(now);
      if phase == Cancelled { return Err(InvalidState); }
      :- Withdrawal.Authenticate(Registry(), Treasury, author, epoch);
      var owner := tokens[recipient].owner;
      if !Withdrawal.EligibleRecipient(terms, owner, keys[owner]) { return Err(KnownSelfPayment); }
      if need == 0 { return Err(InvalidApproval); }
      if now >= terms.config.t0 {
        var current :- PeriodAt(terms.config.t0, now);
        if period <= current { return Err(InvalidApproval); }
      }
      var next :- CheckedAdd(period, 1, Overflow);
      var end :- PeriodStart(terms.config.t0, next);
      var notice :- CheckedAddTime(now, PERIOD);
      if notice >= end { return Err(InvalidApproval); }
      approvals := approvals[period := Approval(period, recipient, owner, need, 0, now, author, epoch)];
      keys := keys[owner := keys[owner].(recipient := true)];
      var count :- CheckedAdd(approvalCount, 1, Overflow);
      approvalCount := count;
      return Ok(());
    }

    /* ---- Release ---- */

    /** Fills the two slots of the window's caps, founder first. */
    method WindowCaps(annualCaps: Amounts, priorAnnual: Amounts, priorLifetime: Amounts)
      returns (result: Result<Amounts>)
      ensures result ==
        (var f :- WindowCap(terms.config.periodCap.founder, annualCaps.founder, priorAnnual.founder,
            terms.config.amount.founder, priorLifetime.founder);
         var t :- WindowCap(terms.config.periodCap.treasury, annualCaps.treasury, priorAnnual.treasury,
             terms.config.amount.treasury, priorLifetime.treasury);
         Ok(Amounts(f, t)))
    {
      var slots := [Founder, Treasury];
      var caps := Amounts(0, 0);
      for i := 0 to 2
        invariant i >= 1 ==> WindowCap(terms.config.periodCap.founder, annualCaps.founder, priorAnnual.founder,
            terms.config.amount.founder, priorLifetime.founder) == Ok(caps.founder)
        invariant i == 2 ==> WindowCap(terms.config.periodCap.treasury, annualCaps.treasury, priorAnnual.treasury,
            terms.config.amount.treasury, priorLifetime.treasury) == Ok(caps.treasury)
      {
        var r := slots[i];
        var cap := Min(terms.config.periodCap.Get(r), annualCaps.Get(r) / RATE_DIVISOR);
        var annualLeft :- Sub(annualCaps.Get(r), priorAnnual.Get(r));
        cap := Min(cap, annualLeft);
        var lifetimeLeft :- Sub(terms.config.amount.Get(r), priorLifetime.Get(r));
        cap := Min(cap, lifetimeLeft);
        caps := caps.Set(r, cap);
      }
      return Ok(caps);
    }

    method CurrentLimits(now: time) returns (result: Result<Limits>)
      ensures result == WindowLimits(terms.config, books, gov.report.capacity, now)
    {
      hide PeriodAt, RuleIndex, AnnualCaps, WindowCap, ReservedQuotas, SubAmounts;
      var c := terms.config;
      var period :- PeriodAt(c.t0, now);
      if period < books.period { return Err(ClockRollback); }
      var index :- RuleIndex(c.rules, period);
      if index < books.annualIndex { return Err(ClockRollback); }
      var shared :- CheckedAdd(books.periodUsed.founder, books.periodUsed.treasury, InvalidAccounting);
      if books.sharedUsed != shared { return Err(InvalidAccounting); }
      var used := Amounts(0, 0);
      if period == books.period { used := books.periodUsed; }
      var annualUsed := Amounts(0, 0);
      if index == books.annualIndex { annualUsed := books.annualUsed; }
      var rule := c.rules.At(index);
      var annualCaps :- AnnualCaps(rule);
      var priorAnnual :- SubAmounts(annualUsed, used);
      var priorLifetime :- SubAmounts(books.released, used);
      var caps :- WindowCaps(annualCaps, priorAnnual, priorLifetime);
      var sharedPrior :- CheckedAdd(priorAnnual.founder, priorAnnual.treasury, Overflow);
      var sharedLeft :- Sub(rule.sharedCap, sharedPrior);
      var capacity := Min(Min(gov.report.capacity, c.sharedHardCap), sharedLeft);
      var cliff :- CheckedAddTime(c.t0, CLIFF);
      var quotas := ReservedQuotas(capacity, caps.founder, caps.treasury, now >= cliff);
      return Ok(Limits(Window(period, index, used, annualUsed, annualCaps, caps, capacity), quotas,
                       used.founder > quotas.founder || used.treasury > quotas.treasury));
    }

    /** Draws on the window; no counter is written before every check has passed. */
    method ConsumeCapacity(r: Role, now: time, amount: u64) returns (result: Result<()>)
      requires r in vaults
      modifies `books, `vaults
      ensures match result
              case Ok(_) => r in vaults && vaults == old(vaults)[r := vaults[r]]
                            && Consume(terms.config, old(books), old(vaults)[r], gov.report.capacity, now,
                                amount) == Ok((books, vaults[r]))
              case Err(e) =>
                Consume(terms.config, old(books), old(vaults)[r], gov.report.capacity, now, amount) == Err(e)
    {
      hide WindowLimits;
      var limits :- CurrentLimits(now);
      if limits.correctionPause { return Err(CapacityCorrectionPause); }
      var v := vaults[r];
      if v.releasedTotal != books.released.Get(v.role) { return Err(InvalidAccounting); }
      var used :- CheckedAddAt(limits.window.periodUsed, v.role, amount);
      var annualUsed :- CheckedAddAt(limits.window.annualUsed, v.role, amount);
      var lifetime :- CheckedAddAt(books.released, v.role, amount);
      var shared :- CheckedAdd(used.founder, used.treasury, Overflow);
      if used.Get(v.role) > limits.quotas.Get(v.role) { return Err(ReservedQuotaExceeded); }
      if !(annualUsed.Get(v.role) <= limits.window.annualCaps.Get(v.role) && lifetime.Get(v.role) <= v.principal
           && shared <= limits.window.capacity) { return Err(CapacityExceeded); }
      books := books.(period := limits.window.period, annualIndex := limits.window.annualIndex);
      books := books.(periodUsed := used, annualUsed := annualUsed, sharedUsed := shared);
      books := books.(released := lifetime);
      vaults := vaults[r := v.(period := limits.window.period, periodUsed := used.Get(v.role),
          releasedTotal := lifetime.Get(v.role))];
      return Ok(());
    }

    /** Spends the treasury's approval; the spent amount is written before it is checked against the need. */
    method SpendApprovalNow(period: u64, destination: Addr, owner: Key, amount: u64, approval: Option<u64>,
            recipientRecord: Option<Key>, now: time) returns (result: Result<()>)
      requires approval.Some? ==> approval.value in approvals
      requires recipientRecord.Some? ==> recipientRecord.value in keys
      modifies `approvals
      ensures match result
              case Ok(_) => SpendApproval(terms, old(Registry()), period, destination, owner, amount, approval,
                  recipientRecord, now) == Ok(Registry())
              case Err(e) => SpendApproval(terms, old(Registry()), period, destination, owner, amount, approval,
                  recipientRecord, now) == Err(e)
    {
      hide Withdrawal.EligibleRecipient;
      if recipientRecord.None? { return Err(InvalidApproval); }
      var k := keys[recipientRecord.value];
      if recipientRecord.value != owner || !k.recipient { return Err(InvalidApproval); }
      if !Withdrawal.EligibleRecipient(terms, owner, k) { return Err(KnownSelfPayment); }
      if approval.None? { return Err(InvalidApproval); }
      var a := approvals[approval.value];
      if approval.value != period || a.period != period || a.recipient != destination || a.recipientOwner != owner {
        return Err(InvalidApproval);
      }
      var notice :- CheckedAddTime(a.createdAt, PERIOD);
      if now < notice { return Err(InvalidApproval); }
      var consumed :- CheckedAdd(a.consumed, amount, Overflow);
      approvals := approvals[period := a.(consumed := consumed)];
      if consumed > a.need { return Err(InvalidApproval); }
      return Ok(());
    }

    /** Everything a release checks before the capacity kernel; only the treasury's approval is written. */
    method Authorize(now: time, authority: Signer, r: Role, amount: u64, epoch: u64, destination: Addr,
            approval: Option<u64>, recipientRecord: Option<Key>) returns (result: Result<()>)
      requires r in vaults && destination in tokens
      requires approval.Some? ==> approval.value in approvals
      requires recipientRecord.Some? ==> recipientRecord.value in keys
      modifies `approvals
      ensures match result
              case Ok(_) => AuthorizeRelease(old(World()), now, authority, r, amount, epoch, destination, approval,
                  recipientRecord) == Ok(Registry())
              case Err(e) => AuthorizeRelease(old(World()), now, authority, r, amount, epoch, destination, approval,
                  recipientRecord) == Err(e)
    {
      hide PeriodAt, SpendApproval, CheckReport, Withdrawal.Authenticate;
      if phase != Active { return Err(InvalidState); }
      :- Withdrawal.Authenticate(Registry(), r, authority, epoch);
      if now <= terms.config.t0 { return Err(T0Boundary); }
      if amount == 0 { return Err(ZeroAmount); }
      var period :- PeriodAt(terms.config.t0, now);
      if period < books.period || period < vaults[r].period { return Err(ClockRollback); }
      :- CheckReport(terms.config, gov, period, now);
      if vaults[r].authority != terms.Owner(r) { return Err(Unauthorized); }
      var owner := tokens[destination].owner;
      if r == Founder {
        var cliff :- CheckedAddTime(terms.config.t0, CLIFF);
        if now < cliff { return Err(CliffActive); }
        if owner != founderLane.state.current { return Err(Unauthorized); }
        if approval.Some? || recipientRecord.Some? { return Err(InvalidApproval); }
      } else {
        var _ :- SpendApprovalNow(period, destination, owner, amount, approval, recipientRecord, now);
      }
      return Ok(());
    }

    method Release(now: time, authority: Signer, r: Role, amount: u64, epoch: u64, destination: Addr,
            approval: Option<u64>, recipientRecord: Option<Key>) returns (result: Result<()>)
      modifies this
      ensures Handled(result, World(),
          ReleaseStep(old(World()), now, authority, r, amount, epoch, destination, approval,
              recipientRecord))
    {
      hide AuthorizeRelease, Consume, Tokens.Transfer;
      if r !in vaults || VaultToken(r) !in tokens || destination !in tokens { return Err(Constraint); }
      if approval.Some? && approval.value !in approvals { return Err(Constraint); }
      if recipientRecord.Some? && recipientRecord.value !in keys { return Err(Constraint); }
      var _ :- Tick(now);
      var _ :- Authorize(now, authority, r, amount, epoch, destination, approval, recipientRecord);
      var _ :- ConsumeCapacity(r, now, amount);
      var _ :- TransferTokens(VaultToken(r), destination, amount);
      return Ok(());
    }

    /* ---- Withdrawal authority ---- */

    method PrepareWithdrawalKey(subject: Key) returns (result: Result<()>)
      modifies this
      ensures Handled(result, World(), PrepareKeyStep(old(World()), subject))
    {
      if subject in keys { return Err(Constraint); }
      if subject == Default { return Err(InvalidConfig); }
      if phase == Cancelled { return Err(InvalidState); }
      keys := keys[subject := KeyRecord(EMPTY_MASK, EMPTY_MASK, false)];
      return Ok(());
    }

    method ProposeWithdrawal(now: time, i: Withdrawal.Intent) returns (result: Result<()>)
      modifies this
      ensures Handled(result, World(), ProposeWithdrawalStep(old(World()), now, i))
    {
      hide Withdrawal.ValidateAdmission, Quorum, Withdrawal.EligibleSuccessor;
      if i.successor !in keys { return Err(Constraint); }
      if RoleOf(i.role).Some? && i.nonce in LaneOf(RoleOf(i.role).value).proposals { return Err(Constraint); }
      var _ :- Tick(now);
      if phase == Cancelled { return Err(InvalidState); }
      :- Withdrawal.ValidateAdmission(i.validFrom, i.validUntil, now);
      if RoleOf(i.role).None? { return Err(InvalidConfig); }
      var r := RoleOf(i.role).value;
      var rs := LaneOf(r).state;
      if rs.pending != 0 { return Err(InvalidChange); }
      var next :- CheckedAdd(rs.sequence, 1, Overflow);
      if i.nonce != next || i.epoch != rs.epoch || i.predecessor != rs.current { return Err(InvalidChange); }
      var _ :- CheckedAdd(rs.epoch, 1, Overflow);
      if i.recovery {
        if !Quorum(terms.config.Guardians(r), i.initiator, i.cosigner) { return Err(RecoveryQuorum); }
      } else {
        if i.initiator != rs.current || i.cosigner != rs.current { return Err(Error.WithdrawalAuthority); }
      }
      var record := keys[i.successor];
      if !Withdrawal.EligibleSuccessor(terms, r, i.successor, record) { return Err(IneligibleSuccessor); }
      var executeAfter :- CheckedAddTime(now, CHANGE_NOTICE);
      var expiresAt :- CheckedAddTime(executeAfter, EXECUTION_WINDOW);
      var q := Withdrawal.NewProposal(r, i, rs.current, now, executeAfter, expiresAt);
      SetLane(r, LaneOf(r).(proposals := LaneOf(r).proposals[i.nonce := q]));
      keys := keys[i.successor := record.(pending := record.pending.With(r))];
      SetLane(r, LaneOf(r).(state := LaneOf(r).state.(pending := i.nonce)));
      SetLane(r, LaneOf(r).(state := LaneOf(r).state.(sequence := i.nonce)));
      return Ok(());
    }

    /** Ends the pending proposal, field by field. */
    method Finish(r: Role, nonce: u64, status: Status, now: time)
      requires Withdrawal.Bound(Registry(), r, nonce)
      modifies `founderLane, `treasuryLane, `keys
      ensures var q := old(LaneOf(r)).proposals[nonce];
        Registry() == Withdrawal.Finish(old(Registry()), r, nonce, status, now, old(LaneOf(r)).state,
            old(keys)[q.successor])
    {
      var q := LaneOf(r).proposals[nonce];
      SetLane(r, LaneOf(r).(state := LaneOf(r).state.(pending := 0)));
      keys := keys[q.successor := keys[q.successor].(pending := keys[q.successor].pending.Without(r))];
      q := q.(status := status);
      q := q.(finishedAt := now);
      SetLane(r, LaneOf(r).(proposals := LaneOf(r).proposals[nonce := q]));
    }

    method ExecuteWithdrawal(now: time, r: Role, nonce: u64) returns (result: Result<()>)
      modifies this
      ensures Handled(result, World(), ExecuteWithdrawalStep(old(World()), now, r, nonce))
    {
      hide Withdrawal.CheckPending, Withdrawal.EligibleSuccessor;
      if !Withdrawal.Bound(Registry(), r, nonce) { return Err(Constraint); }
      var _ :- Tick(now);
      if phase == Cancelled { return Err(InvalidState); }
      var q := LaneOf(r).proposals[nonce];
      :- Withdrawal.CheckPending(LaneOf(r).state, r, q, keys[q.successor]);
      if !(q.executeAfter <= now < q.expiresAt) { return Err(WithdrawalWindow); }
      if !Withdrawal.EligibleSuccessor(terms, r, q.successor, keys[q.successor]) { return Err(IneligibleSuccessor); }
      SetLane(r, LaneOf(r).(state := LaneOf(r).state.(current := q.successor)));
      var epoch :- CheckedAdd(LaneOf(r).state.epoch, 1, Overflow);
      SetLane(r, LaneOf(r).(state := LaneOf(r).state.(epoch := epoch)));
      ghost var unmarked := keys;
      keys := keys[q.successor := keys[q.successor].(history := keys[q.successor].history.With(r))];
      Finish(r, nonce, Executed, now);
      assert keys == unmarked[q.successor := keys[q.successor]];
      return Ok(());
    }

    method CancelWithdrawal(now: time, a: Signer, b: Signer, r: Role, nonce: u64) returns (result: Result<()>)
      modifies this
      ensures Handled(result, World(), CancelWithdrawalStep(old(World()), now, a, b, r, nonce))
    {
      hide Withdrawal.CheckPending, MayRetract;
      if !Withdrawal.Bound(Registry(), r, nonce) { return Err(Constraint); }
      var _ :- Tick(now);
      var q := LaneOf(r).proposals[nonce];
      :- Withdrawal.CheckPending(LaneOf(r).state, r, q, keys[q.successor]);
      if !MayRetract(terms.config.Guardians(r), LaneOf(r).state.current, q.successor, q.recovery, a, b) {
        return Err(Error.WithdrawalAuthority);
      }
      Finish(r, nonce, Retracted, now);
      return Ok(());
    }

    method ExpireWithdrawal(now: time, r: Role, nonce: u64) returns (result: Result<()>)
      modifies this
      ensures Handled(result, World(), ExpireWithdrawalStep(old(World()), now, r, nonce))
    {
      hide Withdrawal.CheckPending;
      if !Withdrawal.Bound(Registry(), r, nonce) { return Err(Constraint); }
      var _ :- Tick(now);
      var q := LaneOf(r).proposals[nonce];
      :- Withdrawal.CheckPending(LaneOf(r).state, r, q, keys[q.successor]);
      if now < q.expiresAt { return Err(WithdrawalWindow); }
      Finish(r, nonce, Expired, now);
      return Ok(());
    }

    /* ---- Control of the policy ---- */

    method ProposeChange(now: time, a: Signer, b: Signer, successor: Signer, kind: u8, recovery: bool, nonce: u64)
      returns (result: Result<()>)
      modifies this
      ensures Handled(result, World(), ProposeChangeStep(old(World()), now, a, b, successor, kind, recovery, nonce))
    {
      hide Quorum;
      if nonce in gov.changes { return Err(Constraint); }
      var _ :- Tick(now);
      if phase == Cancelled { return Err(InvalidState); }
      if gov.pendingChange != 0 { return Err(InvalidChange); }
      var next :- CheckedAdd(gov.changeSequence, 1, Overflow);
      if nonce != next { return Err(InvalidChange); }
      if recovery {
        if !Quorum(terms.config.recoveryKeys, a, b) { return Err(RecoveryQuorum); }
      } else {
        if a != gov.controller || b != gov.controller { return Err(Unauthorized); }
      }
      if Control.KindOf(kind).None? { return Err(InvalidChange); }
      var current := gov.controller;
      if Control.KindOf(kind).value == ChangeOracle { current := gov.oracle; }
      if successor == Default || successor == current { return Err(InvalidChange); }
      var executeAfter :- CheckedAddTime(now, CHANGE_NOTICE);
      var q := Change(nonce, Control.KindOf(kind).value, recovery, successor, gov.controllerEpoch, gov.oracleEpoch, now,
          executeAfter, Pending);
      gov := gov.(changes := gov.changes[nonce := q]);
      gov := gov.(changeSequence := nonce);
      gov := gov.(pendingChange := nonce);
      return Ok(());
    }

    method CancelChange(now: time, a: Signer, b: Signer, nonce: u64) returns (result: Result<()>)
      modifies this
      ensures Handled(result, World(), CancelChangeStep(old(World()), now, a, b, nonce))
    {
      hide MayRetract, Control.CheckPending;
      if nonce !in gov.changes { return Err(Constraint); }
      var _ :- Tick(now);
      if phase == Cancelled { return Err(InvalidState); }
      var q := gov.changes[nonce];
      :- Control.CheckPending(gov, q);
      if !MayRetract(terms.config.recoveryKeys, gov.controller, q.successor, q.recovery, a, b) {
        return Err(Unauthorized);
      }
      gov := gov.(changes := gov.changes[nonce := q.(status := Retracted)]);
      gov := gov.(pendingChange := 0);
      return Ok(());
    }

    method ExecuteChange(now: time, nonce: u64) returns (result: Result<()>)
      modifies this
      ensures Handled(result, World(), ExecuteChangeStep(old(World()), now, nonce))
    {
      hide Control.CheckPending;
      if nonce !in gov.changes { return Err(Constraint); }
      var _ :- Tick(now);
      if phase == Cancelled { return Err(InvalidState); }
      var q := gov.changes[nonce];
      :- Control.CheckPending(gov, q);
      if now < q.executeAfter { return Err(Error.ChangeNotice); }
      match q.kind {
        case ChangeOracle =>
          gov := gov.(oracle := q.successor);
          var epoch :- CheckedAdd(gov.oracleEpoch, 1, Overflow);
          gov := gov.(oracleEpoch := epoch);
          gov := gov.(oracleActivatedAt := now);
          gov := gov.(report := gov.report.(valid := false));
        case ChangeController =>
          gov := gov.(controller := q.successor);
          var epoch :- CheckedAdd(gov.controllerEpoch, 1, Overflow);
          gov := gov.(controllerEpoch := epoch);
      }
      gov := gov.(changes := gov.changes[nonce := q.(status := Executed)]);
      gov := gov.(pendingChange := 0);
      return Ok(());
    }

    /* ---- Transactions ---- */

    method Dispatch(now: time, i: Instruction) returns (result: Result<()>)
      modifies this
      ensures Handled(result, World(), Step(old(World()), now, i))
    {
      hide DepositStep, ArmStep, ActivateStep, CancelStep, ExpireUnarmedStep, RefundStep, ReportStep, ApproveStep,
        ReleaseStep, PrepareKeyStep, ProposeWithdrawalStep, ExecuteWithdrawalStep, CancelWithdrawalStep,
        ExpireWithdrawalStep, ProposeChangeStep, CancelChangeStep, ExecuteChangeStep;
      match i
      case Deposit(creator, depositor, authority, roleNumber, amount, source) =>
        result := Deposit(now, creator, depositor, authority, roleNumber, amount, source);
      case Arm(creator) => result := Arm(now, creator);
      case Activate => result := Activate(now);
      case CancelPolicy(creator, founder, treasury) => result := Cancel(now, creator, founder, treasury);
      case ExpireUnarmed => result := ExpireUnarmed(now);
      case Refund(depositor, role, destination) => result := Refund(now, depositor, role, destination);
      case ReportCapacity(oracle, capacity, observedAt, sequence, epoch) =>
        result := ReportCapacity(now, oracle, capacity, observedAt, sequence, epoch);
      case ApproveTreasury(author, period, need, epoch, recipient) =>
        result := ApproveTreasury(now, author, period, need, epoch, recipient);
      case Release(authority, role, amount, epoch, destination, approval, recipientRecord) =>
        result := Release(now, authority, role, amount, epoch, destination, approval, recipientRecord);
      case PrepareWithdrawalKey(subject) => result := PrepareWithdrawalKey(subject);
      case ProposeWithdrawal(intent) => result := ProposeWithdrawal(now, intent);
      case ExecuteWithdrawal(role, nonce) => result := ExecuteWithdrawal(now, role, nonce);
      case CancelWithdrawal(a, b, role, nonce) => result := CancelWithdrawal(now, a, b, role, nonce);
      case ExpireWithdrawal(role, nonce) => result := ExpireWithdrawal(now, role, nonce);
      case ProposeChange(a, b, successor, kind, recovery, nonce) =>
        result := ProposeChange(now, a, b, successor, kind, recovery, nonce);
      case CancelChange(a, b, nonce) => result := CancelChange(now, a, b, nonce);
      case ExecuteChange(nonce) => result := ExecuteChange(now, nonce);
    }

    /** Puts back what an instruction wrote. */
    method Restore(w: World)
      requires w.terms == terms
      modifies this
      ensures World() == w
    {
      phase, funded, lastActionAt, books, gov := w.phase, w.funded, w.lastActionAt, w.books, w.gov;
      founderLane, treasuryLane, keys := w.registry.founder, w.registry.treasury, w.registry.keys;
      approvals, approvalCount, vaults, tokens := w.registry.approvals, w.registry.approvalCount, w.vaults, w.tokens;
    }

    /** One transaction: its instruction is committed whole, or leaves no trace; either way the invariant stands. */
    method Process(now: time, i: Instruction) returns (result: Result<()>)
      modifies this
      ensures result.Ok? <==> Step(old(World()), now, i).Ok?
      ensures World() == Next(old(World()), Invoke(now, i))
      ensures Invariant.Inv(old(World())) ==> Invariant.Inv(World())
      ensures Invariant.Inv(old(World())) ==> Tokens.Supply(tokens) == Tokens.Supply(old(tokens))
    {
      hide Step, Invariant.Inv, Tokens.Supply;
      var before := World();
      result := Dispatch(now, i);
      if result.Err? {
        Restore(before);
      }
      assert Invariant.Inv(before) ==>
        Invariant.Inv(World()) && Tokens.Supply(tokens) == Tokens.Supply(before.tokens) by {
        if Invariant.Inv(before) && Apply(before, Invoke(now, i)).Ok? {
          Preservation.ApplyKeeps(before, Invoke(now, i));
        }
      }
    }
  }
}
