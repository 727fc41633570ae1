/** The launch vault's instructions as steps from one world to the next, each refused or committed whole. */
module Launch {
  import opened Basics
  import opened State
  import opened Capacity
  import opened Tokens
  import Withdrawal
  import Control

  /* ---- Bootstrap ---- */

  /** The content address of a policy's terms; distinct terms have distinct identities. */
  datatype Identity = IdentityOf(terms: Terms)

  datatype Preparation = Preparation(terms: Terms, identity: Identity)

  predicate ValidCommittee(k: Committee) {
    && k.one != Default && k.two != Default && k.three != Default
    && k.one != k.two && k.one != k.three && k.two != k.three
  }

  /** The admission checks of an immutable preparation. */
  function Validate(p: Preparation, now: time): Result<()> {
    var t := p.terms;
    var c := t.config;
    :- Require(c.t0 > now, T0Boundary);
    var _ :- CheckedAddTime(c.t0, CLIFF);
    var _ :- ValidateRules(c);
    :- Require(ValidCommittee(c.recoveryKeys), InvalidConfig);
    :- Require(ValidCommittee(c.founderGuardians) && !c.founderGuardians.Has(t.founder), InvalidConfig);
    :- Require(ValidCommittee(c.treasuryGuardians) && !c.treasuryGuardians.Has(t.treasury), InvalidConfig);
    var principal :- CheckedAdd(c.amount.founder, c.amount.treasury, Overflow);
    :- Require(principal <= t.mint.supply, InvalidConfig);
    :- Require(c.amount.founder > 0 && c.amount.treasury > 0
               && 0 < c.periodCap.founder <= c.amount.founder && 0 < c.periodCap.treasury <= c.amount.treasury
               && c.sharedHardCap > 0 && 1 <= c.maxReportAge <= 7 * 86_400
               && t.specHash != 0 && t.oracle != Default, InvalidConfig);
    :- Require(t.mint.mintAuthority.None? && t.mint.freezeAuthority.None?, MintAuthorityLive);
    :- Require(p.identity == IdentityOf(t), IdentityMismatch);
    Ok(())
  }

  /** The six signers and the oracle account that confirm a preparation. */
  datatype Consent = Consent(creator: Signer, founder: Signer, treasury: Signer, oracle: Key, recovery: Committee)

  function Open(p: Preparation, consent: Consent, tokens: map<Addr, TokenAccount>, now: time): Result<World> {
    var t := p.terms;
    var _ :- Validate(p, now);
    :- Require(t.creator == consent.creator && t.founder == consent.founder && t.treasury == consent.treasury
               && t.oracle == consent.oracle, IdentityMismatch);
    :- Require(t.config.recoveryKeys == consent.recovery, Unauthorized);
    Ok(World(t, Prepared, EMPTY_MASK, now, EMPTY_BOOKS, Control.FreshGovernance(t.creator, t.oracle, now),
             Withdrawal.FreshRegistry(t), map[], tokens))
  }

  /* ---- Instructions ---- */

  datatype Instruction =
    | Deposit(creator: Signer, depositor: Signer, authority: Signer, roleNumber: u8, amount: u64, source: Addr)
    | Arm(creator: Signer)
    | Activate
    | CancelPolicy(creator: Signer, founder: Signer, treasury: Signer)
    | ExpireUnarmed
    | Refund(depositor: Signer, role: Role, destination: Addr)
    | ReportCapacity(oracle: Signer, capacity: u64, observedAt: i64, sequence: u64, epoch: u64)
    | ApproveTreasury(author: Signer, period: u64, need: u64, authorityEpoch: u64, recipient: Addr)
    | Release(authority: Signer, role: Role, amount: u64, authorityEpoch: u64, destination: Addr,
              approval: Option<u64>, recipientRecord: Option<Key>)
    | PrepareWithdrawalKey(subject: Key)
    | ProposeWithdrawal(intent: Withdrawal.Intent)
    | ExecuteWithdrawal(role: Role, nonce: u64)
    | CancelWithdrawal(initiator: Signer, cosigner: Signer, role: Role, nonce: u64)
    | ExpireWithdrawal(role: Role, nonce: u64)
    | ProposeChange(initiator: Signer, cosigner: Signer, successor: Signer, kind: u8, recovery: bool, nonce: u64)
    | CancelChange(initiator: Signer, cosigner: Signer, nonce: u64)
    | ExecuteChange(nonce: u64)

  /** An instruction at a clock reading, or a token event outside the program's control. */
  datatype Event =
    | Invoke(now: time, instruction: Instruction)
    | OpenTokenAccount(wallet: nat, owner: Key)
    | MoveTokens(wallet: nat, to: Addr, amount: u64)
    | ReassignTokenAccount(wallet: nat, owner: Key)

  function Tick(w: World, now: time): Result<World> {
    if now < w.lastActionAt then Err(ClockRollback) else
    Ok(w.(lastActionAt := now))
  }

  function DepositStep(w: World, now: time, creator: Signer, depositor: Signer, authority: Signer, roleNumber: u8,
          amount: u64, source: Addr): Result<World>
  {
    if w.gov.controller != creator then Err(Unauthorized) else
    :- Require(source in w.tokens && w.tokens[source].owner == depositor, Constraint);
    :- Require(RoleOf(roleNumber).Some? ==>
        RoleOf(roleNumber).value !in w.vaults && VaultToken(RoleOf(roleNumber).value) !in w.tokens,
               Constraint);
    var w :- Tick(w, now);
    :- Require(w.phase == Prepared, InvalidState);
    :- Require(now < w.terms.config.t0, T0Boundary);
    :- Require(RoleOf(roleNumber).Some?, InvalidConfig);
    var r := RoleOf(roleNumber).value;
    :- Withdrawal.Authenticate(w.registry, r, authority, w.registry.Lane(r).state.epoch);
    :- Require(amount == w.terms.config.amount.Get(r), WrongPrincipal);
    :- Require(w.terms.mint.mintAuthority.None? && w.terms.mint.freezeAuthority.None?, MintAuthorityLive);
    :- Require(!w.funded.Has(r), PoolsNotFunded);
    var tokens :- Transfer(w.tokens[VaultToken(r) := TokenAccount(VaultAuthority(r), 0)], source, VaultToken(r),
        amount);
    Ok(w.(tokens := tokens, funded := w.funded.With(r),
          vaults := w.vaults[r := Vault(depositor, w.terms.Owner(r), r, amount, 0, 0, 0)]))
  }

  function ArmStep(w: World, now: time, creator: Signer): Result<World> {
    if w.gov.controller != creator then Err(Unauthorized) else
    var w :- Tick(w, now);
    :- Require(w.phase == Prepared, InvalidState);
    :- Require(now < w.terms.config.t0, T0Boundary);
    :- Require(w.funded == Mask(true, true), PoolsNotFunded);
    Ok(w.(phase := Armed))
  }

  function ActivateStep(w: World, now: time): Result<World> {
    var w :- Tick(w, now);
    :- Require(w.phase == Armed, InvalidState);
    :- Require(now >= w.terms.config.t0, T0Boundary);
    Ok(w.(phase := Active))
  }

  function CancelStep(w: World, now: time, creator: Signer, founder: Signer, treasury: Signer): Result<World> {
    if w.gov.controller != creator then Err(Unauthorized) else
    :- Require(w.registry.founder.state.current == founder
        && w.registry.treasury.state.current == treasury, Unauthorized);
    var w :- Tick(w, now);
    :- Require(w.phase == Prepared || w.phase == Armed, InvalidState);
    :- Require(now < w.terms.config.t0, T0Boundary);
    Ok(w.(phase := Cancelled))
  }

  function ExpireUnarmedStep(w: World, now: time): Result<World> {
    var w :- Tick(w, now);
    :- Require(w.phase == Prepared, InvalidState);
    :- Require(now >= w.terms.config.t0, T0Boundary);
    Ok(w.(phase := Cancelled))
  }

  function RefundStep(w: World, now: time, depositor: Signer, r: Role, destination: Addr): Result<World> {
    if r !in w.vaults then Err(Constraint) else
    :- Require(w.vaults[r].depositor == depositor && VaultToken(r) in w.tokens, Constraint);
    :- Require(destination in w.tokens && w.tokens[destination].owner == depositor, Constraint);
    var w :- Tick(w, now);
    :- Require(w.phase == Cancelled, InvalidState);
    :- Require(w.vaults[r].releasedTotal == 0, InvalidState);
    var amount := w.tokens[VaultToken(r)].amount;
    :- Require(amount > 0, ZeroAmount);
    var tokens :- Transfer(w.tokens, VaultToken(r), destination, amount);
    Ok(w.(tokens := tokens))
  }

  function ReportStep(w: World, now: time, oracle: Signer, capacity: u64, observedAt: i64, sequence: u64,
          epoch: u64): Result<World>
  {
    if w.gov.oracle != oracle then Err(Constraint) else
    var w :- Tick(w, now);
    :- Require(w.phase == Active, InvalidState);
    var gov :- Control.ReportCapacity(w.terms.config, w.gov, capacity, observedAt, sequence, epoch, now);
    Ok(w.(gov := gov))
  }

  function ApproveStep(w: World, now: time, author: Signer, period: u64, need: u64, epoch: u64,
          recipient: Addr): Result<World>
  {
    if w.registry.treasury.state.current != author then Err(Error.WithdrawalAuthority) else
    :- Require(recipient in w.tokens && period !in w.registry.approvals && w.tokens[recipient].owner in w.registry.keys,
        Constraint);
    var w :- Tick(w, now);
    :- Require(w.phase != Cancelled, InvalidState);
    var registry :- Withdrawal.Approve(w.terms, w.registry, author, period, need, epoch, recipient,
        w.tokens[recipient].owner, now);
    Ok(w.(registry := registry))
  }

  /** The report that a release rests on: made for this period under the current oracle, and fresh. */
  function CheckReport(c: Config, g: Governance, period: u64, now: time): Check {
    var r := g.report;
    if !(r.valid && r.epoch == g.oracleEpoch && r.sequence > 0 && r.period == period && r.at <= now)
      then Fail(InvalidReport)
    else if now - r.at > I64_MAX then Fail(Overflow)
    else Require(now - r.at <= c.maxReportAge, InvalidReport)
  }

  /** The founder releases after the cliff, to an account of its own current key. */
  function CheckFounder(c: Config, current: Key, owner: Key, approval: Option<u64>, recipientRecord: Option<Key>,
          now: time): Result<()>
  {
    var cliff :- CheckedAddTime(c.t0, CLIFF);
    :- Require(now >= cliff, CliffActive);
    :- Require(owner == current, Unauthorized);
    :- Require(approval.None? && recipientRecord.None?, InvalidApproval);
    Ok(())
  }

  /** The treasury releases within the period's approval, to its recipient, who must still be eligible. */
  function SpendApproval(t: Terms, reg: Registry, period: u64, destination: Addr, owner: Key, amount: u64,
          approval: Option<u64>, recipientRecord: Option<Key>, now: time): Result<Registry>
    requires approval.Some? ==> approval.value in reg.approvals
    requires recipientRecord.Some? ==> recipientRecord.value in reg.keys
  {
    if recipientRecord.None? then Err(InvalidApproval) else
    var k := reg.keys[recipientRecord.value];
    :- Require(recipientRecord.value == owner && k.recipient, InvalidApproval);
    :- Require(Withdrawal.EligibleRecipient(t, owner, k), KnownSelfPayment);
    :- Require(approval.Some?, InvalidApproval);
    var a := reg.approvals[approval.value];
    :- Require(approval.value == period && a.period == period && a.recipient == destination
        && a.recipientOwner == owner,
        InvalidApproval);
    var notice :- CheckedAddTime(a.createdAt, PERIOD);
    :- Require(now >= notice, InvalidApproval);
    var consumed :- CheckedAdd(a.consumed, amount, Overflow);
    :- Require(consumed <= a.need, InvalidApproval);
    Ok(reg.(approvals := reg.approvals[period := a.(consumed := consumed)]))
  }

  /** Everything a release checks before it touches the capacity kernel. */
  function AuthorizeRelease(w: World, now: time, authority: Signer, r: Role, amount: u64, epoch: u64, destination: Addr,
          approval: Option<u64>, recipientRecord: Option<Key>): Result<Registry>
    requires r in w.vaults && destination in w.tokens
    requires approval.Some? ==> approval.value in w.registry.approvals
    requires recipientRecord.Some? ==> recipientRecord.value in w.registry.keys
  {
    var c, v, owner := w.terms.config, w.vaults[r], w.tokens[destination].owner;
    :- Require(w.phase == Active, InvalidState);
    :- Withdrawal.Authenticate(w.registry, r, authority, epoch);
    :- Require(now > c.t0, T0Boundary);
    :- Require(amount > 0, ZeroAmount);
    var period :- PeriodAt(c.t0, now);
    :- Require(period >= w.books.period && period >= v.period, ClockRollback);
    :- CheckReport(c, w.gov, period, now);
    :- Require(v.authority == w.terms.Owner(r), Unauthorized);
    if r.Founder? then
      var _ :- CheckFounder(c, w.registry.founder.state.current, owner, approval, recipientRecord, now);
      Ok(w.registry)
    else
      SpendApproval(w.terms, w.registry, period, destination, owner, amount, approval, recipientRecord, now)
  }

  function ReleaseStep(w: World, now: time, authority: Signer, r: Role, amount: u64, epoch: u64, destination: Addr,
          approval: Option<u64>, recipientRecord: Option<Key>): Result<World>
  {
    if r !in w.vaults then Err(Constraint) else
    :- Require(VaultToken(r) in w.tokens && destination in w.tokens, Constraint);
    :- Require(approval.Some? ==> approval.value in w.registry.approvals, Constraint);
    :- Require(recipientRecord.Some? ==> recipientRecord.value in w.registry.keys, Constraint);
    var w :- Tick(w, now);
    var registry :- AuthorizeRelease(w, now, authority, r, amount, epoch, destination, approval, recipientRecord);
    var (books, vault) :- Consume(w.terms.config, w.books, w.vaults[r], w.gov.report.capacity, now, amount);
    var tokens :- Transfer(w.tokens, VaultToken(r), destination, amount);
    Ok(w.(registry := registry, books := books, vaults := w.vaults[r := vault], tokens := tokens))
  }

  function PrepareKeyStep(w: World, subject: Key): Result<World> {
    if subject in w.registry.keys then Err(Constraint) else
    :- Require(subject != Default, InvalidConfig);
    :- Require(w.phase != Cancelled, InvalidState);
    var registry :- Withdrawal.PrepareKey(w.registry, subject);
    Ok(w.(registry := registry))
  }

  function ProposeWithdrawalStep(w: World, now: time, i: Withdrawal.Intent): Result<World> {
    if i.successor !in w.registry.keys then Err(Constraint) else
    :- Require(RoleOf(i.role).Some? ==> i.nonce !in w.registry.Lane(RoleOf(i.role).value).proposals, Constraint);
    var w :- Tick(w, now);
    :- Require(w.phase != Cancelled, InvalidState);
    var registry :- Withdrawal.Propose(w.terms, w.registry, i, now);
    Ok(w.(registry := registry))
  }

  function ExecuteWithdrawalStep(w: World, now: time, r: Role, nonce: u64): Result<World> {
    if !Withdrawal.Bound(w.registry, r, nonce) then Err(Constraint) else
    var w :- Tick(w, now);
    :- Require(w.phase != Cancelled, InvalidState);
    var registry :- Withdrawal.Execute(w.terms, w.registry, r, nonce, now);
    Ok(w.(registry := registry))
  }

  function CancelWithdrawalStep(w: World, now: time, a: Signer, b: Signer, r: Role, nonce: u64): Result<World> {
    if !Withdrawal.Bound(w.registry, r, nonce) then Err(Constraint) else
    var w :- Tick(w, now);
    var registry :- Withdrawal.Cancel(w.terms, w.registry, r, nonce, a, b, now);
    Ok(w.(registry := registry))
  }

  function ExpireWithdrawalStep(w: World, now: time, r: Role, nonce: u64): Result<World> {
    if !Withdrawal.Bound(w.registry, r, nonce) then Err(Constraint) else
    var w :- Tick(w, now);
    var registry :- Withdrawal.Expire(w.registry, r, nonce, now);
    Ok(w.(registry := registry))
  }

  function ProposeChangeStep(w: World, now: time, a: Signer, b: Signer, successor: Signer, kind: u8, recovery: bool,
          nonce: u64): Result<World>
  {
    if nonce in w.gov.changes then Err(Constraint) else
    var w :- Tick(w, now);
    :- Require(w.phase != Cancelled, InvalidState);
    var gov :- Control.Propose(w.terms.config.recoveryKeys, w.gov, a, b, successor, kind, recovery, nonce, now);
    Ok(w.(gov := gov))
  }

  function CancelChangeStep(w: World, now: time, a: Signer, b: Signer, nonce: u64): Result<World> {
    if nonce !in w.gov.changes then Err(Constraint) else
    var w :- Tick(w, now);
    :- Require(w.phase != Cancelled, InvalidState);
    var gov :- Control.Cancel(w.terms.config.recoveryKeys, w.gov, nonce, a, b);
    Ok(w.(gov := gov))
  }

  function ExecuteChangeStep(w: World, now: time, nonce: u64): Result<World> {
    if nonce !in w.gov.changes then Err(Constraint) else
    var w :- Tick(w, now);
    :- Require(w.phase != Cancelled, InvalidState);
    var gov :- Control.Execute(w.gov, nonce, now);
    Ok(w.(gov := gov))
  }

  function Step(w: World, now: time, i: Instruction): Result<World> {
    match i
    case Deposit(creator, depositor, authority, roleNumber, amount, source) =>
      DepositStep(w, now, creator, depositor, authority, roleNumber, amount, source)
    case Arm(creator) => ArmStep(w, now, creator)
    case Activate => ActivateStep(w, now)
    case CancelPolicy(creator, founder, treasury) => CancelStep(w, now, creator, founder, treasury)
    case ExpireUnarmed => ExpireUnarmedStep(w, now)
    case Refund(depositor, role, destination) => RefundStep(w, now, depositor, role, destination)
    case ReportCapacity(oracle, capacity, observedAt, sequence, epoch) =>
      ReportStep(w, now, oracle, capacity, observedAt, sequence, epoch)
    case ApproveTreasury(author, period, need, epoch, recipient) =>
      ApproveStep(w, now, author, period, need, epoch, recipient)
    case Release(authority, role, amount, epoch, destination, approval, recipientRecord) =>
      ReleaseStep(w, now, authority, role, amount, epoch, destination, approval, recipientRecord)
    case PrepareWithdrawalKey(subject) => PrepareKeyStep(w, subject)
    case ProposeWithdrawal(intent) => ProposeWithdrawalStep(w, now, intent)
    case ExecuteWithdrawal(role, nonce) => ExecuteWithdrawalStep(w, now, role, nonce)
    case CancelWithdrawal(a, b, role, nonce) => CancelWithdrawalStep(w, now, a, b, role, nonce)
    case ExpireWithdrawal(role, nonce) => ExpireWithdrawalStep(w, now, role, nonce)
    case ProposeChange(a, b, successor, kind, recovery, nonce) =>
      ProposeChangeStep(w, now, a, b, successor, kind, recovery, nonce)
    case CancelChange(a, b, nonce) => CancelChangeStep(w, now, a, b, nonce)
    case ExecuteChange(nonce) => ExecuteChangeStep(w, now, nonce)
  }

  /** Outside the program, tokens move only out of wallets, and only wallets change owner. */
  function Apply(w: World, e: Event): Result<World> {
    match e
    case Invoke(now, instruction) => Step(w, now, instruction)
    case OpenTokenAccount(wallet, owner) =>
      :- Require(Wallet(wallet) !in w.tokens, Constraint);
      Ok(w.(tokens := w.tokens[Wallet(wallet) := TokenAccount(owner, 0)]))
    case MoveTokens(wallet, to, amount) =>
      var tokens :- Transfer(w.tokens, Wallet(wallet), to, amount);
      Ok(w.(tokens := tokens))
    case ReassignTokenAccount(wallet, owner) =>
      :- Require(Wallet(wallet) in w.tokens, Constraint);
      Ok(w.(tokens := w.tokens[Wallet(wallet) := w.tokens[Wallet(wallet)].(owner := owner)]))
  }

  /** A refused event changes nothing. */
  function Next(w: World, e: Event): World {
    match Apply(w, e) case Ok(w') => w' case Err(_) => w
  }

  /** The world after a run of events, refused ones included. */
  function Run(w: World, events: seq<Event>): World
    decreases |events|
  {
    if events == [] then w else Next(Run(w, events[..|events| - 1]), events[|events| - 1])
  }
}
