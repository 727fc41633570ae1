/** The launch vault's invariant, and that admission establishes it and every event keeps it. */
module Invariant {
  import opened Basics
  import opened State
  import opened Capacity
  import opened Tokens
  import opened Launch
  import Tombstones
  import RegistryProofs
  import Control

  /** What admission checked of the immutable terms. */
  predicate TermsOk(t: Terms) {
    && ConfigOk(t.config)
    && t.config.amount.founder + t.config.amount.treasury <= t.mint.supply
    && 0 < t.config.periodCap.founder && 0 < t.config.periodCap.treasury && 0 < t.config.sharedHardCap
    && t.config.rules.first.sourceHash != 0 && t.config.rules.second.sourceHash != 0
    && t.specHash != 0 && t.oracle != Default
    && ValidCommittee(t.config.recoveryKeys)
    && ValidCommittee(t.config.founderGuardians) && !t.config.founderGuardians.Has(t.founder)
    && ValidCommittee(t.config.treasuryGuardians) && !t.config.treasuryGuardians.Has(t.treasury)
    && t.mint.mintAuthority.None? && t.mint.freezeAuthority.None?
  }

  predicate VaultOk(t: Terms, b: Books, v: Vault, r: Role) {
    v.role == r && v.authority == t.Owner(r) && VaultAgrees(t.config, b, v)
  }

  /** One pool's vault: it exists once funded, with its own token account, and agrees with the books. */
  predicate VaultInv(w: World, r: Role) {
    && (w.funded.Has(r) <==> r in w.vaults)
    && (VaultToken(r) in w.tokens <==> r in w.vaults)
    && (r in w.vaults ==>
          VaultOk(w.terms, w.books, w.vaults[r], r) && w.tokens[VaultToken(r)].owner == VaultAuthority(r))
  }

  /** Nothing is released before activation; activation needs both pools, funded, and the official start. */
  predicate PhaseInv(w: World) {
    && (w.phase == Armed || w.phase == Active ==> Founder in w.vaults && Treasury in w.vaults)
    && (w.phase != Active ==> w.books == EMPTY_BOOKS)
    && (w.phase == Active ==> w.terms.config.t0 <= w.terms.config.t0 + w.books.period * PERIOD <= w.lastActionAt)
  }

  /** A vault's balance covers the principal that has not been released. */
  predicate Covered(w: World, r: Role) {
    r in w.vaults ==>
      (VaultToken(r) in w.tokens && w.tokens[VaultToken(r)].amount + w.vaults[r].releasedTotal >= w.vaults[r].principal)
  }

  /** Until cancellation every vault is covered. */
  predicate CustodyInv(w: World) {
    w.phase != Cancelled ==> Covered(w, Founder) && Covered(w, Treasury)
  }

  function ConsumedOf(a: Approval): nat { a.consumed }

  predicate ApprovalSpent(w: World, a: Approval) {
    && (a.consumed > 0 ==> a.createdAt + PERIOD <= w.lastActionAt && a.period <= w.books.period)
    && (a.period == w.books.period ==> a.consumed == w.books.periodUsed.treasury)
  }

  /** The treasury's releases are exactly what its approvals were spent on. */
  ghost predicate SpendingInv(w: World) {
    && Sum(w.registry.approvals, ConsumedOf) == w.books.released.treasury
    && (forall p :: p in w.registry.approvals ==>
          w.registry.approvals[p].period == p && ApprovalSpent(w, w.registry.approvals[p]))
  }

  /** The money side of the invariant. */
  ghost predicate LedgerInv(w: World) {
    && BooksInv(w.terms.config, w.books)
    && VaultInv(w, Founder) && VaultInv(w, Treasury)
    && PhaseInv(w) && CustodyInv(w) && SpendingInv(w)
    && Supply(w.tokens) <= U64_MAX
  }

  /** The authority side of the invariant. */
  ghost predicate AuthorityInv(w: World) {
    && Tombstones.RegistryInv(w.terms, w.registry, w.lastActionAt)
    && Control.ControlInv(w.terms, w.gov, w.lastActionAt)
  }

  ghost predicate Inv(w: World) { TermsOk(w.terms) && AuthorityInv(w) && LedgerInv(w) }

  /* ---- Admission ---- */

  /**
   A preparation is admitted exactly when its terms satisfy these facts, ahead of its start and under its own identity.
   */
  lemma ValidatedTermsOk(p: Preparation, now: time)
    ensures Validate(p, now).Ok? <==> TermsOk(p.terms) && now < p.terms.config.t0 && p.identity == IdentityOf(p.terms)
  {
    if now < p.terms.config.t0 {
      ValidRule(p.terms.config, p.terms.config.rules.first);
      ValidRule(p.terms.config, p.terms.config.rules.second);
    }
    hide ValidateRule, RuleOk;
  }

  /** A confirmed policy starts in the invariant. */
  lemma OpenEstablishes(p: Preparation, consent: Consent, tokens: map<Addr, TokenAccount>, now: time)
    requires Open(p, consent, tokens, now).Ok?
    requires Supply(tokens) == p.terms.mint.supply && forall r: Role :: VaultToken(r) !in tokens
    ensures Inv(Open(p, consent, tokens, now).value)
  {
    ValidatedTermsOk(p, now);
    EmptyBooksOk(p.terms.config);
    RegistryProofs.FreshOk(p.terms, now);
    Control.FreshOk(p.terms, now);
  }

  /* ---- Frames ---- */

  lemma TickLedger(w: World, now: time)
    requires LedgerInv(w) && w.lastActionAt <= now
    ensures LedgerInv(w.(lastActionAt := now))
  {
    var w' := w.(lastActionAt := now);
    assert VaultInv(w', Founder) && VaultInv(w', Treasury);
    forall p | p in w.registry.approvals ensures ApprovalSpent(w', w.registry.approvals[p]) {
      assert ApprovalSpent(w, w.registry.approvals[p]);
    }
  }

  /** Time passing keeps everything; a step then changes only its own part. */
  lemma TickKeeps(w: World, now: time)
    requires Inv(w) && Tick(w, now).Ok?
    ensures Inv(Tick(w, now).value)
  {
    RegistryProofs.RegistryLater(w.terms, w.registry, w.lastActionAt, now);
    Control.ControlLater(w.terms, w.gov, w.lastActionAt, now);
    TickLedger(w, now);
  }

  /** A new registry whose approvals are spent as before. */
  lemma RegistryStep(w: World, registry: Registry)
    requires Inv(w) && Tombstones.RegistryInv(w.terms, registry, w.lastActionAt)
    requires registry.approvals == w.registry.approvals
    ensures Inv(w.(registry := registry))
  {
    hide Tombstones.RegistryInv, Control.ControlInv, BooksInv, VaultAgrees, TermsOk;
  }

  lemma GovStep(w: World, gov: Governance)
    requires Inv(w) && Control.ControlInv(w.terms, gov, w.lastActionAt)
    ensures Inv(w.(gov := gov))
  {
    hide Tombstones.RegistryInv, Control.ControlInv, BooksInv, VaultAgrees, TermsOk;
  }

  /** Tokens that moved outside the vaults, or into them. */
  lemma TokensStep(w: World, tokens: map<Addr, TokenAccount>)
    requires Inv(w) && Supply(tokens) <= U64_MAX
    requires forall r: Role :: VaultToken(r) in tokens <==> VaultToken(r) in w.tokens
    requires forall r: Role :: VaultToken(r) in w.tokens ==>
      tokens[VaultToken(r)].owner == w.tokens[VaultToken(r)].owner
      && (w.phase != Cancelled ==> tokens[VaultToken(r)].amount >= w.tokens[VaultToken(r)].amount)
    ensures Inv(w.(tokens := tokens))
  {
    hide Tombstones.RegistryInv, Control.ControlInv, BooksInv, VaultAgrees, TermsOk;
  }

  /** Lifecycle steps without a release leave the counters at zero. */
  lemma PhaseStep(w: World, phase: Phase)
    requires Inv(w) && w.phase != Active && w.phase != Cancelled
    requires phase == Armed || phase == Active ==> Founder in w.vaults && Treasury in w.vaults
    requires phase == Active ==> w.terms.config.t0 <= w.lastActionAt
    ensures Inv(w.(phase := phase))
  {
    hide Tombstones.RegistryInv, Control.ControlInv, BooksInv, VaultOk, TermsOk, Supply;
  }

  /* ---- Instructions ---- */

  lemma SupplyFits(w: World)
    requires Inv(w)
    ensures Supply(w.tokens) <= U64_MAX
  {
    hide BooksInv, VaultInv, AuthorityInv, SpendingInv, Supply;
  }

  lemma DepositKeeps(w: World, now: time, creator: Signer, depositor: Signer, authority: Signer, roleNumber: u8,
          amount: u64, source: Addr)
    requires Inv(w) && DepositStep(w, now, creator, depositor, authority, roleNumber, amount, source).Ok?
    ensures Inv(DepositStep(w, now, creator, depositor, authority, roleNumber, amount, source).value)
    ensures Supply(DepositStep(w, now, creator, depositor, authority, roleNumber, amount, source).value.tokens)
      == Supply(w.tokens)
  {
    hide Inv, Supply, Withdrawal.Authenticate;
    SupplyFits(w);
    TickKeeps(w, now);
    var r := RoleOf(roleNumber).value;
    var accounts := w.tokens[VaultToken(r) := TokenAccount(VaultAuthority(r), 0)];
    SumInsert(w.tokens, AmountOf, VaultToken(r), TokenAccount(VaultAuthority(r), 0));
    SupplyIs(w.tokens);
    SupplyIs(accounts);
    TransferConserves(accounts, source, VaultToken(r), amount);
    DepositFunds(Tick(w, now).value, r, depositor, source);
  }

  lemma DepositFunds(w: World, r: Role, depositor: Signer, source: Addr)
    requires Inv(w) && w.phase == Prepared && r !in w.vaults && VaultToken(r) !in w.tokens
    requires source in w.tokens && w.tokens[source].owner == depositor
    requires var accounts := w.tokens[VaultToken(r) := TokenAccount(VaultAuthority(r), 0)];
      Transfer(accounts, source, VaultToken(r), w.terms.config.amount.Get(r)).Ok?
      && Supply(Transfer(accounts, source, VaultToken(r), w.terms.config.amount.Get(r)).value) <= U64_MAX
    ensures var accounts := w.tokens[VaultToken(r) := TokenAccount(VaultAuthority(r), 0)];
      var amount := w.terms.config.amount.Get(r);
      Inv(w.(tokens := Transfer(accounts, source, VaultToken(r), amount).value, funded := w.funded.With(r),
             vaults := w.vaults[r := Vault(depositor, w.terms.Owner(r), r, amount, 0, 0, 0)]))
  {
    hide Tombstones.RegistryInv, Control.ControlInv, BooksInv, TermsOk;
    assert source != VaultToken(r) && source != VaultToken(r.Other()) by {
      assert VaultInv(w, r) && VaultInv(w, r.Other());
    }
  }

  lemma RefundKeeps(w: World, now: time, depositor: Signer, r: Role, destination: Addr)
    requires Inv(w) && RefundStep(w, now, depositor, r, destination).Ok?
    ensures Inv(RefundStep(w, now, depositor, r, destination).value)
    ensures Supply(RefundStep(w, now, depositor, r, destination).value.tokens) == Supply(w.tokens)
    ensures destination.Wallet? && Balance(RefundStep(w, now, depositor, r, destination).value.tokens, destination)
      == Balance(w.tokens, destination) + Balance(w.tokens, VaultToken(r))
  {
    hide Tombstones.RegistryInv, Control.ControlInv, BooksInv, VaultAgrees, TermsOk;
    TickKeeps(w, now);
    TransferConserves(w.tokens, VaultToken(r), destination, w.tokens[VaultToken(r)].amount);
    assert VaultInv(w, Founder) && VaultInv(w, Treasury);
    TokensStep(Tick(w, now).value,
        Transfer(w.tokens, VaultToken(r), destination, w.tokens[VaultToken(r)].amount).value);
  }

  /* ---- Release ---- */

  /** What a release that passed every check may rely on. */
  lemma ReleaseAuthorized(w: World, now: time, authority: Signer, r: Role, amount: u64, epoch: u64, destination: Addr,
          approval: Option<u64>, recipientRecord: Option<Key>)
    requires 0 <= w.terms.config.t0 && r in w.vaults && destination in w.tokens
    requires approval.Some? ==> approval.value in w.registry.approvals
    requires recipientRecord.Some? ==> recipientRecord.value in w.registry.keys
    requires AuthorizeRelease(w, now, authority, r, amount, epoch, destination, approval, recipientRecord).Ok?
    ensures var registry :=
      AuthorizeRelease(w, now, authority, r, amount, epoch, destination, approval, recipientRecord).value;
      var c, period := w.terms.config, PeriodAt(w.terms.config.t0, now).value;
      && w.phase == Active && amount > 0 && c.t0 < now && PeriodAt(c.t0, now).Ok? && w.books.period <= period
      && w.registry.Lane(r).state.pending == 0
      && w.registry.Lane(r).state.current == authority && w.registry.Lane(r).state.epoch == epoch
      && CheckReport(c, w.gov, period, now).Pass?
      && (r.Founder? ==>
            c.t0 + CLIFF <= now && registry == w.registry && approval.None? && recipientRecord.None?
              && w.tokens[destination].owner == w.registry.founder.state.current)
      && (r.Treasury? ==>
            approval == Some(period) && recipientRecord == Some(w.tokens[destination].owner)
              && Spends(w.registry, registry, period, amount, destination, w.tokens[destination].owner, now))
  {
  }

  /** What a committed release passed. */
  lemma ReleasePassed(w: World, now: time, authority: Signer, r: Role, amount: u64, epoch: u64, destination: Addr,
          approval: Option<u64>, recipientRecord: Option<Key>)
    requires ReleaseStep(w, now, authority, r, amount, epoch, destination, approval, recipientRecord).Ok?
    ensures r in w.vaults && destination in w.tokens && w.lastActionAt <= now
    ensures approval.Some? ==> approval.value in w.registry.approvals
    ensures recipientRecord.Some? ==> recipientRecord.value in w.registry.keys
    ensures AuthorizeRelease(w.(lastActionAt := now), now, authority, r, amount, epoch, destination, approval,
        recipientRecord).Ok?
    ensures Consume(w.terms.config, w.books, w.vaults[r], w.gov.report.capacity, now, amount).Ok?
  {
    hide AuthorizeRelease, Consume, Transfer;
  }

  lemma CliffFits(t: Terms)
    requires TermsOk(t)
    ensures 0 <= t.config.t0 && t.config.t0 + CLIFF <= I64_MAX
  {
  }

  lemma TermsHold(w: World)
    requires Inv(w)
    ensures TermsOk(w.terms)
  {
    hide TermsOk, LedgerInv, AuthorityInv;
  }

  lemma ReportHolds(w: World)
    requires Inv(w)
    ensures 0 <= w.terms.config.t0 && Control.ReportOk(w.terms.config, w.gov, w.lastActionAt)
  {
    hide LedgerInv, Tombstones.RegistryInv, Control.Accepted, Control.ControlMatches, Control.ReportOk;
  }

  /** A treasury release of `amount` against the approval of `period`. */
  predicate Spends(reg: Registry, reg': Registry, period: u64, amount: u64, destination: Addr, owner: Key, now: time) {
    && period in reg.approvals
    && var a := reg.approvals[period];
    && a.period == period && a.recipient == destination && a.recipientOwner == owner
    && a.createdAt + PERIOD <= now && a.consumed + amount <= a.need
    && reg' == reg.(approvals := reg.approvals[period := a.(consumed := a.consumed + amount)])
  }

  /** Paying out of a vault that covers the amount leaves the other balances at least as they were. */
  lemma PayOut(tokens: map<Addr, TokenAccount>, r: Role, destination: Addr, amount: u64)
    requires Supply(tokens) <= U64_MAX && Transfer(tokens, VaultToken(r), destination, amount).Ok?
    ensures var tokens' := Transfer(tokens, VaultToken(r), destination, amount).value;
      && Supply(tokens') == Supply(tokens)
      && (forall a :: a in tokens' <==> a in tokens)
      && (forall a :: a in tokens ==>
            (tokens'[a].owner == tokens[a].owner
             && tokens'[a].amount + (if a == VaultToken(r) then amount else 0) >= tokens[a].amount))
  {
    TransferConserves(tokens, VaultToken(r), destination, amount);
  }

  lemma ConsumeVaults(w: World, now: time, r: Role, amount: u64)
    requires TermsOk(w.terms) && LedgerInv(w) && w.phase == Active && w.lastActionAt == now
    requires w.books.period <= PeriodAt(w.terms.config.t0, now).value
    requires r.Founder? ==> w.terms.config.t0 + CLIFF <= now
    requires r in w.vaults && Consume(w.terms.config, w.books, w.vaults[r], w.gov.report.capacity, now, amount).Ok?
    ensures var (b, v) := Consume(w.terms.config, w.books, w.vaults[r], w.gov.report.capacity, now, amount).value;
      var o := r.Other();
      && o in w.vaults && BooksInv(w.terms.config, b)
      && VaultOk(w.terms, b, v, r) && VaultOk(w.terms, b, w.vaults[o], o)
      && PeriodAt(w.terms.config.t0, now) == Ok(b.period) && w.terms.config.t0 + b.period * PERIOD <= now
      && w.books.period <= b.period
      && Drawn(w.terms.config, w.books, w.vaults[r], w.gov.report.capacity, amount, b, v)
  {
    assert VaultInv(w, r) && VaultInv(w, r.Other());
    ConsumeKeepsBooks(w.terms.config, w.books, w.vaults[r], w.vaults[r.Other()], w.gov.report.capacity, now, amount);
    PeriodContains(w.terms.config.t0, now, PeriodAt(w.terms.config.t0, now).value);
  }

  /** The treasury's releases stay equal to its spent approvals. */
  lemma SpendingFollows(w: World, w': World, r: Role, amount: u64, now: time)
    requires SpendingInv(w) && w'.lastActionAt == w.lastActionAt == now
    requires w.books.period <= w'.books.period
    requires w'.books.released.treasury == w.books.released.treasury + (if r.Treasury? then amount else 0)
    requires w'.books.periodUsed.treasury
      == (if w'.books.period == w.books.period then w.books.periodUsed.treasury else 0)
        + (if r.Treasury? then amount else 0)
    requires if r.Founder? then w'.registry == w.registry
             else exists destination, owner ::
                    Spends(w.registry, w'.registry, w'.books.period, amount, destination, owner, now)
    ensures SpendingInv(w')
  {
    if r.Treasury? {
      var a := w.registry.approvals[w'.books.period];
      SumUpdate(w.registry.approvals, ConsumedOf, w'.books.period, a.(consumed := a.consumed + amount));
    }
    forall p | p in w'.registry.approvals
      ensures w'.registry.approvals[p].period == p && ApprovalSpent(w', w'.registry.approvals[p])
    {
      assert p in w.registry.approvals && ApprovalSpent(w, w.registry.approvals[p]);
    }
  }

  /** The world that a release leaves. */
  function Released(w: World, r: Role, registry: Registry, b: Books, v: Vault, tokens: map<Addr, TokenAccount>): World {
    w.(registry := registry, books := b, vaults := w.vaults[r := v], tokens := tokens)
  }

  /** A release pays from its own vault exactly what its counters record. */
  lemma ReleaseCustody(w: World, r: Role, amount: u64, destination: Addr, registry: Registry, b: Books, v: Vault)
    requires LedgerInv(w) && w.phase == Active && r in w.vaults
    requires Drawn(w.terms.config, w.books, w.vaults[r], w.gov.report.capacity, amount, b, v)
    requires Transfer(w.tokens, VaultToken(r), destination, amount).Ok?
    ensures CustodyInv(Released(w, r, registry, b, v, Transfer(w.tokens, VaultToken(r), destination, amount).value))
  {
    hide BooksInv, SpendingInv, Supply;
    PayOut(w.tokens, r, destination, amount) by {
      assert LedgerInv(w);
    }
    assert VaultInv(w, r) && VaultInv(w, r.Other());
    assert Covered(w, r) && Covered(w, r.Other());
  }

  /** Vaults stay as `VaultInv` says when the books, one vault and the balances change in agreement. */
  lemma ReleasedVaults(w: World, r: Role, registry: Registry, b: Books, v: Vault, tokens: map<Addr, TokenAccount>)
    requires VaultInv(w, r) && VaultInv(w, r.Other()) && r in w.vaults && r.Other() in w.vaults
    requires VaultOk(w.terms, b, v, r) && VaultOk(w.terms, b, w.vaults[r.Other()], r.Other())
    requires forall a :: a in tokens <==> a in w.tokens
    requires forall a :: a in w.tokens ==> tokens[a].owner == w.tokens[a].owner
    ensures VaultInv(Released(w, r, registry, b, v, tokens), r)
    ensures VaultInv(Released(w, r, registry, b, v, tokens), r.Other())
  {
    hide VaultOk;
  }

  lemma ReleaseVaults(w: World, now: time, r: Role, amount: u64, destination: Addr, registry: Registry, b: Books,
          v: Vault)
    requires TermsOk(w.terms) && LedgerInv(w) && w.phase == Active && w.lastActionAt == now
    requires r in w.vaults && w.books.period <= PeriodAt(w.terms.config.t0, now).value
    requires r.Founder? ==> w.terms.config.t0 + CLIFF <= now
    requires Consume(w.terms.config, w.books, w.vaults[r], w.gov.report.capacity, now, amount) == Ok((b, v))
    requires Transfer(w.tokens, VaultToken(r), destination, amount).Ok?
    ensures var w' := Released(w, r, registry, b, v, Transfer(w.tokens, VaultToken(r), destination, amount).value);
      BooksInv(w.terms.config, b) && VaultInv(w', r) && VaultInv(w', r.Other()) && PhaseInv(w')
  {
    hide BooksInv, VaultOk, VaultInv, TermsOk, Supply, Consume, SpendingInv, CustodyInv, Transfer, Drawn;
    ConsumeVaults(w, now, r, amount);
    PayOut(w.tokens, r, destination, amount);
    assert BothRoles(r);
    ReleasedVaults(w, r, registry, b, v, Transfer(w.tokens, VaultToken(r), destination, amount).value);
  }

  lemma ReleaseSpends(w: World, now: time, r: Role, amount: u64, destination: Addr, registry: Registry, b: Books,
          v: Vault, tokens: map<Addr, TokenAccount>)
    requires TermsOk(w.terms) && LedgerInv(w) && w.phase == Active && w.lastActionAt == now
    requires r in w.vaults && destination in w.tokens && w.books.period <= PeriodAt(w.terms.config.t0, now).value
    requires r.Founder? ==> w.terms.config.t0 + CLIFF <= now && registry == w.registry
    requires r.Treasury? ==> Spends(w.registry, registry, PeriodAt(w.terms.config.t0, now).value, amount, destination,
        w.tokens[destination].owner, now)
    requires Consume(w.terms.config, w.books, w.vaults[r], w.gov.report.capacity, now, amount) == Ok((b, v))
    ensures SpendingInv(Released(w, r, registry, b, v, tokens))
    ensures Drawn(w.terms.config, w.books, w.vaults[r], w.gov.report.capacity, amount, b, v)
  {
    ConsumeVaults(w, now, r, amount);
    hide BooksInv, VaultOk, TermsOk, Supply, Consume, SpendingInv;
    assert VaultInv(w, r) && VaultInv(w, r.Other());
    SpendingFollows(w, Released(w, r, registry, b, v, tokens), r, amount, now);
  }

  lemma ReleaseLedger(w: World, now: time, r: Role, amount: u64, destination: Addr, registry: Registry, b: Books,
          v: Vault)
    requires TermsOk(w.terms) && LedgerInv(w) && w.phase == Active && w.lastActionAt == now
    requires r in w.vaults && destination in w.tokens && w.books.period <= PeriodAt(w.terms.config.t0, now).value
    requires r.Founder? ==> w.terms.config.t0 + CLIFF <= now && registry == w.registry
    requires r.Treasury? ==> Spends(w.registry, registry, PeriodAt(w.terms.config.t0, now).value, amount, destination,
        w.tokens[destination].owner, now)
    requires Consume(w.terms.config, w.books, w.vaults[r], w.gov.report.capacity, now, amount) == Ok((b, v))
    requires Transfer(w.tokens, VaultToken(r), destination, amount).Ok?
    ensures LedgerInv(Released(w, r, registry, b, v, Transfer(w.tokens, VaultToken(r), destination, amount).value))
  {
    hide BooksInv, VaultInv, PhaseInv, CustodyInv, SpendingInv, TermsOk, Supply, Consume, Transfer, Drawn, Spends;
    var tokens := Transfer(w.tokens, VaultToken(r), destination, amount).value;
    PayOut(w.tokens, r, destination, amount);
    ReleaseVaults(w, now, r, amount, destination, registry, b, v);
    ReleaseSpends(w, now, r, amount, destination, registry, b, v, tokens);
    ReleaseCustody(w, r, amount, destination, registry, b, v);
    assert BothRoles(r);
  }

  /** A role and its other are both roles. */
  predicate BothRoles(r: Role) { (r == Founder && r.Other() == Treasury) || (r == Treasury && r.Other() == Founder) }

  /** The vault always covers what the kernel lets through: the transfer of a release cannot fail. */
  lemma ReleasePays(w: World, now: time, r: Role, amount: u64, destination: Addr)
    requires TermsOk(w.terms) && LedgerInv(w) && w.phase == Active && w.lastActionAt == now
    requires r in w.vaults && destination in w.tokens && w.books.period <= PeriodAt(w.terms.config.t0, now).value
    requires r.Founder? ==> w.terms.config.t0 + CLIFF <= now
    requires Consume(w.terms.config, w.books, w.vaults[r], w.gov.report.capacity, now, amount).Ok?
    ensures Transfer(w.tokens, VaultToken(r), destination, amount).Ok?
  {
    ConsumeVaults(w, now, r, amount);
    assert VaultInv(w, r);
    TransferConserves(w.tokens, VaultToken(r), destination, amount);
  }

  lemma ReleaseKeeps(w: World, now: time, authority: Signer, r: Role, amount: u64, epoch: u64, destination: Addr,
          approval: Option<u64>, recipientRecord: Option<Key>)
    requires Inv(w) && ReleaseStep(w, now, authority, r, amount, epoch, destination, approval, recipientRecord).Ok?
    ensures Inv(ReleaseStep(w, now, authority, r, amount, epoch, destination, approval, recipientRecord).value)
  {
    hide BooksInv, VaultOk, TermsOk, Tombstones.RegistryInv, Control.ControlInv, LedgerInv, Consume, AuthorizeRelease,
      Transfer, CheckReport;
    TickKeeps(w, now);
    var ticked := Tick(w, now).value;
    var registry := AuthorizeRelease(ticked, now, authority, r, amount, epoch, destination, approval,
        recipientRecord).value;
    CliffFits(w.terms);
    ReleaseAuthorized(ticked, now, authority, r, amount, epoch, destination, approval, recipientRecord);
    var (books, vault) := Consume(w.terms.config, w.books, w.vaults[r], w.gov.report.capacity, now, amount).value;
    ReleaseLedger(ticked, now, r, amount, destination, registry, books, vault);
    if r.Treasury? {
      var period := PeriodAt(w.terms.config.t0, now).value;
      RegistryProofs.SpendKeeps(w.terms, w.registry, period, w.registry.approvals[period].consumed + amount, now, now);
    }
  }
}
