/**
 Exactly when each instruction commits, in every state of every run: who must have signed it, when, and what it must
 name. Checks that no run can fail are absent.
 */
module Commits {
  import opened Basics
  import opened State
  import opened Tokens
  import opened Launch
  import opened Invariant
  import Withdrawal
  import Tombstones
  import RegistryProofs
  import Control
  import Capacity
  import Histories

  const DAY: int := 86_400

  /* ---- Admission ---- */

  /** Three different keys, none of them the default, that guard someone else. */
  predicate Guards(k: Committee, guarded: set<Key>) {
    |k.Members()| == 3 && Default !in k.Members() && k.Members() !! guarded
  }

  /** An annual rule: five percent of a basis within the principals, and a source for it. */
  predicate SoundRule(c: Config, rule: Rule) {
    var f, t := rule.basis.founder * rule.releaseBps / 10_000, rule.basis.treasury * rule.releaseBps / 10_000;
    && rule.startPeriod < rule.endPeriod && c.t0 + rule.endPeriod * 30 * DAY <= I64_MAX
    && rule.basis.founder <= c.amount.founder && rule.basis.treasury <= c.amount.treasury
    && rule.releaseBps <= 500 && rule.sharedCap <= f + t && rule.sourceHash != 0
  }

  predicate SoundTerms(t: Terms) {
    var c := t.config;
    && c.t0 + 180 * DAY <= I64_MAX && c.amount.founder + c.amount.treasury <= t.mint.supply
    && 0 < c.periodCap.founder <= c.amount.founder && 0 < c.periodCap.treasury <= c.amount.treasury
    && 0 < c.sharedHardCap && 1 <= c.maxReportAge <= 7 * DAY
    && c.rules.first.startPeriod == 0 && c.rules.second.startPeriod == c.rules.first.endPeriod
    && SoundRule(c, c.rules.first) && SoundRule(c, c.rules.second)
    && Guards(c.recoveryKeys, {}) && Guards(c.founderGuardians, {t.founder})
    && Guards(c.treasuryGuardians, {t.treasury})
    && t.specHash != 0 && t.oracle != Default && t.mint.mintAuthority.None? && t.mint.freezeAuthority.None?
  }

  lemma SoundTermsExactly(t: Terms)
    requires 0 <= t.config.t0
    ensures SoundTerms(t) <==> TermsOk(t)
  {
    Histories.CommitteeExactly(t.config.recoveryKeys);
    Histories.CommitteeExactly(t.config.founderGuardians);
    Histories.CommitteeExactly(t.config.treasuryGuardians);
    hide ValidCommittee;
  }

  /**
   A policy opens exactly when its terms are sound, its start is ahead, it stands under its own identity,
   and the creator,
   both roles and the three recovery keys sign, over the oracle it names.
   */
  lemma OpenExactly(p: Preparation, consent: Consent, tokens: map<Addr, TokenAccount>, now: time)
    ensures var t := p.terms;
      Open(p, consent, tokens, now).Ok? <==>
        (SoundTerms(t) && now < t.config.t0 && p.identity == IdentityOf(t)
         && consent.creator == t.creator && consent.founder == t.founder && consent.treasury == t.treasury
         && consent.oracle == t.oracle && consent.recovery.one == t.config.recoveryKeys.one
         && consent.recovery.two == t.config.recoveryKeys.two && consent.recovery.three == t.config.recoveryKeys.three)
  {
    hide Validate, TermsOk, SoundTerms;
    ValidatedTermsOk(p, now);
    if now < p.terms.config.t0 {
      SoundTermsExactly(p.terms);
    }
  }

  /* ---- Lifecycle ---- */

  lemma DepositExactly(w: World, now: time, creator: Signer, depositor: Signer, authority: Signer, n: u8, amount: u64,
          source: Addr)
    requires Inv(w)
    ensures DepositStep(w, now, creator, depositor, authority, n, amount, source).Ok? <==>
      (w.phase == Prepared && w.lastActionAt <= now < w.terms.config.t0 && creator == w.gov.controller
       && (n == 0 || n == 1)
       && var r := if n == 0 then Founder else Treasury;
       r !in w.vaults && authority == w.registry.Lane(r).state.current && w.registry.Lane(r).state.pending == 0
       && amount == w.terms.config.amount.Get(r)
       && source in w.tokens && w.tokens[source].owner == depositor && amount <= w.tokens[source].amount)
    ensures DepositStep(w, now, creator, depositor, authority, n, amount, source).Ok? ==>
      var w', r := DepositStep(w, now, creator, depositor, authority, n, amount, source).value,
        if n == 0 then Founder else Treasury;
      && w'.vaults == w.vaults[r := Vault(depositor, w.terms.Owner(r), r, amount, 0, 0, 0)]
      && Balance(w'.tokens, VaultToken(r)) == amount
      && Balance(w'.tokens, source) == Balance(w.tokens, source) - amount
      && (forall a :: a != source && a != VaultToken(r) ==> Balance(w'.tokens, a) == Balance(w.tokens, a))
  {
    hide Inv, Transfer, Supply;
    SupplyFits(w);
    DepositState(w);
    if (n == 0 || n == 1) && source in w.tokens {
      var r := if n == 0 then Founder else Treasury;
      if r !in w.vaults {
        DepositPays(w, r, source, amount);
        if amount <= w.tokens[source].amount {
          TransferMoves(w.tokens[VaultToken(r) := TokenAccount(VaultAuthority(r), 0)], source, VaultToken(r), amount);
        }
      }
    }
  }

  lemma DepositPays(w: World, r: Role, source: Addr, amount: u64)
    requires VaultToken(r) !in w.tokens && source in w.tokens && Supply(w.tokens) <= U64_MAX
    ensures Transfer(w.tokens[VaultToken(r) := TokenAccount(VaultAuthority(r), 0)], source, VaultToken(r), amount).Ok?
      <==> amount <= w.tokens[source].amount
  {
    hide Supply, Transfer;
    SumInsert(w.tokens, AmountOf, VaultToken(r), TokenAccount(VaultAuthority(r), 0));
    SupplyIs(w.tokens);
    SupplyIs(w.tokens[VaultToken(r) := TokenAccount(VaultAuthority(r), 0)]);
    TransferConserves(w.tokens[VaultToken(r) := TokenAccount(VaultAuthority(r), 0)], source, VaultToken(r), amount);
  }

  lemma DepositState(w: World)
    requires Inv(w)
    ensures w.terms.mint.mintAuthority.None? && w.terms.mint.freezeAuthority.None?
    ensures forall r: Role :: (r in w.vaults <==> VaultToken(r) in w.tokens) && (r in w.vaults <==> w.funded.Has(r))
  {
    hide Tombstones.RegistryInv, Control.ControlInv, Capacity.BooksInv, VaultOk, SpendingInv, Supply, Capacity.ConfigOk,
      ValidCommittee;
    forall r: Role ensures (r in w.vaults <==> VaultToken(r) in w.tokens) && (r in w.vaults <==> w.funded.Has(r)) {
      if r.Founder? {} else {}
      assert VaultInv(w, r);
    }
  }

  lemma ArmExactly(w: World, now: time, creator: Signer)
    requires Inv(w)
    ensures ArmStep(w, now, creator).Ok? <==>
      (w.phase == Prepared && w.lastActionAt <= now < w.terms.config.t0 && creator == w.gov.controller
       && Founder in w.vaults && Treasury in w.vaults)
    ensures ArmStep(w, now, creator).Ok? ==>
      ArmStep(w, now, creator).value == w.(phase := Armed, lastActionAt := now)
  {
    hide Inv, TermsOk;
    DepositState(w);
    assert w.funded == Mask(w.funded.Has(Founder), w.funded.Has(Treasury));
  }

  lemma ActivateExactly(w: World, now: time)
    ensures ActivateStep(w, now).Ok? <==> w.phase == Armed && w.lastActionAt <= now && w.terms.config.t0 <= now
    ensures ActivateStep(w, now).Ok? ==> ActivateStep(w, now).value == w.(phase := Active, lastActionAt := now)
  {
  }

  lemma CancelPolicyExactly(w: World, now: time, creator: Signer, founder: Signer, treasury: Signer)
    ensures CancelStep(w, now, creator, founder, treasury).Ok? <==>
      ((w.phase == Prepared || w.phase == Armed) && w.lastActionAt <= now < w.terms.config.t0
       && creator == w.gov.controller && founder == w.registry.founder.state.current
       && treasury == w.registry.treasury.state.current)
    ensures CancelStep(w, now, creator, founder, treasury).Ok? ==>
      CancelStep(w, now, creator, founder, treasury).value == w.(phase := Cancelled, lastActionAt := now)
  {
  }

  lemma ExpireUnarmedExactly(w: World, now: time)
    ensures ExpireUnarmedStep(w, now).Ok? <==>
      w.phase == Prepared && w.lastActionAt <= now && w.terms.config.t0 <= now
    ensures ExpireUnarmedStep(w, now).Ok? ==>
      ExpireUnarmedStep(w, now).value == w.(phase := Cancelled, lastActionAt := now)
  {
  }

  /** A refund commits exactly for the depositor, to its own account, in a cancelled policy, while anything is left. */
  lemma RefundExactly(w: World, now: time, signer: Signer, r: Role, destination: Addr)
    requires Inv(w)
    ensures RefundStep(w, now, signer, r, destination).Ok? <==>
      (w.phase == Cancelled && w.lastActionAt <= now && r in w.vaults && signer == w.vaults[r].depositor
       && destination in w.tokens && w.tokens[destination].owner == signer && 0 < Balance(w.tokens, VaultToken(r)))
    ensures RefundStep(w, now, signer, r, destination).Ok? ==>
      var tokens := RefundStep(w, now, signer, r, destination).value.tokens;
      && Balance(tokens, VaultToken(r)) == 0
      && Balance(tokens, destination) == Balance(w.tokens, destination) + Balance(w.tokens, VaultToken(r))
      && (forall a :: a != destination && a != VaultToken(r) ==> Balance(tokens, a) == Balance(w.tokens, a))
  {
    hide Inv, Supply, Transfer;
    SupplyFits(w);
    DepositState(w);
    if r in w.vaults && w.phase == Cancelled {
      NothingReleased(w, r);
      TransferConserves(w.tokens, VaultToken(r), destination, w.tokens[VaultToken(r)].amount);
      if RefundStep(w, now, signer, r, destination).Ok? {
        RefundMoves(w, now, signer, r, destination);
      }
    }
  }

  lemma RefundMoves(w: World, now: time, signer: Signer, r: Role, destination: Addr)
    requires VaultToken(r) in w.tokens && w.tokens[VaultToken(r)].owner == VaultAuthority(r)
    requires RefundStep(w, now, signer, r, destination).Ok?
    ensures var tokens := RefundStep(w, now, signer, r, destination).value.tokens;
      && Balance(tokens, VaultToken(r)) == 0
      && Balance(tokens, destination) == Balance(w.tokens, destination) + Balance(w.tokens, VaultToken(r))
      && (forall a :: a != destination && a != VaultToken(r) ==> Balance(tokens, a) == Balance(w.tokens, a))
  {
  }

  lemma NothingReleased(w: World, r: Role)
    requires Inv(w) && w.phase == Cancelled && r in w.vaults
    ensures w.vaults[r].releasedTotal == 0 && w.tokens[VaultToken(r)].owner == VaultAuthority(r)
  {
    hide Tombstones.RegistryInv, Control.ControlInv, Capacity.BooksInv, SpendingInv, Supply, TermsOk;
    if r.Founder? {} else {}
    assert VaultInv(w, r);
  }

  /* ---- Reports and approvals ---- */

  lemma ReportExactly(w: World, now: time, signer: Signer, capacity: u64, observedAt: i64, sequence: u64, epoch: u64)
    requires Inv(w)
    ensures var c, g := w.terms.config, w.gov;
      ReportStep(w, now, signer, capacity, observedAt, sequence, epoch).Ok? <==>
        (w.phase == Active && w.lastActionAt <= now && c.t0 <= now && signer == g.oracle && epoch == g.oracleEpoch
         && g.report.sequence < sequence && g.oracleActivatedAt <= observedAt && g.report.at <= observedAt
         && c.t0 + (now - c.t0) / PERIOD * PERIOD <= observedAt <= now && now - observedAt <= c.maxReportAge)
    ensures ReportStep(w, now, signer, capacity, observedAt, sequence, epoch).Ok? ==>
      ReportStep(w, now, signer, capacity, observedAt, sequence, epoch).value
      == w.(lastActionAt := now, gov := w.gov.(report :=
           Report((now - w.terms.config.t0) / PERIOD, capacity, observedAt, sequence, epoch, true)))
  {
    hide Inv;
    StartKnown(w);
    if w.terms.config.t0 <= now {
      PeriodContains(w.terms.config.t0, now, (now - w.terms.config.t0) / PERIOD);
      assert PeriodAt(w.terms.config.t0, now) == Ok((now - w.terms.config.t0) / PERIOD);
    }
    hide PeriodAt;
  }

  lemma StartKnown(w: World)
    requires Inv(w)
    ensures 0 <= w.terms.config.t0 && w.terms.config.t0 + CLIFF <= I64_MAX && w.terms.config.maxReportAge <= 7 * DAY
  {
    hide AuthorityInv, LedgerInv, ValidCommittee, Capacity.RulesOk;
  }

  /**
   A period may be approved exactly when it has not begun and its end fits; more than a full period is then always left
   before its end, so that the test of the notice never refuses.
   */
  lemma TargetExactly(t0: time, period: u64, now: time)
    ensures Withdrawal.CheckTarget(t0, period, now).Ok? <==>
      (now < t0 || (now - t0) / PERIOD < period) && t0 + (period + 1) * PERIOD <= I64_MAX
    ensures now < t0 || (now - t0) / PERIOD < period ==> now + PERIOD < t0 + (period + 1) * PERIOD
  {
    if t0 <= now {
      assert PeriodAt(t0, now) == Ok((now - t0) / PERIOD);
    }
  }

  lemma ApproveExactly(w: World, now: time, author: Signer, period: u64, need: u64, epoch: u64, recipient: Addr)
    requires Inv(w)
    ensures var c, state, f, g := w.terms.config, w.registry.treasury.state, w.terms.config.founderGuardians,
      w.terms.config.treasuryGuardians;
      ApproveStep(w, now, author, period, need, epoch, recipient).Ok? <==>
        (w.phase != Cancelled && w.lastActionAt <= now
         && author == state.current && epoch == state.epoch && state.pending == 0
         && recipient in w.tokens && period !in w.registry.approvals && need > 0
         && var k := w.tokens[recipient].owner;
         && k in w.registry.keys && k != w.terms.founder && k != w.terms.treasury
         && k !in {f.one, f.two, f.three, g.one, g.two, g.three}
         && w.registry.keys[k].history == Mask(false, false) && w.registry.keys[k].pending == Mask(false, false)
         && (now < c.t0 || (now - c.t0) / PERIOD < period) && c.t0 + (period + 1) * PERIOD <= I64_MAX
         && w.registry.approvalCount < U64_MAX)
    ensures ApproveStep(w, now, author, period, need, epoch, recipient).Ok? ==>
      var reg, k := ApproveStep(w, now, author, period, need, epoch, recipient).value.registry,
        w.tokens[recipient].owner;
      && reg.approvals == w.registry.approvals[period := Approval(period, recipient, k, need, 0, now, author, epoch)]
      && reg.keys == w.registry.keys[k := KeyRecord(Mask(false, false), Mask(false, false), true)]
      && reg.founder == w.registry.founder && reg.treasury == w.registry.treasury
  {
    hide Inv, Withdrawal.CheckTarget;
    StartKnown(w);
    TargetExactly(w.terms.config.t0, period, now);
  }

  lemma PrepareKeyExactly(w: World, subject: Key)
    ensures PrepareKeyStep(w, subject).Ok? <==>
      w.phase != Cancelled && subject != Default && subject !in w.registry.keys
    ensures PrepareKeyStep(w, subject).Ok? ==> PrepareKeyStep(w, subject).value == w.(registry := w.registry.(
      keys := w.registry.keys[subject := KeyRecord(Mask(false, false), Mask(false, false), false)]))
  {
  }

  /* ---- Changes of oracle and controller ---- */

  /** Two different keys of the three. */
  predicate TwoOfThree(one: Key, two: Key, three: Key, a: Key, b: Key) {
    a != b && a in {one, two, three} && b in {one, two, three}
  }

  /** A change is put forward by the controller in both places, or by two recovery keys, while none is pending. */
  lemma ProposeChangeExactly(w: World, now: time, a: Signer, b: Signer, successor: Signer, kind: u8, recovery: bool,
          nonce: u64)
    requires Inv(w)
    ensures var g, keys := w.gov, w.terms.config.recoveryKeys;
      ProposeChangeStep(w, now, a, b, successor, kind, recovery, nonce).Ok? <==>
        (w.phase != Cancelled && w.lastActionAt <= now && g.pendingChange == 0 && nonce == g.changeSequence + 1
         && (if recovery then TwoOfThree(keys.one, keys.two, keys.three, a, b)
             else a == g.controller && b == g.controller)
         && ((kind == 0 && successor != g.oracle) || (kind == 1 && successor != g.controller))
         && now + 90 * DAY <= I64_MAX)
  {
    hide Inv;
    NextChangeFree(w);
  }

  lemma NextChangeFree(w: World)
    requires Inv(w)
    ensures w.gov.changeSequence + 1 !in w.gov.changes
  {
    hide LedgerInv, TermsOk, Tombstones.RegistryInv, Control.Accepted, Control.ControlMatches, Control.ReportOk;
  }

  /**
   The pending change is retracted by two recovery keys, its successor alone, or the controller unless it is a recovery.
   */
  lemma CancelChangeExactly(w: World, now: time, a: Signer, b: Signer, nonce: u64)
    requires Inv(w)
    ensures var g, keys := w.gov, w.terms.config.recoveryKeys;
      CancelChangeStep(w, now, a, b, nonce).Ok? <==>
        (w.phase != Cancelled && w.lastActionAt <= now && nonce != 0 && nonce == g.pendingChange && nonce in g.changes
         && (TwoOfThree(keys.one, keys.two, keys.three, a, b)
             || (a == b && a == g.changes[nonce].successor)
             || (a == b && a == g.controller && !g.changes[nonce].recovery)))
  {
    hide LedgerInv, TermsOk, Tombstones.RegistryInv, Control.ReportOk, Control.Accepted;
    if nonce in w.gov.changes {
      Control.PendingExactly(w.terms, w.gov, nonce, w.lastActionAt);
      PendingLink(w, nonce);
    }
    hide Inv;
  }

  /** The linked change is the one that is pending. */
  lemma PendingLink(w: World, nonce: u64)
    requires Inv(w) && nonce in w.gov.changes
    ensures w.gov.changes[nonce].status == Pending <==> nonce != 0 && nonce == w.gov.pendingChange
  {
    hide LedgerInv, TermsOk, Tombstones.RegistryInv, Control.ReportOk, Control.Replay;
    Control.PendingExactly(w.terms, w.gov, nonce, w.lastActionAt);
    Control.ChangeOf(w.terms.oracle, w.terms.creator, Control.History(w.gov), w.lastActionAt, nonce - 1);
    Control.LastPending(w.terms.oracle, w.terms.creator, Control.History(w.gov), w.lastActionAt);
  }

  lemma ExecuteChangeExactly(w: World, now: time, nonce: u64)
    requires Inv(w)
    ensures ExecuteChangeStep(w, now, nonce).Ok? <==>
      (w.phase != Cancelled && w.lastActionAt <= now && nonce != 0 && nonce == w.gov.pendingChange
       && nonce in w.gov.changes && w.gov.changes[nonce].createdAt + 90 * DAY <= now)
  {
    hide LedgerInv, TermsOk, Tombstones.RegistryInv, Control.ReportOk, Control.Accepted;
    if nonce in w.gov.changes {
      Control.PendingExactly(w.terms, w.gov, nonce, w.lastActionAt);
      PendingLink(w, nonce);
      if nonce == w.gov.pendingChange && w.lastActionAt <= now {
        Control.ChangeNeverStuck(w.terms, w.gov, w.lastActionAt, now);
      }
    }
    hide Inv;
  }

  /* ---- Changes of withdrawal keys ---- */

  /**
   A proposal is put forward by the current key in both places, or by two of the role's guardians, inside the window
   they signed, for a recorded key that is new to the role and no recipient, while none is pending.
   */
  lemma ProposeWithdrawalExactly(w: World, now: time, i: Withdrawal.Intent)
    requires Inv(w)
    ensures ProposeWithdrawalStep(w, now, i).Ok? <==>
      (w.phase != Cancelled && w.lastActionAt <= now && (i.role == 0 || i.role == 1)
       && var r := if i.role == 0 then Founder else Treasury;
       var state, keys, k := w.registry.Lane(r).state, w.terms.config.Guardians(r), i.successor;
       && state.pending == 0 && i.nonce == state.sequence + 1 && i.epoch == state.epoch && i.epoch < U64_MAX
       && i.predecessor == state.current
       && (if i.recovery then TwoOfThree(keys.one, keys.two, keys.three, i.initiator, i.cosigner)
           else i.initiator == state.current && i.cosigner == state.current)
       && 0 <= i.validFrom <= now <= i.validUntil <= i.validFrom + 300 && i.validUntil + 120 * DAY <= I64_MAX
       && k in w.registry.keys && k != w.terms.Owner(r) && k !in {keys.one, keys.two, keys.three}
       && !w.registry.keys[k].history.Has(r) && !w.registry.keys[k].recipient)
  {
    hide Inv;
    NextProposalFree(w, Founder);
    NextProposalFree(w, Treasury);
  }

  lemma NextProposalFree(w: World, r: Role)
    requires Inv(w)
    ensures w.registry.Lane(r).state.sequence + 1 !in w.registry.Lane(r).proposals
    ensures Default !in w.registry.keys
  {
    hide LedgerInv, TermsOk, Control.ControlInv, Tombstones.Accepted, Tombstones.StateMatches, Tombstones.IndexOk,
      Tombstones.LaneClear, Tombstones.LaneUnpaused, Tombstones.ApprovalsOk;
    if r.Founder? {} else {}
  }

  /** The pending proposal of a role, by its nonce. */
  predicate IsPending(w: World, r: Role, nonce: u64) {
    nonce != 0 && nonce == w.registry.Lane(r).state.pending && nonce in w.registry.Lane(r).proposals
  }

  lemma PendingProposal(w: World, r: Role, nonce: u64)
    requires Inv(w) && nonce in w.registry.Lane(r).proposals
    ensures var q, rs := w.registry.Lane(r).proposals[nonce], w.registry.Lane(r).state;
      && Withdrawal.Bound(w.registry, r, nonce)
      && (Withdrawal.CheckPending(rs, r, q, w.registry.keys[q.successor]).Pass? <==> IsPending(w, r, nonce))
  {
    hide LedgerInv, TermsOk, Control.ControlInv, Tombstones.LaneInv, Tombstones.ApprovalsInv, Withdrawal.CheckPending;
    assert Tombstones.LaneInv(w.terms, w.registry, r, w.lastActionAt) by {
      if r.Founder? {} else {}
    }
    RegistryProofs.PendingExactly(w.terms, w.registry, r, nonce, w.lastActionAt);
    NoncesCount(w, r, nonce);
    if IsPending(w, r, nonce) {
      RegistryProofs.PendingSuccessor(w.terms, w.registry, r, w.lastActionAt);
      LastIsPending(w, r);
    }
  }

  lemma NoncesCount(w: World, r: Role, nonce: u64)
    requires Tombstones.LaneInv(w.terms, w.registry, r, w.lastActionAt) && nonce in w.registry.Lane(r).proposals
    ensures nonce != 0
  {
    hide Tombstones.Accepted, Tombstones.StateMatches, Tombstones.IndexOk, Tombstones.LaneClear,
      Tombstones.LaneUnpaused;
  }

  lemma NotPending(w: World, now: time, r: Role, nonce: u64)
    requires Inv(w) && nonce in w.registry.Lane(r).proposals && Withdrawal.Bound(w.registry, r, nonce)
    requires !IsPending(w, r, nonce)
    ensures Withdrawal.Execute(w.terms, w.registry, r, nonce, now).Err?
    ensures Withdrawal.Expire(w.registry, r, nonce, now).Err?
  {
    hide Inv, Withdrawal.CheckPending;
    PendingProposal(w, r, nonce);
  }

  lemma LastIsPending(w: World, r: Role)
    requires Inv(w) && w.registry.Lane(r).state.pending != 0
    ensures w.registry.Lane(r).state.pending == w.registry.Lane(r).state.sequence
  {
    hide LedgerInv, TermsOk, Control.ControlInv, Tombstones.Accepted, Tombstones.Replay, Tombstones.IndexOk,
      Tombstones.LaneClear, Tombstones.LaneUnpaused, Tombstones.ApprovalsInv;
    if r.Founder? {} else {}
  }

  lemma ExecuteWithdrawalExactly(w: World, now: time, r: Role, nonce: u64)
    requires Inv(w)
    ensures ExecuteWithdrawalStep(w, now, r, nonce).Ok? <==>
      (w.phase != Cancelled && w.lastActionAt <= now && IsPending(w, r, nonce)
       && var q := w.registry.Lane(r).proposals[nonce];
       q.createdAt + 90 * DAY <= now < q.createdAt + 120 * DAY)
  {
    hide Inv, Withdrawal.Execute;
    if nonce in w.registry.Lane(r).proposals {
      PendingProposal(w, r, nonce);
      EndsExactly(w, now, r, nonce);
    }
  }

  lemma ExpireWithdrawalExactly(w: World, now: time, r: Role, nonce: u64)
    requires Inv(w)
    ensures ExpireWithdrawalStep(w, now, r, nonce).Ok? <==>
      (w.lastActionAt <= now && IsPending(w, r, nonce)
       && w.registry.Lane(r).proposals[nonce].createdAt + 120 * DAY <= now)
  {
    hide Inv, Withdrawal.Expire;
    if nonce in w.registry.Lane(r).proposals {
      PendingProposal(w, r, nonce);
      EndsExactly(w, now, r, nonce);
    }
  }

  lemma EndsExactly(w: World, now: time, r: Role, nonce: u64)
    requires Inv(w) && nonce in w.registry.Lane(r).proposals && Withdrawal.Bound(w.registry, r, nonce)
    ensures var q := w.registry.Lane(r).proposals[nonce];
      w.lastActionAt <= now ==>
        && (Withdrawal.Execute(w.terms, w.registry, r, nonce, now).Ok? <==>
            IsPending(w, r, nonce) && q.createdAt + 90 * DAY <= now < q.createdAt + 120 * DAY)
        && (Withdrawal.Expire(w.registry, r, nonce, now).Ok? <==>
            IsPending(w, r, nonce) && q.createdAt + 120 * DAY <= now)
  {
    hide LedgerInv, TermsOk, Control.ControlInv, Tombstones.RegistryInv, Withdrawal.Execute, Withdrawal.Expire;
    if !IsPending(w, r, nonce) {
      NotPending(w, now, r, nonce);
    } else if w.lastActionAt <= now {
      LastIsPending(w, r);
      RegistryProofs.PendingNeverStuck(w.terms, w.registry, r, w.lastActionAt, now);
    }
  }

  /**
   The pending proposal is retracted by two guardians, its successor alone, or the current key unless it is a recovery.
   */
  lemma CancelWithdrawalExactly(w: World, now: time, a: Signer, b: Signer, r: Role, nonce: u64)
    requires Inv(w)
    ensures var keys := w.terms.config.Guardians(r);
      CancelWithdrawalStep(w, now, a, b, r, nonce).Ok? <==>
        (w.lastActionAt <= now && IsPending(w, r, nonce)
         && var q := w.registry.Lane(r).proposals[nonce];
         (TwoOfThree(keys.one, keys.two, keys.three, a, b) || (a == b && a == q.successor)
          || (a == b && a == w.registry.Lane(r).state.current && !q.recovery)))
  {
    hide Inv, Withdrawal.CheckPending;
    if nonce in w.registry.Lane(r).proposals {
      PendingProposal(w, r, nonce);
    }
  }
}
