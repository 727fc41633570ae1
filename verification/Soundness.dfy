/**
 What an accepted snapshot guarantees, reachable or not: the offline verifier's checks are exactly the invariant but for
 five facts that admission alone establishes, and the ceilings it reports are exact.
 */
module Soundness {
  import opened Basics
  import opened State
  import opened Capacity
  import opened Launch
  import opened Invariant
  import opened Projection
  import opened Ceilings
  import opened Review
  import opened ControlReview
  import opened Snapshot
  import opened Acceptance
  import Withdrawal
  import Tombstones
  import RegistryProofs
  import Control
  import Tokens
  import Histories

  /* ---- Withdrawal histories ---- */

  lemma LaneFromReview(t: Terms, r: Role, lane: Lane, at: i64, now: time)
    requires LaneVerifies(t.Owner(r), t.config.Guardians(r), r, lane, at, now)
    requires Tombstones.Dense(lane.proposals, lane.state.sequence)
    ensures Tombstones.LaneOk(t, r, lane, at)
  {
    hide Tombstones.Accepted, Tombstones.Replay, Tombstones.Tombstones;
    var qs := Tombstones.History(lane);
    if Tombstones.Replay(t.Owner(r), qs).pending.Some? {
      Tombstones.PendingIsLast(t.Owner(r), t.config.Guardians(r), r, qs, at);
      EpochBelow(t.Owner(r), t.config.Guardians(r), r, qs, at);
    }
  }

  /** Every key of a role came from its own proposal. */
  lemma EpochBelow(owner: Key, guardians: Committee, r: Role, qs: seq<Proposal>, at: i64)
    requires Tombstones.Accepted(owner, guardians, r, qs, at) && Tombstones.Replay(owner, qs).pending.Some?
    ensures qs != [] && Tombstones.Replay(owner, qs).Epoch() < |qs|
  {
    Tombstones.PendingIsLast(owner, guardians, r, qs, at);
    Tombstones.HistoryFacts(owner, guardians, r, qs[..|qs| - 1], at);
  }

  /** A record that passes shows each role's marks as replaying that role leaves them. */
  lemma MarksFromReview(t: Terms, reg: Registry, at: i64, k: Key)
    requires Tombstones.LaneOk(t, Founder, reg.founder, at) && Tombstones.LaneOk(t, Treasury, reg.treasury, at)
    requires k in reg.keys
    requires RecordPasses(k, reg.keys[k], MarkAll(MarkAll(map[], Founder, Tombstones.History(reg.founder)), Treasury,
        Tombstones.History(reg.treasury)), reg.approvals)
    ensures Tombstones.Indexed(k, reg.keys[k], Founder, Tombstones.LaneFold(t.founder, reg.founder))
    ensures Tombstones.Indexed(k, reg.keys[k], Treasury, Tombstones.LaneFold(t.treasury, reg.treasury))
    ensures reg.keys[k].recipient <==> Tombstones.Approved(reg.approvals, k)
  {
    hide MarkAll, Tombstones.Accepted, Tombstones.Replay, Tombstones.StateMatches, Tombstones.Tombstones;
    var fs, ts := Tombstones.History(reg.founder), Tombstones.History(reg.treasury);
    NoMarks(k);
    MarksMatchReplay(map[], t.founder, t.config.founderGuardians, Founder, fs, at, k);
    MarksMatchReplay(MarkAll(map[], Founder, fs), t.treasury, t.config.treasuryGuardians, Treasury, ts, at, k);
  }

  lemma NoMarks(k: Key)
    ensures MarksOf(map[], k) == NO_MARKS
  {
  }

  lemma IndexFromReview(t: Terms, reg: Registry, at: i64, now: time)
    requires WithdrawalVerifies(t, reg, at, now)
    ensures Tombstones.LaneOk(t, Founder, reg.founder, at) && Tombstones.LaneOk(t, Treasury, reg.treasury, at)
    ensures Tombstones.IndexOk(reg.keys, Founder, Tombstones.LaneFold(t.founder, reg.founder),
        Tombstones.History(reg.founder))
    ensures Tombstones.IndexOk(reg.keys, Treasury, Tombstones.LaneFold(t.treasury, reg.treasury),
        Tombstones.History(reg.treasury))
    ensures forall k :: k in reg.keys ==> (reg.keys[k].recipient <==> Tombstones.Approved(reg.approvals, k))
  {
    hide LaneVerifies, RecordPasses, ApprovalPasses, Registration, MarkAll, Tombstones.Accepted, Tombstones.Replay,
      Tombstones.StateMatches, Tombstones.Tombstones, Tombstones.Indexed, Tombstones.Approved;
    LaneFromReview(t, Founder, reg.founder, at, now);
    LaneFromReview(t, Treasury, reg.treasury, at, now);
    forall k | k in reg.keys
      ensures Tombstones.Indexed(k, reg.keys[k], Founder, Tombstones.LaneFold(t.founder, reg.founder))
      ensures Tombstones.Indexed(k, reg.keys[k], Treasury, Tombstones.LaneFold(t.treasury, reg.treasury))
      ensures reg.keys[k].recipient <==> Tombstones.Approved(reg.approvals, k)
    {
      MarksFromReview(t, reg, at, k);
    }
    SuccessorsListed(Tombstones.History(reg.founder), reg.keys.Keys);
    SuccessorsListed(Tombstones.History(reg.treasury), reg.keys.Keys);
  }

  lemma SuccessorsListed(qs: seq<Proposal>, keys: set<Key>)
    ensures Successors(qs) <= keys ==> forall i :: 0 <= i < |qs| ==> qs[i].successor in keys
  {
    forall i | 0 <= i < |qs| ensures qs[i].successor in Successors(qs) {
      assert qs[i] in qs;
    }
  }

  lemma ApprovalFromReview(t: Terms, reg: Registry, at: i64, now: time, p: u64)
    requires WithdrawalVerifies(t, reg, at, now) && p in reg.approvals
    ensures reg.approvals[p].recipientOwner in reg.keys
    ensures ApprovalCounters(t, reg.approvals[p], p, at, now)
    ensures Withdrawal.EligibleRecipient(t, reg.approvals[p].recipientOwner, reg.keys[reg.approvals[p].recipientOwner])
    ensures Tombstones.AuthorOk(reg.approvals[p], Tombstones.LaneFold(t.treasury, reg.treasury))
    ensures var all := Tombstones.History(reg.founder) + Tombstones.History(reg.treasury);
      forall i :: 0 <= i < |all| ==> CollisionFree(reg.approvals[p], all[i], now)
  {
    hide LaneVerifies, RecordPasses, Registration, MarkAll, Tombstones.Replay, Tombstones.Tombstones, ApprovalCounters,
      Withdrawal.EligibleRecipient, Tombstones.AuthorOk, CollisionFree;
  }

  lemma ClearFromReview(t: Terms, reg: Registry, r: Role, at: i64, now: time)
    requires WithdrawalVerifies(t, reg, at, now)
    requires Tombstones.LaneOk(t, r, reg.Lane(r), at)
    ensures Tombstones.LaneClear(reg.approvals, Tombstones.History(reg.Lane(r)))
    ensures r == Treasury ==> Tombstones.LaneUnpaused(reg.approvals, Tombstones.History(reg.Lane(r)))
  {
    hide WithdrawalVerifies, Tombstones.Replay, Tombstones.Tombstones, Tombstones.StateMatches;
    var qs := Tombstones.History(reg.Lane(r));
    forall p, i | p in reg.approvals && 0 <= i < |qs|
      ensures Tombstones.RecipientClear(reg.approvals[p], qs[i])
      ensures r == Treasury ==> Tombstones.OutsidePause(reg.approvals[p], qs[i])
    {
      assert reg.Lane(r) == reg.founder || reg.Lane(r) == reg.treasury;
      ProposalFromReview(t, reg, r, at, now, p, i);
    }
  }

  lemma DenseFromReview(t: Terms, reg: Registry, at: i64, now: time)
    requires WithdrawalVerifies(t, reg, at, now)
    ensures Tombstones.Dense(reg.founder.proposals, reg.founder.state.sequence)
    ensures Tombstones.Dense(reg.treasury.proposals, reg.treasury.state.sequence)
  {
    hide LaneVerifies, RecordPasses, ApprovalPasses, Registration, MarkAll, Tombstones.Dense;
  }

  lemma ProposalFromReview(t: Terms, reg: Registry, r: Role, at: i64, now: time, p: u64, i: nat)
    requires WithdrawalVerifies(t, reg, at, now) && p in reg.approvals
    requires Tombstones.LaneOk(t, r, reg.Lane(r), at) && i < |Tombstones.History(reg.Lane(r))|
    ensures Tombstones.RecipientClear(reg.approvals[p], Tombstones.History(reg.Lane(r))[i])
    ensures r == Treasury ==> Tombstones.OutsidePause(reg.approvals[p], Tombstones.History(reg.Lane(r))[i])
  {
    hide WithdrawalVerifies, Tombstones.Replay, Tombstones.Tombstones, Tombstones.StateMatches, Tombstones.Accepted,
      Tombstones.AuthorOk, Withdrawal.EligibleRecipient, Tombstones.Finished;
    ApprovalFromReview(t, reg, at, now, p);
    RegistryProofs.LaneOutcome(t, r, reg.Lane(r), at, i);
    DenseFromReview(t, reg, at, now);
    var fs, ts, q := Tombstones.History(reg.founder), Tombstones.History(reg.treasury),
      Tombstones.History(reg.Lane(r))[i];
    var all := fs + ts;
    if r.Founder? {
      assert all[i] == q;
    } else {
      assert all[|fs| + i] == q;
    }
  }

  /** The checks of the withdrawal authority establish everything the ceilings rest on in the registry. */
  lemma RegistryFromReview(t: Terms, reg: Registry, at: i64, now: time)
    requires WithdrawalVerifies(t, reg, at, now)
    ensures Tombstones.LaneInv(t, reg, Founder, at) && Tombstones.LaneInv(t, reg, Treasury, at)
    ensures forall p :: p in reg.approvals ==> Tombstones.ApprovalStands(t, reg.keys, reg.approvals[p], p, at)
  {
    hide WithdrawalVerifies, Tombstones.IndexOk, Tombstones.LaneClear, Tombstones.LaneUnpaused, Tombstones.StateMatches,
      Tombstones.Accepted, Tombstones.Replay, Tombstones.Tombstones, Withdrawal.KnownParty;
    IndexFromReview(t, reg, at, now);
    ClearFromReview(t, reg, Founder, at, now);
    ClearFromReview(t, reg, Treasury, at, now);
    forall p | p in reg.approvals ensures Tombstones.ApprovalStands(t, reg.keys, reg.approvals[p], p, at) {
      ApprovalFromReview(t, reg, at, now, p);
    }
  }

  /** What no check of the withdrawal authority looks at. */
  predicate RegistryUnchecked(t: Terms, reg: Registry) {
    && Default !in reg.keys
    && (forall p :: p in reg.approvals ==> t.config.t0 + (p + 1) * PERIOD <= I64_MAX)
  }

  lemma RegistryExactly(t: Terms, reg: Registry, at: i64, now: time)
    requires at <= now
    ensures Tombstones.RegistryInv(t, reg, at) && Registration(t) <==>
      WithdrawalVerifies(t, reg, at, now) && RegistryUnchecked(t, reg)
  {
    hide WithdrawalVerifies, Tombstones.LaneInv, Registration, Tombstones.AuthorOk;
    if Tombstones.RegistryInv(t, reg, at) && Registration(t) {
      ReachableWithdrawalVerifies(t, reg, at, now);
      forall p | p in reg.approvals ensures t.config.t0 + (p + 1) * PERIOD <= I64_MAX {
        assert Tombstones.ApprovalOk(t, reg.keys, reg.approvals[p], p, at);
      }
    }
    if WithdrawalVerifies(t, reg, at, now) && RegistryUnchecked(t, reg) {
      RegistryFromReview(t, reg, at, now);
      ApprovalsFromReview(t, reg, at, now);
    }
  }

  lemma ApprovalsFromReview(t: Terms, reg: Registry, at: i64, now: time)
    requires WithdrawalVerifies(t, reg, at, now) && RegistryUnchecked(t, reg)
    ensures Registration(t) && Tombstones.LaneOk(t, Treasury, reg.treasury, at) && Tombstones.ApprovalsInv(t, reg, at)
  {
    hide WithdrawalVerifies, Tombstones.LaneOk, Tombstones.LaneInv, Tombstones.IndexOk, Registration,
      Tombstones.ApprovalStands, Tombstones.AuthorOk, Withdrawal.EligibleRecipient, CollisionFree, ApprovalCounters,
      Tombstones.Replay;
    IndexFromReview(t, reg, at, now);
    RegistryFromReview(t, reg, at, now);
    CountFromReview(t, reg, at, now);
    DenseFromReview(t, reg, at, now);
    forall p | p in reg.approvals
      ensures Tombstones.ApprovalOk(t, reg.keys, reg.approvals[p], p, at)
      ensures Tombstones.AuthorOk(reg.approvals[p], Tombstones.LaneFold(t.treasury, reg.treasury))
    {
      ApprovalFromReview(t, reg, at, now, p);
    }
  }

  lemma CountFromReview(t: Terms, reg: Registry, at: i64, now: time)
    requires WithdrawalVerifies(t, reg, at, now)
    ensures Registration(t) && |reg.approvals| == reg.approvalCount
  {
    hide LaneVerifies, RecordPasses, ApprovalPasses, Registration, MarkAll;
  }

  /* ---- Control ---- */

  lemma ControlExactly(t: Terms, g: Governance, at: i64, now: time)
    requires at <= now && Control.ReportOk(t.config, g, at)
    ensures Control.ControlInv(t, g, at) && ValidCommittee(t.config.recoveryKeys) <==> GovernanceVerifies(t, g, at, now)
  {
    hide Control.Accepted, Control.Replay, ValidCommittee, Control.ReportOk;
    ReportGeneration(t.config, g, at);
  }

  lemma ReportGeneration(c: Config, g: Governance, at: i64)
    requires Control.ReportOk(c, g, at)
    ensures ReportGenerationPasses(g)
  {
  }

  /** The review's two looks at the report are what the invariant says of it. */
  lemma ReportExactly(w: World, now: time)
    requires 0 <= w.terms.config.t0 <= w.lastActionAt <= now
    ensures Control.ReportOk(w.terms.config, w.gov, w.lastActionAt) <==>
      ReportGenerationPasses(w.gov) && ReportVerifies(w, now)
  {
    var c, r := w.terms.config, w.gov.report;
    if Control.ReportOk(c, w.gov, w.lastActionAt) && r.sequence > 0 {
      PeriodContains(c.t0, r.at, r.period);
    }
  }

  /* ---- Accounting ---- */

  /** What no check of the terms looks at. */
  predicate TermsUnchecked(t: Terms) { 0 <= t.config.t0 && t.oracle != Default }

  predicate TermsVerify(t: Terms) {
    && ConfigVerifies(t.config, t.mint.supply) && t.specHash != 0
    && t.mint.mintAuthority.None? && t.mint.freezeAuthority.None?
    && Registration(t) && ValidCommittee(t.config.recoveryKeys)
  }

  lemma TermsExactly(t: Terms)
    ensures TermsOk(t) <==> TermsVerify(t) && TermsUnchecked(t)
  {
    hide ValidCommittee;
  }

  lemma ConfigFromReview(t: Terms)
    requires TermsVerify(t) && 0 <= t.config.t0
    ensures ConfigOk(t.config)
  {
    hide ValidCommittee;
  }

  lemma VaultExactly(w: World, r: Role, now: time)
    requires TermsVerify(w.terms)
    ensures VaultVerifies(w, r) <==>
      (r in w.vaults && VaultToken(r) in w.tokens && VaultOk(w.terms, w.books, w.vaults[r], r)
       && w.tokens[VaultToken(r)].owner == VaultAuthority(r) && Covered(w, r) && PoolStands(w.terms.config, w.books, r))
  {
    hide ValidCommittee, Registration, RuleVerifies;
    if r.Founder? {} else {}
  }

  /** Every check but those of the named accounts and of the review's sizes. */
  ghost predicate Checks(w: World, now: time) {
    && GovernanceVerifies(w.terms, w.gov, w.lastActionAt, now)
    && AccountingVerifies(w, now)
    && WithdrawalVerifies(w.terms, w.registry, w.lastActionAt, now)
  }

  lemma PartsFromReview(w: World, now: time)
    requires Checks(w, now)
    ensures w.phase == Active && w.funded == Mask(true, true) && w.terms.config.t0 <= w.lastActionAt <= now
    ensures TermsVerify(w.terms) && BooksVerify(w, now) && VaultVerifies(w, Founder) && VaultVerifies(w, Treasury)
    ensures ReportGenerationPasses(w.gov) && ReportVerifies(w, now)
    ensures Tokens.Sum(w.registry.approvals, ConsumedOf) == w.books.released.treasury
    ensures forall p :: p in w.registry.approvals ==> ApprovalSpending(w, w.registry.approvals[p], now)
  {
    hide ConfigVerifies, BooksVerify, VaultVerifies, ReportVerifies, ReportGenerationPasses, ChangesVerify,
      ControlReplays, LaneVerifies, RecordPasses, ApprovalPasses, Registration, ValidCommittee, ProjectedLimits,
      ApprovalSpending;
  }

  /** The checks establish everything that the ceilings rest on, in any world whose start is not before time zero. */
  lemma StandsFromReview(w: World, now: time)
    requires Checks(w, now) && 0 <= w.terms.config.t0 && Tokens.Supply(w.tokens) <= U64_MAX
    ensures Stands(w, now)
  {
    hide GovernanceVerifies, AccountingVerifies, WithdrawalVerifies, TermsVerify, VaultVerifies, ConfigOk, VaultOk,
      Tokens.Supply, PoolStands, Control.ReportOk, ReportVerifies, ReportGenerationPasses, Tombstones.LaneInv,
      Tombstones.ApprovalStands, Covered, ApprovalSpending, Entitlement;
    PartsFromReview(w, now);
    ConfigFromReview(w.terms);
    VaultExactly(w, Founder, now);
    VaultExactly(w, Treasury, now);
    ReportExactly(w, now);
    RegistryFromReview(w.terms, w.registry, w.lastActionAt, now);
    CliffFromReview(w);
  }

  lemma CliffFromReview(w: World)
    requires VaultVerifies(w, Founder)
    ensures w.books.released.founder > 0 ==> w.books.period >= 6
  {
  }

  /* ---- The invariant, and what the review does not see of it ---- */

  /** The invariant of an active policy, its counters judged at a later time. */
  ghost predicate SoundAt(w: World, now: time) {
    && w.phase == Active && w.terms.config.t0 <= w.lastActionAt <= now
    && TermsOk(w.terms) && LedgerInv(w.(lastActionAt := now))
    && Tombstones.RegistryInv(w.terms, w.registry, w.lastActionAt)
    && Control.ControlInv(w.terms, w.gov, w.lastActionAt)
  }

  /**
   The five facts of the invariant that no check looks at: the start is not before time zero, the first oracle was a
   key, releases kept within both rules' entitlements, no record indexes the default key, and every approved period
   ends within 64-bit time.
   */
  predicate Unchecked(w: World) {
    && TermsUnchecked(w.terms) && WithinEntitlements(w.terms.config, w.books) && RegistryUnchecked(w.terms, w.registry)
  }

  lemma InvSound(w: World, now: time)
    requires Inv(w) && w.phase == Active && w.lastActionAt <= now
    ensures SoundAt(w, now)
  {
    hide TermsOk, Tombstones.RegistryInv, Control.ControlInv, LedgerInv;
    TickLedger(w, now);
    ActiveParts(w);
  }

  lemma LedgerExactly(w: World, now: time)
    requires w.phase == Active && w.funded == Mask(true, true) && TermsVerify(w.terms)
    requires 0 <= w.terms.config.t0 <= w.lastActionAt <= now && Tokens.Supply(w.tokens) <= U64_MAX
    ensures LedgerInv(w.(lastActionAt := now)) <==>
      (BooksVerify(w, now) && VaultVerifies(w, Founder) && VaultVerifies(w, Treasury)
       && WithinEntitlements(w.terms.config, w.books) && SpendingInv(w.(lastActionAt := now)))
  {
    hide BooksStand, BooksInv, VaultOk, VaultVerifies, BooksVerify, WithinEntitlements, SpendingInv, Tokens.Supply,
      TermsVerify, PoolStands;
    VaultExactly(w, Founder, now);
    VaultExactly(w, Treasury, now);
    BooksExactly(w, now);
    PeriodReached(w, now);
    if VaultVerifies(w, Founder) {
      CliffFromReview(w);
    }
  }

  lemma PeriodReached(w: World, now: time)
    requires 0 <= w.terms.config.t0 <= now
    ensures w.terms.config.t0 + w.books.period * PERIOD <= now <==> w.books.period <= (now - w.terms.config.t0) / PERIOD
  {
  }

  lemma BooksExactly(w: World, now: time)
    ensures BooksInv(w.terms.config, w.books) && w.books.period <= (now - w.terms.config.t0) / PERIOD <==>
      (BooksVerify(w, now) && WithinEntitlements(w.terms.config, w.books)
       && PoolStands(w.terms.config, w.books, Founder) && PoolStands(w.terms.config, w.books, Treasury)
       && (w.books.released.founder > 0 ==> w.books.period >= 6))
  {
    BooksParts(w.terms.config, w.books);
    hide BooksInv, PoolStands, WithinEntitlements;
  }

  lemma SpendingExactly(w: World, now: time)
    ensures SpendingInv(w.(lastActionAt := now)) <==>
      (Tokens.Sum(w.registry.approvals, ConsumedOf) == w.books.released.treasury
       && (forall p :: p in w.registry.approvals ==> w.registry.approvals[p].period == p)
       && (forall p :: p in w.registry.approvals ==> ApprovalSpending(w, w.registry.approvals[p], now)))
  {
    var later := w.(lastActionAt := now);
    forall p | p in w.registry.approvals
      ensures ApprovalSpending(w, w.registry.approvals[p], now) <==> ApprovalSpent(later, later.registry.approvals[p])
    {
    }
    hide ApprovalSpending, ApprovalSpent, Tokens.Sum;
  }

  /** The checks are complete: the invariant passes every one of them. */
  lemma SoundPasses(w: World, now: time)
    requires SoundAt(w, now)
    ensures Checks(w, now) && Unchecked(w)
  {
    hide TermsOk, LedgerInv, Tombstones.RegistryInv, Control.ControlInv, GovernanceVerifies, WithdrawalVerifies,
      TermsVerify, TermsUnchecked, Control.ReportOk, BooksVerify, VaultVerifies, WithinEntitlements, RegistryUnchecked,
      ReportVerifies, ReportGenerationPasses, SpendingInv, ApprovalSpending, Stands, ProjectedLimits;
    TermsExactly(w.terms);
    SoundParts(w, now);
    LedgerExactly(w, now);
    SpendingExactly(w, now);
    ReportExactly(w, now);
    ControlExactly(w.terms, w.gov, w.lastActionAt, now);
    RegistryExactly(w.terms, w.registry, w.lastActionAt, now);
    SoundStands(w, now);
    ProjectionNeverNegative(w, now);
    OracleReachable(w);
    AccountingFromParts(w, now);
  }

  lemma SoundParts(w: World, now: time)
    requires SoundAt(w, now)
    ensures w.funded == Mask(true, true) && Tokens.Supply(w.tokens) <= U64_MAX && SpendingInv(w.(lastActionAt := now))
    ensures 0 <= w.terms.config.t0 && Control.ReportOk(w.terms.config, w.gov, w.lastActionAt)
    ensures Registration(w.terms) && ValidCommittee(w.terms.config.recoveryKeys)
  {
    hide Tombstones.RegistryInv, Control.Accepted, Control.ControlMatches, Control.ReportOk, BooksInv, VaultOk,
      SpendingInv, Tokens.Supply, ConfigOk, ValidCommittee;
    assert ConfigOk(w.terms.config);
    assert 0 <= w.terms.config.t0 by { ConfigStart(w.terms.config); }
    assert VaultInv(w.(lastActionAt := now), Founder) && VaultInv(w.(lastActionAt := now), Treasury);
  }

  lemma ConfigStart(c: Config)
    requires ConfigOk(c)
    ensures 0 <= c.t0
  {
  }

  lemma SoundStands(w: World, now: time)
    requires SoundAt(w, now)
    ensures Stands(w, now)
  {
    hide Control.Accepted, Control.ControlMatches, Control.ReportOk, SpendingInv, Tombstones.LaneInv, ConfigOk, VaultOk,
      BooksInv, BooksStand, Tokens.Supply;
    var later := w.(lastActionAt := now);
    BooksParts(w.terms.config, w.books);
    assert VaultInv(later, Founder) && VaultInv(later, Treasury);
    forall p | p in w.registry.approvals
      ensures Tombstones.ApprovalStands(w.terms, w.registry.keys, w.registry.approvals[p], p, w.lastActionAt)
    {
      assert Tombstones.ApprovalOk(w.terms, w.registry.keys, w.registry.approvals[p], p, w.lastActionAt);
    }
  }

  lemma ProjectionNeverNegative(w: World, now: time)
    requires Stands(w, now)
    ensures !ProjectedLimits(w, now).NegativeAccounting?
  {
    hide Stands, ProjectedLimits, WindowLimits;
    ProjectionMatches(w, now);
  }

  lemma AccountingFromParts(w: World, now: time)
    requires w.phase == Active && w.funded == Mask(true, true) && TermsVerify(w.terms) && w.gov.oracle != Default
    requires w.terms.config.t0 <= w.lastActionAt <= now && BooksVerify(w, now)
    requires VaultVerifies(w, Founder) && VaultVerifies(w, Treasury) && ReportVerifies(w, now)
    requires Tokens.Sum(w.registry.approvals, ConsumedOf) == w.books.released.treasury
    requires forall p :: p in w.registry.approvals ==> ApprovalSpending(w, w.registry.approvals[p], now)
    requires !ProjectedLimits(w, now).NegativeAccounting?
    ensures AccountingVerifies(w, now)
  {
    hide ConfigVerifies, BooksVerify, VaultVerifies, ReportVerifies, ProjectedLimits, ApprovalSpending, Registration,
      ValidCommittee;
  }

  /** The checks are sound: with the five facts they do not look at, they establish the invariant. */
  lemma PassesSound(w: World, now: time)
    requires Checks(w, now) && Unchecked(w) && Tokens.Supply(w.tokens) <= U64_MAX
    ensures SoundAt(w, now)
  {
    hide TermsOk, LedgerInv, Tombstones.RegistryInv, Control.ControlInv, GovernanceVerifies, WithdrawalVerifies,
      AccountingVerifies, TermsVerify, Control.ReportOk, BooksVerify, VaultVerifies, WithinEntitlements,
      RegistryUnchecked, ReportVerifies, ReportGenerationPasses, SpendingInv, ApprovalSpending, Tokens.Supply,
      Tombstones.ApprovalOk, Tombstones.LaneInv;
    PartsFromReview(w, now);
    TermsExactly(w.terms);
    ReportExactly(w, now);
    ControlExactly(w.terms, w.gov, w.lastActionAt, now);
    RegistryExactly(w.terms, w.registry, w.lastActionAt, now);
    PeriodsFromReview(w, now);
    SpendingExactly(w, now);
    LedgerExactly(w, now);
  }

  lemma PeriodsFromReview(w: World, now: time)
    requires WithdrawalVerifies(w.terms, w.registry, w.lastActionAt, now)
    ensures forall p :: p in w.registry.approvals ==> w.registry.approvals[p].period == p
  {
    hide WithdrawalVerifies;
    forall p | p in w.registry.approvals ensures w.registry.approvals[p].period == p {
      ApprovalFromReview(w.terms, w.registry, w.lastActionAt, now, p);
    }
  }

  /**
   In any world whose tokens fit 64 bits, reachable or not, the checks and the five facts that they do not look at are
   together exactly the invariant.
   */
  lemma ChecksExactly(w: World, now: time)
    requires Tokens.Supply(w.tokens) <= U64_MAX
    ensures SoundAt(w, now) <==> Checks(w, now) && Unchecked(w)
  {
    hide SoundAt, Checks, Unchecked;
    if SoundAt(w, now) {
      SoundPasses(w, now);
    }
    if Checks(w, now) && Unchecked(w) {
      PassesSound(w, now);
    }
  }

  /* ---- What an accepted snapshot guarantees ---- */

  /** Every record of an accepted snapshot shows exactly the keys its roles' histories made current or left pending. */
  lemma AcceptedRecords(w: World, n: Named, now: time, k: Key, r: Role)
    requires Verifies(w, n, now) && k in w.registry.keys
    ensures Tombstones.Dense(w.registry.Lane(r).proposals, w.registry.Lane(r).state.sequence)
    ensures var f, record := Tombstones.LaneFold(w.terms.Owner(r), w.registry.Lane(r)), w.registry.keys[k];
      && (record.history.Has(r) <==> k in f.history[1..])
      && (record.pending.Has(r) <==> f.pending == Some(k))
      && (record.recipient <==> exists p :: p in w.registry.approvals && w.registry.approvals[p].recipientOwner == k)
  {
    hide Reviewable, GovernanceVerifies, AccountingVerifies, WithdrawalVerifies, NamesVerify, Tombstones.LaneOk,
      Tombstones.Replay;
    IndexFromReview(w.terms, w.registry, w.lastActionAt, now);
    DenseFromReview(w.terms, w.registry, w.lastActionAt, now);
    if r.Founder? {} else {}
  }

  /**
   Both histories of an accepted snapshot are in order, entry by entry, and the stored key, epoch and pending link are
   those they lead to.
   */
  lemma AcceptedHistories(w: World, n: Named, now: time, r: Role)
    requires Verifies(w, n, now)
    ensures Tombstones.Dense(w.registry.Lane(r).proposals, w.registry.Lane(r).state.sequence)
    ensures var qs, owner, state := Tombstones.History(w.registry.Lane(r)), w.terms.Owner(r), w.registry.Lane(r).state;
      && (forall i :: 0 <= i < |qs| ==>
            Histories.Entry(owner, w.terms.config.Guardians(r), r, qs, i, w.lastActionAt))
      && state.current == Histories.Holder(owner, qs) && state.epoch == Histories.ExecutedIn(qs)
      && state.pending == (if qs != [] && qs[|qs| - 1].status == Pending then state.sequence else 0)
  {
    hide Reviewable, GovernanceVerifies, AccountingVerifies, WithdrawalVerifies, NamesVerify, Tombstones.Accepted,
      Tombstones.Replay, Tombstones.Tombstones, Histories.Entry, Histories.Holder, Histories.ExecutedIn,
      Tombstones.IndexOk;
    IndexFromReview(w.terms, w.registry, w.lastActionAt, now);
    assert Tombstones.LaneOk(w.terms, r, w.registry.Lane(r), w.lastActionAt) by {
      if r.Founder? {} else {}
    }
    var qs := Tombstones.History(w.registry.Lane(r));
    Histories.HistoryExactly(w.terms.Owner(r), w.terms.config.Guardians(r), r, qs, w.lastActionAt);
    Histories.ReplayIs(w.terms.Owner(r), qs);
  }

  /** So is the history of changes, and the stored oracle, controller, epochs and pending link are those it leads to. */
  lemma AcceptedChanges(w: World, n: Named, now: time)
    requires Verifies(w, n, now)
    ensures Control.Dense(w.gov.changes, w.gov.changeSequence)
    ensures var qs, g, t := Control.History(w.gov), w.gov, w.terms;
      && (forall i :: 0 <= i < |qs| ==> Histories.ChangeEntry(t.oracle, t.creator, qs, i, w.lastActionAt))
      && g.oracle == Histories.HolderOf(t.oracle, ChangeOracle, qs)
      && g.controller == Histories.HolderOf(t.creator, ChangeController, qs)
      && g.oracleEpoch == Histories.ExecutedOf(ChangeOracle, qs)
      && g.controllerEpoch == Histories.ExecutedOf(ChangeController, qs)
      && g.pendingChange == (if qs != [] && qs[|qs| - 1].status == Pending then g.changeSequence else 0)
  {
    hide Reviewable, AccountingVerifies, WithdrawalVerifies, NamesVerify, Control.Accepted, Control.Replay,
      Control.Tombstones, Histories.ChangeEntry, Histories.HolderOf, Histories.ExecutedOf, ReportGenerationPasses;
    var qs := Control.History(w.gov);
    Histories.ChangesExactly(w.terms.oracle, w.terms.creator, qs, w.lastActionAt);
    Histories.ChangesReplayIs(w.terms.oracle, w.terms.creator, qs);
  }

  /** Who an approval may pay, and who made it when. */
  predicate ApprovalInOrder(t: Terms, a: Approval, p: u64, keys: map<Key, KeyRecord>, f: Tombstones.Fold, at: i64)
    requires |f.history| == |f.activations|
  {
    var k, f', g, e := a.recipientOwner, t.config.founderGuardians, t.config.treasuryGuardians, a.authorEpoch;
    && a.period == p && 0 < a.need && 0 <= a.consumed <= a.need
    && a.createdAt <= at && a.createdAt + PERIOD < t.config.t0 + (p + 1) * PERIOD
    && k != t.founder && k != t.treasury && k !in {f'.one, f'.two, f'.three, g.one, g.two, g.three}
    && k in keys && keys[k] == KeyRecord(Mask(false, false), Mask(false, false), true)
    && e < |f.history| && a.author == f.history[e] && f.activations[e] <= a.createdAt
    && (e + 1 < |f.history| ==> a.createdAt <= f.activations[e + 1])
  }

  /** No approval pays a key that was or is to be made current, and none was made while the treasury was paused. */
  predicate ApprovalClear(a: Approval, q: Proposal) {
    && (q.successor == a.recipientOwner ==>
          (q.status == Retracted || q.status == Expired) && q.finishedAt <= a.createdAt)
    && (q.role == Treasury && q.createdAt < a.createdAt ==> q.status != Pending && q.finishedAt <= a.createdAt)
  }

  /** Every approval of an accepted snapshot is in order. */
  lemma AcceptedApprovals(w: World, n: Named, now: time, p: u64)
    requires Verifies(w, n, now) && p in w.registry.approvals
    ensures Tombstones.Dense(w.registry.founder.proposals, w.registry.founder.state.sequence)
    ensures Tombstones.Dense(w.registry.treasury.proposals, w.registry.treasury.state.sequence)
    ensures var a := w.registry.approvals[p];
      && ApprovalInOrder(w.terms, a, p, w.registry.keys, Tombstones.LaneFold(w.terms.treasury, w.registry.treasury),
             w.lastActionAt)
      && (forall i :: 0 <= i < |Tombstones.History(w.registry.founder)| ==>
            ApprovalClear(a, Tombstones.History(w.registry.founder)[i]))
      && (forall i :: 0 <= i < |Tombstones.History(w.registry.treasury)| ==>
            ApprovalClear(a, Tombstones.History(w.registry.treasury)[i]))
  {
    hide Reviewable, GovernanceVerifies, AccountingVerifies, WithdrawalVerifies, NamesVerify, Tombstones.Replay,
      Tombstones.Tombstones, ApprovalClear, CollisionFree, Tombstones.LaneInv;
    DenseFromReview(w.terms, w.registry, w.lastActionAt, now);
    ApprovalFromReview(w.terms, w.registry, w.lastActionAt, now, p);
    RegistryFromReview(w.terms, w.registry, w.lastActionAt, now);
    var fs, ts := Tombstones.History(w.registry.founder), Tombstones.History(w.registry.treasury);
    forall i | 0 <= i < |fs| ensures ApprovalClear(w.registry.approvals[p], fs[i]) {
      assert (fs + ts)[i] == fs[i];
      ClearIsFree(w.registry.approvals[p], fs[i], now);
    }
    forall i | 0 <= i < |ts| ensures ApprovalClear(w.registry.approvals[p], ts[i]) {
      assert (fs + ts)[|fs| + i] == ts[i];
      ClearIsFree(w.registry.approvals[p], ts[i], now);
    }
  }

  lemma ClearIsFree(a: Approval, q: Proposal, now: time)
    requires a.createdAt <= now
    ensures CollisionFree(a, q, now) <==> ApprovalClear(a, q)
  {
  }

  /**
   The ceilings of every accepted snapshot are exact, reachable or not: a release commits if and only if it is signed
   by the pool's current key in its epoch, goes where it must, and is positive and at most the ceiling.
   */
  lemma AcceptedCeilings(w: World, n: Named, now: time, authority: Signer, r: Role, amount: u64, epoch: u64,
          destination: Addr, approval: Option<u64>, recipientRecord: Option<Key>)
    requires Verifies(w, n, now) && 0 <= w.terms.config.t0 && Tokens.Supply(w.tokens) <= U64_MAX
    ensures Step(w, now, Instruction.Release(authority, r, amount, epoch, destination, approval, recipientRecord)).Ok?
      <==> (w.registry.Lane(r).state.current == authority && w.registry.Lane(r).state.epoch == epoch
            && Suitable(w, now, r, destination, approval, recipientRecord) && 0 < amount <= Ceiling(w, now, r))
  {
    hide Reviewable, GovernanceVerifies, AccountingVerifies, WithdrawalVerifies, NamesVerify, Stands, ReleaseStep,
      Ceiling, Suitable, Tokens.Supply;
    StandsFromReview(w, now);
    ReleaseExactly(w, now, authority, r, amount, epoch, destination, approval, recipientRecord);
  }
}
