/**
 The offline verifier accepts a reachable active state, at every later time, exactly when one key deposited both
 pools, one recipient was ever approved, and the accounts the snapshot names show all tokens where they were paid.
 */
module Acceptance {
  import opened Basics
  import opened State
  import opened Capacity
  import opened Launch
  import opened Invariant
  import opened Safety
  import opened Projection
  import opened Ceilings
  import opened Review
  import opened ControlReview
  import opened Snapshot
  import Withdrawal
  import Tombstones
  import RegistryProofs
  import Control
  import Authority
  import Tokens

  /* ---- Withdrawal histories ---- */

  lemma LaneReachable(t: Terms, r: Role, lane: Lane, at: i64, now: time)
    requires Tombstones.LaneOk(t, r, lane, at) && at <= now
    ensures LaneVerifies(t.Owner(r), t.config.Guardians(r), r, lane, at, now)
  {
    hide Tombstones.Accepted, Tombstones.Replay;
  }

  /** Every stored record shows exactly the marks that replaying both roles leaves. */
  lemma RecordsReachable(t: Terms, reg: Registry, at: i64, k: Key)
    requires Tombstones.RegistryInv(t, reg, at) && k in reg.keys
    ensures var marks := MarkAll(MarkAll(map[], Founder, Tombstones.History(reg.founder)), Treasury,
        Tombstones.History(reg.treasury));
      RecordPasses(k, reg.keys[k], marks, reg.approvals)
  {
    var fs, ts := Tombstones.History(reg.founder), Tombstones.History(reg.treasury);
    assert Tombstones.LaneInv(t, reg, Founder, at) && Tombstones.LaneInv(t, reg, Treasury, at);
    assert Tombstones.Indexed(k, reg.keys[k], Founder, Tombstones.LaneFold(t.founder, reg.founder));
    assert Tombstones.Indexed(k, reg.keys[k], Treasury, Tombstones.LaneFold(t.treasury, reg.treasury));
    assert reg.keys[k].recipient <==> Tombstones.Approved(reg.approvals, k) by {
      RegistryProofs.RecipientExactly(t, reg, at, k);
    }
    hide Tombstones.LaneInv, Tombstones.ApprovalsInv, MarkAll;
    MarksMatchReplay(map[], t.founder, t.config.founderGuardians, Founder, fs, at, k) by {
      assert Tombstones.LaneInv(t, reg, Founder, at);
    }
    MarksMatchReplay(MarkAll(map[], Founder, fs), t.treasury, t.config.treasuryGuardians, Treasury, ts, at, k);
  }

  lemma CollisionsReachable(t: Terms, reg: Registry, r: Role, at: i64, now: time, p: u64, i: nat)
    requires Tombstones.LaneInv(t, reg, r, at) && p in reg.approvals && i < |Tombstones.History(reg.Lane(r))|
    requires reg.approvals[p].createdAt <= now
    ensures CollisionFree(reg.approvals[p], Tombstones.History(reg.Lane(r))[i], now)
  {
    hide Tombstones.IndexOk, Tombstones.StateMatches, Tombstones.Finished;
    RegistryProofs.LaneOutcome(t, r, reg.Lane(r), at, i);
    assert Tombstones.RecipientClear(reg.approvals[p], Tombstones.History(reg.Lane(r))[i]);
    if r == Treasury {
      assert Tombstones.OutsidePause(reg.approvals[p], Tombstones.History(reg.Lane(r))[i]);
    }
  }

  lemma ApprovalFacts(t: Terms, reg: Registry, at: i64, now: time, p: u64)
    requires Tombstones.RegistryInv(t, reg, at) && at <= now && p in reg.approvals
    ensures ApprovalCounters(t, reg.approvals[p], p, at, now) && reg.approvals[p].createdAt <= now
    ensures Tombstones.AuthorOk(reg.approvals[p], Tombstones.LaneFold(t.treasury, reg.treasury))
  {
    hide Tombstones.LaneInv;
    assert Tombstones.ApprovalOk(t, reg.keys, reg.approvals[p], p, at);
  }

  lemma LaneCollisionFree(t: Terms, reg: Registry, r: Role, at: i64, now: time, p: u64)
    requires Tombstones.LaneInv(t, reg, r, at) && p in reg.approvals && reg.approvals[p].createdAt <= now
    ensures var qs := Tombstones.History(reg.Lane(r));
      forall i :: 0 <= i < |qs| ==> CollisionFree(reg.approvals[p], qs[i], now)
  {
    var qs := Tombstones.History(reg.Lane(r));
    hide Tombstones.LaneInv, CollisionFree;
    forall i | 0 <= i < |qs| ensures CollisionFree(reg.approvals[p], qs[i], now) {
      CollisionsReachable(t, reg, r, at, now, p, i);
    }
  }

  lemma JoinCollisionFree(a: Approval, fs: seq<Proposal>, ts: seq<Proposal>, now: time)
    requires forall i :: 0 <= i < |fs| ==> CollisionFree(a, fs[i], now)
    requires forall i :: 0 <= i < |ts| ==> CollisionFree(a, ts[i], now)
    ensures forall i :: 0 <= i < |fs + ts| ==> CollisionFree(a, (fs + ts)[i], now)
  {
    hide CollisionFree;
  }

  lemma ApprovalReachable(t: Terms, reg: Registry, at: i64, now: time, p: u64)
    requires Tombstones.RegistryInv(t, reg, at) && at <= now && p in reg.approvals
    ensures var fs, ts := Tombstones.History(reg.founder), Tombstones.History(reg.treasury);
      ApprovalPasses(t, reg.keys, reg.approvals[p], p, Tombstones.Replay(t.treasury, ts), fs + ts, at, now)
  {
    assert Tombstones.LaneInv(t, reg, Founder, at) && Tombstones.LaneInv(t, reg, Treasury, at);
    var fs, ts := Tombstones.History(reg.founder), Tombstones.History(reg.treasury);
    hide Tombstones.RegistryInv, Tombstones.LaneInv, CollisionFree, ApprovalCounters, Withdrawal.EligibleRecipient,
      Tombstones.AuthorOk;
    ApprovalFacts(t, reg, at, now, p);
    RegistryProofs.RecipientStaysEligible(t, reg, at, p);
    LaneCollisionFree(t, reg, Founder, at, now, p);
    LaneCollisionFree(t, reg, Treasury, at, now, p);
    JoinCollisionFree(reg.approvals[p], fs, ts, now);
  }

  /** Replaying the permanent histories of any reachable registry, as the verifier does, succeeds. */
  lemma ReachableWithdrawalVerifies(t: Terms, reg: Registry, at: i64, now: time)
    requires Tombstones.RegistryInv(t, reg, at) && at <= now && Registration(t)
    ensures WithdrawalVerifies(t, reg, at, now)
  {
    hide LaneVerifies, RecordPasses, ApprovalPasses, Registration, MarkAll, Tombstones.Accepted, Tombstones.Replay,
      Tombstones.StateMatches, Tombstones.Tombstones, Tombstones.LaneClear, Tombstones.LaneUnpaused;
    var fs, ts := Tombstones.History(reg.founder), Tombstones.History(reg.treasury);
    assert Tombstones.LaneInv(t, reg, Founder, at) && Tombstones.LaneInv(t, reg, Treasury, at);
    LaneReachable(t, Founder, reg.founder, at, now);
    LaneReachable(t, Treasury, reg.treasury, at, now);
    forall k | k in reg.keys ensures RecordPasses(k, reg.keys[k], MarkAll(MarkAll(map[], Founder, fs), Treasury, ts),
        reg.approvals) {
      RecordsReachable(t, reg, at, k);
    }
    forall p | p in reg.approvals
      ensures ApprovalPasses(t, reg.keys, reg.approvals[p], p, Tombstones.Replay(t.treasury, ts), fs + ts, at, now)
    {
      ApprovalReachable(t, reg, at, now, p);
    }
  }

  /* ---- Accounting ---- */

  /** One vault against the policy, as the verifier checks it. */
  predicate VaultVerifies(w: World, r: Role) {
    && r in w.vaults && VaultToken(r) in w.tokens
    && var c, b, v := w.terms.config, w.books, w.vaults[r];
    var annual := AnnualCapOf(c.rules.At(b.annualIndex), r);
    var used := if v.period == b.period then v.periodUsed else 0;
    && v.role == r && v.authority == w.terms.Owner(r)
    && v.principal == c.amount.Get(r) && v.releasedTotal == b.released.Get(r)
    && v.releasedTotal <= v.principal && v.period <= b.period
    && used == b.periodUsed.Get(r) && v.periodUsed <= v.releasedTotal
    && used <= Min(c.periodCap.Get(r), annual / 12)
    && used <= b.annualUsed.Get(r) <= Min(annual, v.releasedTotal)
    && (r.Founder? && v.releasedTotal > 0 ==> v.period >= 6)
    && w.tokens[VaultToken(r)].owner == VaultAuthority(r)
    && w.tokens[VaultToken(r)].amount >= v.principal - v.releasedTotal
  }

  predicate RuleVerifies(c: Config, rule: Rule) {
    && rule.startPeriod < rule.endPeriod && rule.releaseBps <= 500 && rule.sourceHash != 0
    && rule.basis.founder <= c.amount.founder && rule.basis.treasury <= c.amount.treasury
    && rule.sharedCap <= AnnualCapOf(rule, Founder) + AnnualCapOf(rule, Treasury)
    && c.t0 + rule.endPeriod * PERIOD <= I64_MAX
  }

  predicate ConfigVerifies(c: Config, supply: u64) {
    && c.amount.founder > 0 && c.amount.treasury > 0 && c.amount.founder + c.amount.treasury <= supply
    && 0 < c.periodCap.founder <= c.amount.founder && 0 < c.periodCap.treasury <= c.amount.treasury
    && c.sharedHardCap > 0 && 1 <= c.maxReportAge <= 7 * 86_400 && c.t0 + CLIFF <= I64_MAX
    && c.rules.first.startPeriod == 0 && c.rules.first.endPeriod == c.rules.second.startPeriod
    && RuleVerifies(c, c.rules.first) && RuleVerifies(c, c.rules.second)
  }

  predicate ReportVerifies(w: World, now: time) {
    var c, r := w.terms.config, w.gov.report;
    && r.at <= w.lastActionAt && r.period <= (now - c.t0) / PERIOD
    && (if r.sequence != 0 then c.t0 + r.period * PERIOD <= r.at < c.t0 + r.period * PERIOD + PERIOD
        else r.at == 0 && r.period == 0 && r.capacity == 0)
  }

  predicate ApprovalSpending(w: World, a: Approval, now: time) {
    && (a.consumed > 0 ==> now >= a.createdAt + PERIOD && a.period <= w.books.period)
    && (a.period == w.books.period ==> a.consumed == w.books.periodUsed.treasury)
  }

  /** The counters of the policy itself. */
  predicate BooksVerify(w: World, now: time) {
    var c, b := w.terms.config, w.books;
    && b.period <= (now - c.t0) / PERIOD
    && b.annualIndex <= 1 && Covers(c.rules.At(b.annualIndex), b.period)
    && b.sharedUsed == b.periodUsed.founder + b.periodUsed.treasury <= c.sharedHardCap
    && b.annualUsed.founder + b.annualUsed.treasury <= c.rules.At(b.annualIndex).sharedCap
  }

  /** Every stored counter agrees with every other, and with the configuration. */
  ghost predicate AccountingVerifies(w: World, now: time) {
    var c, b := w.terms.config, w.books;
    && w.phase == Active && w.funded == Mask(true, true) && w.terms.specHash != 0 && w.gov.oracle != Default
    && c.t0 <= w.lastActionAt <= now && BooksVerify(w, now)
    && w.terms.mint.mintAuthority.None? && w.terms.mint.freezeAuthority.None?
    && ConfigVerifies(c, w.terms.mint.supply)
    && VaultVerifies(w, Founder) && VaultVerifies(w, Treasury)
    && Tokens.Sum(w.registry.approvals, ConsumedOf) == b.released.treasury
    && (forall p :: p in w.registry.approvals ==> ApprovalSpending(w, w.registry.approvals[p], now))
    && ReportVerifies(w, now)
    && !ProjectedLimits(w, now).NegativeAccounting?
  }

  const PROPOSALS: nat := 256
  const APPROVALS: nat := 64

  /** A history that the review takes on. */
  predicate Reviewable(w: World) {
    && w.gov.changeSequence <= PROPOSALS
    && w.registry.founder.state.sequence <= PROPOSALS && w.registry.treasury.state.sequence <= PROPOSALS
    && w.registry.approvalCount <= APPROVALS
  }

  /** A snapshot of the world that shows the named token accounts passes every check. */
  ghost predicate Verifies(w: World, n: Named, now: time) {
    && Reviewable(w)
    && GovernanceVerifies(w.terms, w.gov, w.lastActionAt, now)
    && AccountingVerifies(w, now)
    && WithdrawalVerifies(w.terms, w.registry, w.lastActionAt, now)
    && NamesVerify(w, n, Authority.KeysOf(w, Founder))
  }

  lemma VaultReachable(w: World, r: Role)
    requires TermsOk(w.terms) && LedgerInv(w) && w.phase == Active
    ensures VaultVerifies(w, r) && w.funded.Has(r)
  {
    hide SpendingInv, TermsOk, Tokens.Supply;
    if r.Founder? {} else {}
  }

  /** The replayed oracle is never the default key. */
  lemma {:induction false} OracleNotDefault(oracle: Key, creator: Key, qs: seq<Change>, at: i64)
    requires Control.Accepted(oracle, creator, qs, at) && oracle != Default
    ensures Control.Replay(oracle, creator, qs).oracle != Default
  {
    if qs != [] {
      OracleNotDefault(oracle, creator, qs[..|qs| - 1], at);
    }
  }

  lemma ReportReachable(w: World, now: time)
    requires Control.ReportOk(w.terms.config, w.gov, w.lastActionAt) && 0 <= w.terms.config.t0 <= w.lastActionAt <= now
    ensures ReportVerifies(w, now)
  {
    var c, r := w.terms.config, w.gov.report;
    if r.sequence > 0 {
      PeriodContains(c.t0, r.at, r.period);
    }
  }

  lemma SpendingReachable(w: World, now: time)
    requires SpendingInv(w) && w.lastActionAt <= now
    ensures Tokens.Sum(w.registry.approvals, ConsumedOf) == w.books.released.treasury
    ensures forall p :: p in w.registry.approvals ==> ApprovalSpending(w, w.registry.approvals[p], now)
  {
    forall p | p in w.registry.approvals ensures ApprovalSpending(w, w.registry.approvals[p], now) {
      assert ApprovalSpent(w, w.registry.approvals[p]);
    }
  }

  lemma OracleReachable(w: World)
    requires TermsOk(w.terms) && Control.ControlInv(w.terms, w.gov, w.lastActionAt)
    ensures w.gov.oracle != Default
  {
    hide Control.ReportOk;
    OracleNotDefault(w.terms.oracle, w.terms.creator, Control.History(w.gov), w.lastActionAt);
  }

  lemma BooksReachable(w: World, now: time)
    requires TermsOk(w.terms) && LedgerInv(w) && w.phase == Active && w.lastActionAt <= now
    ensures BooksVerify(w, now) && w.terms.config.t0 <= w.lastActionAt
  {
    hide PoolInv, VaultInv, CustodyInv, SpendingInv, Tokens.Supply, TermsOk;
  }

  lemma TermsReachable(t: Terms)
    requires TermsOk(t)
    ensures t.specHash != 0 && t.mint.mintAuthority.None? && t.mint.freezeAuthority.None?
    ensures ConfigVerifies(t.config, t.mint.supply)
    ensures Registration(t) && ValidCommittee(t.config.recoveryKeys)
  {
  }

  lemma AccountingReachable(w: World, now: time)
    requires Inv(w) && w.phase == Active && w.lastActionAt <= now
    ensures AccountingVerifies(w, now)
  {
    ActiveParts(w);
    ProjectionMatches(w, now);
    assert Control.ControlInv(w.terms, w.gov, w.lastActionAt) && SpendingInv(w);
    hide Inv, TermsOk, LedgerInv, Control.ControlInv, Control.ReportOk, SpendingInv, VaultVerifies, ConfigVerifies,
      ReportVerifies, Tombstones.RegistryInv, ApprovalSpending, ProjectedLimits, WindowLimits, SameLimits;
    TermsReachable(w.terms);
    VaultReachable(w, Founder);
    VaultReachable(w, Treasury);
    BooksReachable(w, now);
    ReportReachable(w, now);
    SpendingReachable(w, now);
    OracleReachable(w);
  }

  /**
   When the verifier accepts: one key deposited both pools, every approval named one recipient, the source and the
   destination are those two keys' accounts, the destinations hold exactly what the run paid, the founder's under its
   own keys, no other account of the mint holds anything, and the histories are short enough to review.
   */
  ghost predicate Acceptable(w: World, events: seq<Event>, n: Named) {
    var w' := Run(w, events);
    && w'.gov.changeSequence <= 256 && w'.registry.approvalCount <= 64
    && w'.registry.founder.state.sequence <= 256 && w'.registry.treasury.state.sequence <= 256
    && Separate(w', n) && SingleDepositor(w') && SingleRecipient(w') && Held(w', n)
    && Settled(w', n, Authority.KeysOf(w', Founder), Paid(w, events, Founder), Paid(w, events, Treasury))
  }

  /** In every active state of every run the verifier, run at any later time, accepts exactly these snapshots. */
  lemma ReachableVerifies(w: World, events: seq<Event>, n: Named, now: time)
    requires Genesis(w) && Run(w, events).phase == Active && Run(w, events).lastActionAt <= now
    ensures Verifies(Run(w, events), n, now) <==> Acceptable(w, events, n)
  {
    hide Inv, Genesis, Run, Paid, Tokens.Supply, Tombstones.RegistryInv, GovernanceVerifies, WithdrawalVerifies,
      AccountingVerifies, NamesVerify, Settled, Held, SingleDepositor, SingleRecipient, Separate;
    assert events[..|events|] == events;
    Reached(w, events, |events|);
    PaidIsReleased(w, events, Founder);
    PaidIsReleased(w, events, Treasury);
    var w' := Run(w, events);
    StateVerifies(w', now);
    ActiveVaults(w');
    NamesExactly(w', n, Authority.KeysOf(w', Founder));
  }

  /** No snapshot of a policy with two depositors, or with two approved recipients, is ever accepted. */
  lemma MixedNeverVerifies(w: World, events: seq<Event>, n: Named, now: time)
    requires Genesis(w) && !(SingleDepositor(Run(w, events)) && SingleRecipient(Run(w, events)))
    ensures !Verifies(Run(w, events), n, now)
  {
    hide Genesis, Run, SingleDepositor, SingleRecipient;
    var w' := Run(w, events);
    if Verifies(w', n, now) {
      ReachableVerifies(w, events, n, now);
    }
  }

  lemma ActiveVaults(w: World)
    requires Inv(w) && w.phase == Active
    ensures Founder in w.vaults && Treasury in w.vaults
  {
    hide TermsOk, SpendingInv, AuthorityInv, BooksInv, Tokens.Supply;
  }

  lemma StateVerifies(w: World, now: time)
    requires Inv(w) && w.phase == Active && w.lastActionAt <= now
    ensures AccountingVerifies(w, now) && GovernanceVerifies(w.terms, w.gov, w.lastActionAt, now)
    ensures WithdrawalVerifies(w.terms, w.registry, w.lastActionAt, now)
  {
    AccountingReachable(w, now);
    hide LedgerInv, AccountingVerifies, GovernanceVerifies, WithdrawalVerifies, Tombstones.RegistryInv,
      Control.ControlInv;
    ReachableGovernanceVerifies(w.terms, w.gov, w.lastActionAt, now);
    ReachableWithdrawalVerifies(w.terms, w.registry, w.lastActionAt, now);
  }

  /* ---- The review as it runs ---- */

  method SumConsumed(approvals: map<u64, Approval>) returns (total: nat)
    ensures total == Tokens.Sum(approvals, ConsumedOf)
  {
    total := 0;
    var rest := approvals;
    while rest != map[]
      invariant total + Tokens.Sum(rest, ConsumedOf) == Tokens.Sum(approvals, ConsumedOf)
      decreases |rest|
    {
      var p :| p in rest;
      Tokens.SumWithout(rest, ConsumedOf, p);
      total := total + rest[p].consumed;
      rest := rest - {p};
    }
  }

  method VerifyAccounting(w: World, now: time) returns (ok: bool)
    ensures ok <==> AccountingVerifies(w, now)
  {
    hide ConfigVerifies, BooksVerify, VaultVerifies, ReportVerifies, ApprovalSpending, ProjectedLimits, Tokens.Sum;
    if w.phase != Active || w.funded != Mask(true, true) || w.terms.specHash == 0 || w.gov.oracle == Default {
      return false;
    }
    if !(w.terms.config.t0 <= w.lastActionAt <= now) || w.terms.mint.mintAuthority.Some?
       || w.terms.mint.freezeAuthority.Some? {
      return false;
    }
    if !ConfigVerifies(w.terms.config, w.terms.mint.supply) || !BooksVerify(w, now) { return false; }
    if !VaultVerifies(w, Founder) || !VaultVerifies(w, Treasury) { return false; }
    var consumed := SumConsumed(w.registry.approvals);
    if consumed != w.books.released.treasury { return false; }
    if exists p :: p in w.registry.approvals && !ApprovalSpending(w, w.registry.approvals[p], now) { return false; }
    ok := ReportVerifies(w, now) && !ProjectedLimits(w, now).NegativeAccounting?;
  }

  /** Reviews a snapshot and, if it stands, reports the release ceilings of both pools. */
  method Verify(w: World, n: Named, now: time) returns (ceilings: Option<Pair>)
    ensures ceilings
      == if Verifies(w, n, now) then Some(Pair(Ceiling(w, now, Founder), Ceiling(w, now, Treasury))) else None
  {
    hide GovernanceVerifies, AccountingVerifies, Ceiling, NamesVerify, LaneVerifies, RecordPasses, ApprovalPasses;
    if !Reviewable(w) { return None; }
    var governance := VerifyGovernance(w.terms, w.gov, w.lastActionAt, now);
    if !governance { return None; }
    var accounting := VerifyAccounting(w, now);
    if !accounting { return None; }
    var withdrawal, founderKeys := VerifyWithdrawal(w.terms, w.registry, w.lastActionAt, now);
    if !withdrawal { return None; }
    assert founderKeys == Authority.KeysOf(w, Founder);
    var names := VerifyNames(w, n, founderKeys);
    if !names { return None; }
    return Some(Pair(Ceiling(w, now, Founder), Ceiling(w, now, Treasury)));
  }
}
