/**
 Every run of the launch vault is accepted by the first-come kernel, with equal shared and per-vault counters
 throughout.
 */
module FirstComeRuns {
  import opened Basics
  import opened State
  import opened Capacity
  import opened Launch
  import opened Invariant
  import opened Safety
  import Withdrawal
  import Control
  import Tokens
  import Authority
  import F = FirstCome

  function FreshVault(t: Terms, r: Role): Vault { Vault(t.creator, t.Owner(r), r, t.config.amount.Get(r), 0, 0, 0) }

  /** The first-come kernel of a policy on which nothing has happened. */
  function Start(t: Terms): F.Pools { F.Pools(0, 0, F.Observation(0, 0, 0, 0), 0, FreshVault(t, Founder),
      FreshVault(t, Treasury)) }

  predicate SameCounters(v: Vault, v': Vault) {
    v.role == v'.role && v.principal == v'.principal && v.releasedTotal == v'.releasedTotal
    && v.period == v'.period && v.periodUsed == v'.periodUsed
  }

  predicate SameVault(w: World, p: F.Pools, r: Role) {
    SameCounters(p.Of(r), if r in w.vaults then w.vaults[r] else FreshVault(w.terms, r))
  }

  /** Equal counters and the same last report; the first-come kernel's clock only sees its own actions. */
  predicate Match(w: World, p: F.Pools) {
    && p.period == w.books.period && p.sharedUsed == w.books.sharedUsed && p.lastActionAt <= w.lastActionAt
    && p.observation == F.Observation(w.gov.report.period, w.gov.report.capacity, w.gov.report.at,
        w.gov.report.sequence)
    && SameVault(w, p, Founder) && SameVault(w, p, Treasury)
  }

  /** The first-come action of a committed event: reports and releases act, nothing else does. */
  function ActionFor(w: World, e: Event): Option<F.Action> {
    if Apply(w, e).Err? || !e.Invoke? then None
    else
      match e.instruction
      case ReportCapacity(_, capacity, observedAt, sequence, _) =>
        Some(F.DoReport(capacity, observedAt, sequence, e.now))
      case Release(_, r, amount, _, _, _, _) => Some(F.DoRelease(r, amount, e.now))
      case _ => None
  }

  lemma ReportMatches(w: World, e: Event, p: F.Pools)
    requires Inv(w) && Match(w, p) && Apply(w, e).Ok? && e.Invoke? && e.instruction.ReportCapacity?
    ensures ActionFor(w, e).Some? && F.Act(w.terms.config, p, ActionFor(w, e).value).Ok?
    ensures Match(Apply(w, e).value, F.Act(w.terms.config, p, ActionFor(w, e).value).value)
  {
    hide Inv;
  }

  /** What a committed release did to the counters, and what bounded it. */
  lemma ReleaseCounters(w: World, e: Event)
    requires Inv(w) && Apply(w, e).Ok? && e.Invoke? && e.instruction.Release?
    ensures var w', c, i, now := Apply(w, e).value, w.terms.config, e.instruction, e.now;
      var r := i.role;
      && r in w.vaults && r in w'.vaults && w'.vaults == w.vaults[r := w'.vaults[r]] && w'.terms == w.terms
      && w'.gov == w.gov
      && w'.lastActionAt == now >= w.lastActionAt
      && i.amount > 0 && c.t0 < now && PeriodAt(c.t0, now) == Ok(w'.books.period) && w.books.period <= w'.books.period
      && CheckReport(c, w.gov, w'.books.period, now).Pass? && (r.Founder? ==> c.t0 + CLIFF <= now)
      && VaultAgrees(c, w.books, w.vaults[r]) && VaultAgrees(c, w.books, OtherVault(w, r)) && w.vaults[r].role == r
      && Drawn(c, w.books, w.vaults[r], w.gov.report.capacity, i.amount, w'.books, w'.vaults[r])
      && w'.books.sharedUsed == w'.books.periodUsed.founder + w'.books.periodUsed.treasury
      && w.books.sharedUsed == w.books.periodUsed.founder + w.books.periodUsed.treasury
      && w'.books.released.Get(r) <= c.amount.Get(r) && c.t0 + CLIFF <= I64_MAX
      && w'.books.periodUsed.Get(r) <= c.periodCap.Get(r)
  {
    hide Consume, AuthorizeRelease, Tokens.Transfer, AuthorityInv, LedgerInv, TermsOk, CheckReport, Drawn, VaultAgrees,
      BooksInv;
    var i, now := e.instruction, e.now;
    TickKeeps(w, now);
    var ticked := Tick(w, now).value;
    CliffFits(w.terms);
    ReleaseAuthorized(ticked, now, i.authority, i.role, i.amount, i.authorityEpoch, i.destination, i.approval,
        i.recipientRecord);
    ConsumeVaults(ticked, now, i.role, i.amount);
    VaultsAgree(w, i.role);
    BooksSum(w.terms, w.books, i.role) by { LedgerParts(w); }
    BooksSum(w.terms, Apply(w, e).value.books, i.role);
  }

  function OtherVault(w: World, r: Role): Vault {
    if r.Other() in w.vaults then w.vaults[r.Other()] else FreshVault(w.terms, r.Other())
  }

  lemma LedgerParts(w: World)
    requires Inv(w)
    ensures TermsOk(w.terms) && BooksInv(w.terms.config, w.books)
  {
  }

  lemma VaultsAgree(w: World, r: Role)
    requires Inv(w) && w.phase == Active
    ensures r in w.vaults && r.Other() in w.vaults && w.vaults[r].role == r
    ensures VaultAgrees(w.terms.config, w.books, w.vaults[r])
    ensures VaultAgrees(w.terms.config, w.books, w.vaults[r.Other()])
  {
    hide VaultAgrees, BooksInv, AuthorityInv, TermsOk, SpendingInv;
    assert VaultInv(w, Founder) && VaultInv(w, Treasury);
    if r.Founder? {} else {}
  }

  lemma BooksSum(t: Terms, b: Books, r: Role)
    requires TermsOk(t) && BooksInv(t.config, b)
    ensures b.sharedUsed == b.periodUsed.founder + b.periodUsed.treasury
    ensures b.released.Get(r) <= t.config.amount.Get(r) && b.periodUsed.Get(r) <= t.config.periodCap.Get(r)
    ensures t.config.t0 + CLIFF <= I64_MAX
  {
    hide Entitlement;
    if r.Founder? {} else {}
  }

  /** The reserved-quota kernel's draw is a first-come release with the same counters. */
  lemma DrawnIsFirstCome(c: Config, b: Books, v: Vault, reportCapacity: u64, amount: u64, b': Books, v': Vault,
          p: F.Pools, now: time)
    requires var r := v.role;
      && Drawn(c, b, v, reportCapacity, amount, b', v') && VaultAgrees(c, b, v) && amount > 0
      && p.period == b.period && p.sharedUsed == b.sharedUsed && SameCounters(p.Of(r), v) && p.lastActionAt <= now
      && b.sharedUsed == b.periodUsed.founder + b.periodUsed.treasury
      && b'.sharedUsed == b'.periodUsed.founder + b'.periodUsed.treasury
      && c.t0 < now && PeriodAt(c.t0, now) == Ok(b'.period) && b.period <= b'.period && c.t0 + CLIFF <= I64_MAX
      && (r.Founder? ==> c.t0 + CLIFF <= now)
      && b'.released.Get(r) <= c.amount.Get(r) && b'.periodUsed.Get(r) <= c.periodCap.Get(r)
      && p.observation.sequence > 0 && p.observation.period == b'.period && p.observation.at <= now
      && now - p.observation.at <= c.maxReportAge && p.observation.capacity == reportCapacity
    ensures var result := F.Release(c, p, v.role, amount, now);
      && result.Ok? && result.value.period == b'.period && result.value.sharedUsed == b'.sharedUsed
      && result.value.lastActionAt == now && result.value.observation == p.observation
      && SameCounters(result.value.Of(v.role), v') && result.value.Of(v.role.Other()) == p.Of(v.role.Other())
  {
    hide PeriodAt, F.Enter, F.Cap, F.Draw, Drawn, VaultAgrees;
    var later := p.(lastActionAt := now);
    assert F.Enter(c, later, v.role, amount, now) == Ok(b'.period) by {
      EntersAlike(c, b, v, later, b'.period, amount, now);
    }
    assert F.Cap(c, v.role, now) == Ok(c.periodCap.Get(v.role)) by {
      CapAlike(c, v.role, now);
    }
    DrawsAlike(c, b, v, reportCapacity, amount, b', v', later);
  }

  lemma EntersAlike(c: Config, b: Books, v: Vault, p: F.Pools, period: u64, amount: u64, now: time)
    requires amount > 0 && c.t0 < now && PeriodAt(c.t0, now) == Ok(period) && b.period <= period
    requires p.period == b.period && SameCounters(p.Of(v.role), v) && VaultAgrees(c, b, v)
    requires p.observation.sequence > 0 && p.observation.period == period && p.observation.at <= now
    requires now - p.observation.at <= c.maxReportAge
    ensures F.Enter(c, p, v.role, amount, now) == Ok(period)
  {
    hide PeriodAt;
  }

  lemma CapAlike(c: Config, r: Role, now: time)
    requires c.t0 + CLIFF <= I64_MAX && c.t0 < now && (r.Founder? ==> c.t0 + CLIFF <= now)
    ensures F.Cap(c, r, now) == Ok(c.periodCap.Get(r))
  {
  }

  lemma DrawsAlike(c: Config, b: Books, v: Vault, reportCapacity: u64, amount: u64, b': Books, v': Vault, p: F.Pools)
    requires var r := v.role;
      && Drawn(c, b, v, reportCapacity, amount, b', v') && VaultAgrees(c, b, v) && b.period <= b'.period
      && p.period == b.period && p.sharedUsed == b.sharedUsed && SameCounters(p.Of(r), v)
      && b.sharedUsed == b.periodUsed.founder + b.periodUsed.treasury
      && b'.sharedUsed == b'.periodUsed.founder + b'.periodUsed.treasury
      && b'.released.Get(r) <= c.amount.Get(r) && b'.periodUsed.Get(r) <= c.periodCap.Get(r)
      && p.observation.capacity == reportCapacity
    ensures var result := F.Draw(c, p, v.role, amount, b'.period, c.periodCap.Get(v.role));
      && result.Ok? && result.value.period == b'.period && result.value.sharedUsed == b'.sharedUsed
      && result.value.lastActionAt == p.lastActionAt && result.value.observation == p.observation
      && SameCounters(result.value.Of(v.role), v') && result.value.Of(v.role.Other()) == p.Of(v.role.Other())
  {
    if v.role.Founder? {} else {}
  }

  lemma ReleaseMatches(w: World, e: Event, p: F.Pools)
    requires Inv(w) && Match(w, p) && Apply(w, e).Ok? && e.Invoke? && e.instruction.Release?
    ensures ActionFor(w, e).Some? && F.Act(w.terms.config, p, ActionFor(w, e).value).Ok?
    ensures Match(Apply(w, e).value, F.Act(w.terms.config, p, ActionFor(w, e).value).value)
  {
    hide Inv, Apply, Drawn, VaultAgrees, F.Release;
    ReleaseCounters(w, e);
    var w', i := Apply(w, e).value, e.instruction;
    DrawnIsFirstCome(w.terms.config, w.books, w.vaults[i.role], w.gov.report.capacity, i.amount, w'.books,
        w'.vaults[i.role], p, e.now);
    if i.role.Founder? {} else {}
  }

  /** Every other event leaves reports and counters alone. */
  lemma QuietMatches(w: World, e: Event, p: F.Pools)
    requires Inv(w) && Match(w, p) && Apply(w, e).Ok? && ActionFor(w, e).None?
    ensures Match(Apply(w, e).value, p)
  {
    hide Inv, Match, Step;
    QuietCounters(w, e);
    MatchFrame(w, Apply(w, e).value, p);
  }

  predicate SameMeters(w: World, w': World, r: Role) {
    SameCounters(if r in w.vaults then w.vaults[r] else FreshVault(w.terms, r),
        if r in w'.vaults then w'.vaults[r] else FreshVault(w'.terms, r))
  }

  lemma MatchFrame(w: World, w': World, p: F.Pools)
    requires Match(w, p) && w'.books == w.books && w'.lastActionAt >= w.lastActionAt
    requires w'.gov.report == w.gov.report.(valid := w'.gov.report.valid)
    requires SameMeters(w, w', Founder) && SameMeters(w, w', Treasury)
    ensures Match(w', p)
  {
  }

  lemma QuietCounters(w: World, e: Event)
    requires Inv(w) && Apply(w, e).Ok? && ActionFor(w, e).None?
    ensures var w' := Apply(w, e).value;
      && w'.books == w.books && w'.lastActionAt >= w.lastActionAt
      && w'.gov.report == w.gov.report.(valid := w'.gov.report.valid)
      && SameMeters(w, w', Founder) && SameMeters(w, w', Treasury)
  {
    hide Inv, Apply;
    if e.Invoke? && e.instruction.Deposit? {
      DepositCounters(w, e);
    } else {
      QuietFrame(w, e);
    }
  }

  lemma DepositCounters(w: World, e: Event)
    requires Apply(w, e).Ok? && e.Invoke? && e.instruction.Deposit?
    ensures var w' := Apply(w, e).value;
      && w'.books == w.books && w'.lastActionAt >= w.lastActionAt && w'.gov == w.gov
      && SameMeters(w, w', Founder) && SameMeters(w, w', Treasury)
  {
    hide Tokens.Transfer, Withdrawal.Authenticate;
  }

  lemma ExecuteMarksReport(g: Governance, nonce: u64, now: time)
    requires nonce in g.changes && Control.Execute(g, nonce, now).Ok?
    ensures var g' := Control.Execute(g, nonce, now).value; g'.report == g.report.(valid := g'.report.valid)
  {
  }

  lemma QuietFrame(w: World, e: Event)
    requires Apply(w, e).Ok?
    requires !e.Invoke? || (!e.instruction.Deposit? && !e.instruction.Release? && !e.instruction.ReportCapacity?)
    ensures var w' := Apply(w, e).value;
      && w'.books == w.books && w'.lastActionAt >= w.lastActionAt && w'.vaults == w.vaults && w'.terms == w.terms
      && w'.gov.report == w.gov.report.(valid := w'.gov.report.valid)
  {
    hide Tokens.Transfer, Withdrawal.Propose, Withdrawal.Execute, Withdrawal.Cancel, Withdrawal.Expire,
      Withdrawal.Approve, Withdrawal.Authenticate, Control.Propose, Control.Cancel, Control.Execute;
    if e.Invoke? {
      match e.instruction
      case ProposeChange(a, b, successor, kind, recovery, nonce) =>
        Authority.ProposeKeepsReport(w.terms.config.recoveryKeys, w.gov, a, b, successor, kind, recovery, nonce, e.now);
      case CancelChange(a, b, nonce) => Authority.CancelKeepsReport(w.terms.config.recoveryKeys, w.gov, nonce, a, b);
      case ExecuteChange(nonce) => ExecuteMarksReport(w.gov, nonce, e.now);
      case Arm(_) =>
      case Activate =>
      case CancelPolicy(_, _, _) =>
      case ExpireUnarmed =>
      case Refund(_, _, _) =>
      case ApproveTreasury(_, _, _, _, _) =>
      case PrepareWithdrawalKey(_) =>
      case ProposeWithdrawal(_) =>
      case ExecuteWithdrawal(_, _) =>
      case CancelWithdrawal(_, _, _, _) =>
      case ExpireWithdrawal(_, _) =>
    }
  }

  /* ---- Runs ---- */

  /** The first-come actions of a run, in order. */
  function Actions(w: World, events: seq<Event>): seq<F.Action>
    decreases |events|
  {
    if events == [] then []
    else
      var before := Actions(w, events[..|events| - 1]);
      match ActionFor(Run(w, events[..|events| - 1]), events[|events| - 1])
      case Some(a) => before + [a]
      case None => before
  }

  lemma GenesisMatches(w: World)
    requires Genesis(w)
    ensures Match(w, Start(w.terms)) && F.PoolsInv(w.terms.config, Start(w.terms))
  {
    hide Validate;
    var p, consent, tokens, now :| Safety.Admits(p, consent, tokens, now, w);
  }

  lemma ActionAppends(c: Config, p: F.Pools, actions: seq<F.Action>, a: F.Action)
    requires F.ActAll(c, p, actions).Ok?
    ensures F.ActAll(c, p, actions + [a]) == F.Act(c, F.ActAll(c, p, actions).value, a)
  {
    assert (actions + [a])[..|actions|] == actions;
  }

  /** The first-come kernel accepts the reports and releases of any run, and both kernels count the same. */
  lemma {:induction false} RunMatches(w: World, events: seq<Event>)
    requires Genesis(w)
    ensures var p := F.ActAll(w.terms.config, Start(w.terms), Actions(w, events));
      p.Ok? && Match(Run(w, events), p.value) && F.PoolsInv(w.terms.config, p.value)
    decreases |events|
  {
    hide Inv, Genesis, Match, Apply, ActionFor, F.Act, F.PoolsInv;
    GenesisMatches(w);
    if events != [] {
      var last, e := Run(w, events[..|events| - 1]), events[|events| - 1];
      RunMatches(w, events[..|events| - 1]);
      Reached(w, events, |events| - 1);
      var p := F.ActAll(w.terms.config, Start(w.terms), Actions(w, events[..|events| - 1])).value;
      EventMatches(last, e, p);
      if ActionFor(last, e).Some? {
        ActionAppends(w.terms.config, Start(w.terms), Actions(w, events[..|events| - 1]), ActionFor(last, e).value);
      }
      if F.ActAll(w.terms.config, Start(w.terms), Actions(w, events)).Ok? {
        F.SharedIsSum(w.terms.config, Start(w.terms), Actions(w, events));
      }
    }
  }

  lemma EventMatches(w: World, e: Event, p: F.Pools)
    requires Inv(w) && Match(w, p)
    ensures match ActionFor(w, e)
            case None => Match(Next(w, e), p)
            case Some(a) => F.Act(w.terms.config, p, a).Ok? && Match(Next(w, e), F.Act(w.terms.config, p, a).value)
  {
    hide Inv, Match, Apply, F.Act;
    if Apply(w, e).Ok? {
      if e.Invoke? && e.instruction.ReportCapacity? {
        ReportMatches(w, e, p);
      } else if e.Invoke? && e.instruction.Release? {
        ReleaseMatches(w, e, p);
      } else {
        QuietMatches(w, e, p);
      }
    }
  }
}
