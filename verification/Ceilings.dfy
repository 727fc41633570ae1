/** The release ceilings that the offline verifier reports are exact in every reachable active state. */
module Ceilings {
  import opened Basics
  import opened State
  import opened Capacity
  import opened Tokens
  import opened Launch
  import opened Invariant
  import opened Safety
  import opened Projection
  import Withdrawal
  import Tombstones
  import RegistryProofs
  import Control

  function PeriodOf(w: World, now: time): int { (now - w.terms.config.t0) / PERIOD }

  /** The treasury's approval of the current period, once its notice has passed. */
  predicate NoticePassed(w: World, now: time) {
    0 <= PeriodOf(w, now) <= U64_MAX && PeriodOf(w, now) in w.registry.approvals
    && now >= w.registry.approvals[PeriodOf(w, now)].createdAt + PERIOD
  }

  function Available(w: World, now: time): Pair {
    match ProjectedLimits(w, now)
    case Projected(_, _, _, _, _, _, _, _, _, _, available) => available
    case _ => NOTHING
  }

  /** The largest release of a pool before any signature is looked at. */
  function Ceiling(w: World, now: time, r: Role): int {
    if w.registry.Lane(r).state.pending != 0 then 0
    else if r.Founder? then Available(w, now).founder
    else if NoticePassed(w, now)
    then var a := w.registry.approvals[PeriodOf(w, now)]; Min(Available(w, now).treasury, a.need - a.consumed)
    else 0
  }

  /* ---- What the ceilings rest on ---- */

  /** A funded vault of an active policy. */
  predicate VaultStands(w: World, r: Role) {
    r in w.vaults && VaultOk(w.terms, w.books, w.vaults[r], r) && VaultToken(r) in w.tokens && Covered(w, r)
  }

  ghost predicate RegistryStands(w: World) {
    && Tombstones.LaneInv(w.terms, w.registry, Founder, w.lastActionAt)
    && Tombstones.LaneInv(w.terms, w.registry, Treasury, w.lastActionAt)
    && (forall p :: p in w.registry.approvals ==>
          Tombstones.ApprovalStands(w.terms, w.registry.keys, w.registry.approvals[p], p, w.lastActionAt))
  }

  /**
   What the reported ceilings rest on: an active policy whose counters, vaults, authority and report agree. It is a
   part of the invariant, and what the offline verifier's checks establish of any snapshot.
   */
  ghost predicate Stands(w: World, now: time) {
    && ConfigOk(w.terms.config) && w.phase == Active && w.terms.config.t0 <= w.lastActionAt <= now
    && BooksStand(w.terms.config, w.books) && w.terms.config.t0 + w.books.period * PERIOD <= now
    && VaultStands(w, Founder) && VaultStands(w, Treasury)
    && RegistryStands(w) && Control.ReportOk(w.terms.config, w.gov, w.lastActionAt)
    && Supply(w.tokens) <= U64_MAX
  }

  lemma InvStands(w: World, now: time)
    requires Inv(w) && w.phase == Active && w.lastActionAt <= now
    ensures Stands(w, now)
  {
    hide Control.Accepted, Control.ControlMatches, Control.ReportOk, SpendingInv, Tombstones.LaneInv, ConfigOk, VaultOk,
      BooksInv, BooksStand, Supply;
    BooksParts(w.terms.config, w.books);
    assert VaultInv(w, Founder) && VaultInv(w, Treasury);
    forall p | p in w.registry.approvals
      ensures Tombstones.ApprovalStands(w.terms, w.registry.keys, w.registry.approvals[p], p, w.lastActionAt)
    {
      assert Tombstones.ApprovalOk(w.terms, w.registry.keys, w.registry.approvals[p], p, w.lastActionAt);
    }
  }

  /* ---- The kernel's side ---- */

  predicate LimitsAllow(l: Limits, r: Role, amount: int) {
    !l.correctionPause && l.window.periodUsed.Get(r) + amount <= l.quotas.Get(r)
  }

  lemma StandsPeriod(w: World, now: time)
    requires Stands(w, now)
    ensures 0 <= w.terms.config.t0 <= now && PeriodAt(w.terms.config.t0, now) == Ok(PeriodOf(w, now))
    ensures w.books.period <= PeriodOf(w, now)
  {
    hide BooksStand, VaultStands, RegistryStands, Control.ReportOk, Supply, RulesOk;
    PeriodContains(w.terms.config.t0, now, PeriodOf(w, now));
  }

  /** In an active state the kernel accepts a release exactly when limits exist and allow it. */
  lemma KernelExact(w: World, now: time, r: Role, amount: u64)
    requires Stands(w, now)
    ensures r in w.vaults && PeriodAt(w.terms.config.t0, now) == Ok(PeriodOf(w, now))
    ensures w.books.period <= PeriodOf(w, now)
    ensures w.vaults[r].period <= PeriodOf(w, now) && w.vaults[r].authority == w.terms.Owner(r)
    ensures var limits := WindowLimits(w.terms.config, w.books, w.gov.report.capacity, now);
      && (Consume(w.terms.config, w.books, w.vaults[r], w.gov.report.capacity, now, amount).Ok? <==>
          (limits.Ok? && LimitsAllow(limits.value, r, amount)))
      && (limits.Err? ==> ProjectedLimits(w, now).Blocked?)
      && (limits.Ok? && now < w.terms.config.t0 + CLIFF ==> limits.value.quotas.founder == 0)
  {
    hide BooksStand, Consume, WindowLimits, WindowOk, CapsAre, Covered, RegistryStands, Control.ReportOk, Supply;
    StandsPeriod(w, now);
    assert VaultStands(w, r) by {
      if r.Founder? {} else {}
    }
    ConsumeExact(w.terms.config, w.books, w.vaults[r], w.gov.report.capacity, now, amount);
    LimitsExist(w.terms.config, w.books, w.gov.report.capacity, now);
  }

  lemma RatesFit(w: World, now: time)
    requires Stands(w, now)
    ensures 0 <= w.terms.config.t0 <= now
    ensures w.terms.config.rules.first.releaseBps <= MAX_RELEASE_BPS
    ensures w.terms.config.rules.second.releaseBps <= MAX_RELEASE_BPS
  {
    hide BooksStand, VaultStands, RegistryStands, Control.ReportOk, Supply;
  }

  /** What the projection offers is what the limits leave. */
  lemma AvailableExact(w: World, now: time, r: Role, amount: u64)
    requires Stands(w, now) && amount > 0
    ensures var limits := WindowLimits(w.terms.config, w.books, w.gov.report.capacity, now);
      amount <= Available(w, now).Get(r) <==>
        (limits.Ok? && LimitsAllow(limits.value, r, amount) && Fresh(w, PeriodOf(w, now), now)
            && w.terms.config.t0 < now)
  {
    KernelExact(w, now, r, amount);
    var limits := WindowLimits(w.terms.config, w.books, w.gov.report.capacity, now);
    if limits.Ok? {
      RatesFit(w, now);
      hide ProjectedLimits, WindowLimits, Stands, Fresh;
      ProjectionIsLimits(w, now);
      ProjectionAvailable(w, now);
      if r.Founder? {} else {}
    }
  }

  /** When the projection offers anything, and how much. */
  lemma ProjectionAvailable(w: World, now: time)
    ensures var p := ProjectedLimits(w, now);
      p.Projected? ==>
        p.period == PeriodOf(w, now)
        && p.available == if Fresh(w, p.period, now) && !p.correctionPause && now > w.terms.config.t0
                          then Pair(p.quotas.founder - p.used.founder, p.quotas.treasury - p.used.treasury) else NOTHING
  {
    hide Quotas, CapOf, AnnualCapOf, Fresh;
  }

  /** A report that the release check accepts is the verifier's fresh report, and conversely. */
  lemma FreshIsCheckReport(w: World, now: time)
    requires 0 <= w.terms.config.t0 <= now && Control.ReportOk(w.terms.config, w.gov, w.lastActionAt)
    requires w.lastActionAt <= now
    ensures Fresh(w, PeriodOf(w, now), now)
      == CheckReport(w.terms.config, w.gov, (now - w.terms.config.t0) / PERIOD, now).Pass?
  {
  }

  /* ---- Exactness ---- */

  /** Where a release of this pool must go, and what it must bring. */
  predicate Suitable(w: World, now: time, r: Role, destination: Addr, approval: Option<u64>,
          recipientRecord: Option<Key>)
  {
    && destination in w.tokens
    && (r.Founder? ==>
          w.tokens[destination].owner == w.registry.founder.state.current && approval.None? && recipientRecord.None?)
    && (r.Treasury? ==>
          NoticePassed(w, now)
          && var a := w.registry.approvals[PeriodOf(w, now)];
          a.recipient == destination && a.recipientOwner == w.tokens[destination].owner
          && approval == Some(PeriodOf(w, now)) && recipientRecord == Some(a.recipientOwner))
  }

  lemma ActiveParts(w: World)
    requires Inv(w) && w.phase == Active
    ensures TermsOk(w.terms) && LedgerInv(w) && Control.ReportOk(w.terms.config, w.gov, w.lastActionAt)
    ensures Tombstones.RegistryInv(w.terms, w.registry, w.lastActionAt)
    ensures 0 <= w.terms.config.t0 <= w.lastActionAt
  {
    hide Tombstones.RegistryInv, SpendingInv, VaultInv, BooksInv, Control.Accepted, Control.ControlMatches,
      Control.ReportOk;
  }

  lemma BelowCeiling(w: World, now: time, r: Role, amount: u64)
    requires w.registry.Lane(r).state.pending == 0 && amount <= Available(w, now).Get(r)
    requires r.Treasury? ==> NoticePassed(w, now) && amount <= NeedLeft(w.registry, PeriodOf(w, now))
    ensures amount <= Ceiling(w, now, r)
  {
    hide Available;
  }

  /** What the treasury's approval of a period still allows. */
  function NeedLeft(reg: Registry, period: int): int {
    if 0 <= period <= U64_MAX && period in reg.approvals
    then reg.approvals[period].need - reg.approvals[period].consumed
    else 0
  }

  lemma SpendsNoticed(w: World, registry: Registry, period: u64, amount: u64, destination: Addr, owner: Key, now: time)
    requires Spends(w.registry, registry, period, amount, destination, owner, now) && period == PeriodOf(w, now)
    ensures NoticePassed(w, now) && amount <= NeedLeft(w.registry, PeriodOf(w, now))
  {
  }

  /** The stored report would let a release through now. */
  predicate ReportPasses(w: World, now: time) {
    0 <= PeriodOf(w, now) <= U64_MAX && CheckReport(w.terms.config, w.gov, PeriodOf(w, now), now).Pass?
  }

  /** What an authorized release may rely on, and what is left of its approval. */
  lemma Authorized(w: World, now: time, authority: Signer, r: Role, amount: u64, epoch: u64, destination: Addr,
          approval: Option<u64>, recipientRecord: Option<Key>)
    requires 0 <= w.terms.config.t0
    requires ReleaseStep(w, now, authority, r, amount, epoch, destination, approval, recipientRecord).Ok?
    ensures w.phase == Active && amount > 0 && w.terms.config.t0 < now
    ensures w.registry.Lane(r).state.pending == 0
    ensures w.registry.Lane(r).state.current == authority && w.registry.Lane(r).state.epoch == epoch
    ensures ReportPasses(w, now)
    ensures r.Treasury? ==> NoticePassed(w, now) && amount <= NeedLeft(w.registry, PeriodOf(w, now))
  {
    hide ReleaseStep, AuthorizeRelease, CheckReport, Spends, NoticePassed, NeedLeft, Consume, PeriodOf, PeriodAt,
      ReportPasses;
    ReleasePassed(w, now, authority, r, amount, epoch, destination, approval, recipientRecord);
    var ticked := w.(lastActionAt := now);
    ReleaseAuthorized(ticked, now, authority, r, amount, epoch, destination, approval, recipientRecord);
    var period := PeriodAt(w.terms.config.t0, now).value;
    PeriodPasses(w, now, period);
    if r.Treasury? {
      SpendsNoticed(w, AuthorizeRelease(ticked, now, authority, r, amount, epoch, destination, approval,
          recipientRecord).value, period, amount, destination, w.tokens[destination].owner, now);
    }
  }

  lemma PeriodPasses(w: World, now: time, period: u64)
    requires PeriodAt(w.terms.config.t0, now) == Ok(period)
    requires CheckReport(w.terms.config, w.gov, period, now).Pass?
    ensures period == PeriodOf(w, now) && ReportPasses(w, now)
  {
    hide CheckReport;
  }

  /** No release above its pool's ceiling is accepted, whatever it brings. */
  lemma CeilingBounds(w: World, now: time, authority: Signer, r: Role, amount: u64, epoch: u64, destination: Addr,
          approval: Option<u64>, recipientRecord: Option<Key>)
    requires Stands(w, now)
    requires ReleaseStep(w, now, authority, r, amount, epoch, destination, approval, recipientRecord).Ok?
    ensures 0 < amount <= Ceiling(w, now, r)
    ensures w.registry.Lane(r).state.current == authority && w.registry.Lane(r).state.epoch == epoch
  {
    hide Stands, ReleaseStep, Consume, AuthorizeRelease, Control.ReportOk, Fresh, CheckReport, Available, WindowLimits,
      Ceiling, NoticePassed, NeedLeft, LimitsAllow, PeriodOf, ReportPasses;
    StandsReport(w, now);
    Authorized(w, now, authority, r, amount, epoch, destination, approval, recipientRecord);
    ReleasePassed(w, now, authority, r, amount, epoch, destination, approval, recipientRecord);
    KernelExact(w, now, r, amount);
    AvailableExact(w, now, r, amount);
    ReportIsFresh(w, now);
    BelowCeiling(w, now, r, amount);
  }

  lemma StandsReport(w: World, now: time)
    requires Stands(w, now)
    ensures 0 <= w.terms.config.t0 <= now && w.terms.config.t0 + CLIFF <= I64_MAX && w.lastActionAt <= now
    ensures w.phase == Active && Control.ReportOk(w.terms.config, w.gov, w.lastActionAt) && RegistryStands(w)
  {
    hide BooksStand, VaultStands, RegistryStands, Control.ReportOk, Supply, RulesOk;
  }

  /** A committed release finds an active policy. */
  lemma ReleaseActive(w: World, now: time, authority: Signer, r: Role, amount: u64, epoch: u64, destination: Addr,
          approval: Option<u64>, recipientRecord: Option<Key>)
    requires Inv(w) && ReleaseStep(w, now, authority, r, amount, epoch, destination, approval, recipientRecord).Ok?
    ensures Stands(w, now)
  {
    hide Inv, ReleaseStep, Stands, TermsOk;
    TermsHold(w);
    CliffFits(w.terms);
    ReleasePassed(w, now, authority, r, amount, epoch, destination, approval, recipientRecord);
    Authorized(w, now, authority, r, amount, epoch, destination, approval, recipientRecord);
    InvStands(w, now);
  }

  lemma ReportIsFresh(w: World, now: time)
    requires 0 <= w.terms.config.t0 <= now && Control.ReportOk(w.terms.config, w.gov, w.lastActionAt)
    requires w.lastActionAt <= now && PeriodAt(w.terms.config.t0, now) == Ok(PeriodOf(w, now))
    ensures Fresh(w, PeriodOf(w, now), now) == CheckReport(w.terms.config, w.gov, PeriodOf(w, now), now).Pass?
    ensures Fresh(w, PeriodOf(w, now), now) == ReportPasses(w, now)
  {
    hide Fresh, CheckReport, Control.ReportOk;
    FreshIsCheckReport(w, now);
  }

  /** Every positive amount up to the ceiling is accepted from the current key, given where it must go. */
  lemma CeilingReached(w: World, now: time, authority: Signer, r: Role, amount: u64, destination: Addr,
          approval: Option<u64>, recipientRecord: Option<Key>)
    requires Stands(w, now) && 0 < amount <= Ceiling(w, now, r)
    requires w.registry.Lane(r).state.current == authority
    requires Suitable(w, now, r, destination, approval, recipientRecord)
    ensures ReleaseStep(w, now, authority, r, amount, w.registry.Lane(r).state.epoch, destination, approval,
        recipientRecord).Ok?
  {
    hide Consume, AuthorizeRelease, Transfer, Stands, CheckReport, Suitable, Ceiling, RegistryStands, PeriodOf,
      PeriodAt, NoticePassed;
    CeilingConditions(w, now, r, amount);
    StandsReport(w, now);
    SuitableLater(w, now, r, destination, approval, recipientRecord);
    CeilingAuthorizes(w, now, authority, r, amount, destination, approval, recipientRecord);
    KernelPays(w, now, r, amount, destination);
  }

  lemma SuitableLater(w: World, now: time, r: Role, destination: Addr, approval: Option<u64>,
          recipientRecord: Option<Key>)
    requires Suitable(w, now, r, destination, approval, recipientRecord)
    ensures destination in w.tokens && Suitable(w.(lastActionAt := now), now, r, destination, approval, recipientRecord)
  {
  }

  /** Everything a release asks of the state, apart from its signature and where it goes. */
  predicate Ready(w: World, now: time, r: Role, amount: u64) {
    && 0 <= w.terms.config.t0 < now && w.terms.config.t0 + CLIFF <= I64_MAX
    && r in w.vaults && w.vaults[r].authority == w.terms.Owner(r) && w.registry.Lane(r).state.pending == 0
    && PeriodAt(w.terms.config.t0, now) == Ok(PeriodOf(w, now)) && w.books.period <= PeriodOf(w, now)
    && w.vaults[r].period <= PeriodOf(w, now)
    && CheckReport(w.terms.config, w.gov, PeriodOf(w, now), now).Pass?
    && (r.Founder? ==> w.terms.config.t0 + CLIFF <= now)
    && (r.Treasury? ==>
          (NoticePassed(w, now)
           && amount <= w.registry.approvals[PeriodOf(w, now)].need - w.registry.approvals[PeriodOf(w, now)].consumed))
    && Consume(w.terms.config, w.books, w.vaults[r], w.gov.report.capacity, now, amount).Ok?
  }

  /** A positive amount within the ceiling is one for which the state is ready. */
  lemma CeilingConditions(w: World, now: time, r: Role, amount: u64)
    requires Stands(w, now) && 0 < amount <= Ceiling(w, now, r)
    ensures Ready(w, now, r, amount)
  {
    hide Stands, Consume, Control.ReportOk, Fresh, CheckReport, Available, WindowLimits;
    StandsReport(w, now);
    KernelExact(w, now, r, amount);
    AvailableExact(w, now, r, amount);
    FreshIsCheckReport(w, now);
  }

  /** The vault covers whatever the kernel lets through. */
  lemma KernelPays(w: World, now: time, r: Role, amount: u64, destination: Addr)
    requires Stands(w, now) && r in w.vaults && destination in w.tokens
    requires Consume(w.terms.config, w.books, w.vaults[r], w.gov.report.capacity, now, amount).Ok?
    ensures VaultToken(r) in w.tokens && Transfer(w.tokens, VaultToken(r), destination, amount).Ok?
  {
    hide WindowLimits, Transfer, BooksStand, RegistryStands, Control.ReportOk, ConfigOk, Supply, VaultOk;
    assert VaultStands(w, r) by {
      if r.Founder? {} else {}
    }
    DrawWithinPrincipal(w.terms.config, w.books, w.vaults[r], w.gov.report.capacity, now, amount);
    TransferConserves(w.tokens, VaultToken(r), destination, amount);
  }

  lemma DrawWithinPrincipal(c: Config, b: Books, v: Vault, reportCapacity: u64, now: time, amount: u64)
    requires Consume(c, b, v, reportCapacity, now, amount).Ok?
    ensures v.releasedTotal + amount <= v.principal
  {
    hide WindowLimits;
    if v.role.Founder? {} else {}
  }

  lemma CeilingAuthorizes(w: World, now: time, authority: Signer, r: Role, amount: u64, destination: Addr,
          approval: Option<u64>, recipientRecord: Option<Key>)
    requires RegistryStands(w) && w.phase == Active && amount > 0 && w.registry.Lane(r).state.pending == 0
    requires w.registry.Lane(r).state.current == authority
    requires 0 <= w.terms.config.t0 < now && w.terms.config.t0 + CLIFF <= I64_MAX
    requires r in w.vaults && w.vaults[r].authority == w.terms.Owner(r)
    requires PeriodAt(w.terms.config.t0, now) == Ok(PeriodOf(w, now)) && w.books.period <= PeriodOf(w, now)
      && w.vaults[r].period <= PeriodOf(w, now)
    requires CheckReport(w.terms.config, w.gov, PeriodOf(w, now), now).Pass?
    requires r.Founder? ==> w.terms.config.t0 + CLIFF <= now
    requires Suitable(w, now, r, destination, approval, recipientRecord)
    requires r.Treasury? ==>
      (NoticePassed(w, now)
       && amount <= w.registry.approvals[PeriodOf(w, now)].need - w.registry.approvals[PeriodOf(w, now)].consumed)
    ensures approval.Some? ==> approval.value in w.registry.approvals
    ensures recipientRecord.Some? ==> recipientRecord.value in w.registry.keys
    ensures AuthorizeRelease(w.(lastActionAt := now), now, authority, r, amount, w.registry.Lane(r).state.epoch,
        destination, approval,
        recipientRecord).Ok?
  {
    hide CheckReport, RegistryStands, Withdrawal.EligibleRecipient;
    if r.Treasury? {
      ApprovalPeriod(w, PeriodOf(w, now));
    }
  }

  lemma ApprovalPeriod(w: World, p: u64)
    requires RegistryStands(w) && p in w.registry.approvals
    ensures var a := w.registry.approvals[p];
      && a.period == p && a.consumed <= a.need && a.createdAt <= w.lastActionAt
      && a.recipientOwner in w.registry.keys && w.registry.keys[a.recipientOwner].recipient
      && Withdrawal.EligibleRecipient(w.terms, a.recipientOwner, w.registry.keys[a.recipientOwner])
  {
    hide Tombstones.LaneInv;
    RegistryProofs.RecipientEligible(w.terms, w.registry, w.lastActionAt, p);
  }

  /** A committed release goes where it must. */
  lemma ReleaseSuits(w: World, now: time, authority: Signer, r: Role, amount: u64, epoch: u64, destination: Addr,
          approval: Option<u64>, recipientRecord: Option<Key>)
    requires 0 <= w.terms.config.t0
    requires ReleaseStep(w, now, authority, r, amount, epoch, destination, approval, recipientRecord).Ok?
    ensures Suitable(w, now, r, destination, approval, recipientRecord)
  {
    hide ReleaseStep, AuthorizeRelease, CheckReport, Consume, PeriodAt;
    ReleasePassed(w, now, authority, r, amount, epoch, destination, approval, recipientRecord);
    ReleaseAuthorized(w.(lastActionAt := now), now, authority, r, amount, epoch, destination, approval,
        recipientRecord);
    PeriodPasses(w, now, PeriodAt(w.terms.config.t0, now).value);
  }

  /**
   Exactly when a release commits, wherever the ceilings rest on something: it is signed by the pool's current key in
   its epoch, goes where it must, and its amount is positive and at most the ceiling.
   */
  lemma ReleaseExactly(w: World, now: time, authority: Signer, r: Role, amount: u64, epoch: u64, destination: Addr,
          approval: Option<u64>, recipientRecord: Option<Key>)
    requires Stands(w, now)
    ensures Step(w, now, Instruction.Release(authority, r, amount, epoch, destination, approval, recipientRecord)).Ok?
      <==> (w.registry.Lane(r).state.current == authority && w.registry.Lane(r).state.epoch == epoch
            && Suitable(w, now, r, destination, approval, recipientRecord) && 0 < amount <= Ceiling(w, now, r))
  {
    hide Stands, ReleaseStep, Ceiling, Suitable;
    StandsReport(w, now);
    if ReleaseStep(w, now, authority, r, amount, epoch, destination, approval, recipientRecord).Ok? {
      CeilingBounds(w, now, authority, r, amount, epoch, destination, approval, recipientRecord);
      ReleaseSuits(w, now, authority, r, amount, epoch, destination, approval, recipientRecord);
    }
    if w.registry.Lane(r).state.current == authority && w.registry.Lane(r).state.epoch == epoch
       && Suitable(w, now, r, destination, approval, recipientRecord) && 0 < amount <= Ceiling(w, now, r) {
      CeilingReached(w, now, authority, r, amount, destination, approval, recipientRecord);
    }
  }

  /**
   The reported ceilings are exact: in every active state of every run, at every later time, a release by the
   current key and epoch to where it must go succeeds if and only if its amount is positive and at most the ceiling.
   */
  lemma CeilingsExact(w: World, events: seq<Event>, now: time, authority: Signer, r: Role, amount: u64,
          destination: Addr, approval: Option<u64>, recipientRecord: Option<Key>)
    requires Genesis(w)
    requires var w' := Run(w, events);
      && w'.phase == Active && w'.lastActionAt <= now && w'.registry.Lane(r).state.current == authority
      && Suitable(w', now, r, destination, approval, recipientRecord)
    ensures var w', epoch := Run(w, events), Run(w, events).registry.Lane(r).state.epoch;
      Step(w', now, Instruction.Release(authority, r, amount, epoch, destination, approval, recipientRecord)).Ok?
      == (0 < amount <= Ceiling(w', now, r))
  {
    hide Inv, Genesis, ReleaseStep, Ceiling, Suitable, Stands;
    assert events[..|events|] == events;
    Reached(w, events, |events|);
    var w', epoch := Run(w, events), Run(w, events).registry.Lane(r).state.epoch;
    InvStands(w', now);
    if ReleaseStep(w', now, authority, r, amount, epoch, destination, approval, recipientRecord).Ok? {
      CeilingBounds(w', now, authority, r, amount, epoch, destination, approval, recipientRecord);
    }
    if 0 < amount <= Ceiling(w', now, r) {
      CeilingReached(w', now, authority, r, amount, destination, approval, recipientRecord);
    }
  }

  /** Above its ceiling no release of a pool succeeds, whoever signs it and whatever it brings. */
  lemma CeilingsBound(w: World, events: seq<Event>, now: time, authority: Signer, r: Role, amount: u64, epoch: u64,
          destination: Addr, approval: Option<u64>, recipientRecord: Option<Key>)
    requires Genesis(w)
    requires Step(Run(w, events), now, Instruction.Release(authority, r, amount, epoch, destination, approval,
        recipientRecord)).Ok?
    ensures 0 < amount <= Ceiling(Run(w, events), now, r)
  {
    hide Inv, Genesis, ReleaseStep, Ceiling, Stands;
    assert events[..|events|] == events;
    Reached(w, events, |events|);
    ReleaseActive(Run(w, events), now, authority, r, amount, epoch, destination, approval, recipientRecord);
    CeilingBounds(Run(w, events), now, authority, r, amount, epoch, destination, approval, recipientRecord);
  }

  /** In every active state of every run the projection is the on-chain limits wherever a rule covers the period. */
  lemma ProjectionExact(w: World, events: seq<Event>, now: time)
    requires Genesis(w)
    requires Run(w, events).phase == Active && Run(w, events).lastActionAt <= now
    ensures var w' := Run(w, events);
      var limits := WindowLimits(w'.terms.config, w'.books, w'.gov.report.capacity, now);
      if PeriodOf(w', now) < w'.terms.config.rules.second.endPeriod
      then limits.Ok? && SameLimits(ProjectedLimits(w', now), limits.value)
      else limits == Err(InvalidAnnualRule) && ProjectedLimits(w', now) == Blocked(PeriodOf(w', now))
  {
    hide Inv, Genesis;
    assert events[..|events|] == events;
    Reached(w, events, |events|);
    InvStands(Run(w, events), now);
    ProjectionMatches(Run(w, events), now);
  }

  lemma ProjectionMatches(w: World, now: time)
    requires Stands(w, now)
    ensures var limits := WindowLimits(w.terms.config, w.books, w.gov.report.capacity, now);
      if PeriodOf(w, now) < w.terms.config.rules.second.endPeriod
      then limits.Ok? && SameLimits(ProjectedLimits(w, now), limits.value)
      else limits == Err(InvalidAnnualRule) && ProjectedLimits(w, now) == Blocked(PeriodOf(w, now))
  {
    hide WindowLimits, ProjectedAt, SameLimits, BooksStand, VaultStands, RegistryStands, Control.ReportOk, Supply;
    StandsPeriod(w, now);
    LimitsExist(w.terms.config, w.books, w.gov.report.capacity, now);
    if PeriodOf(w, now) < w.terms.config.rules.second.endPeriod {
      ProjectionIsLimits(w, now);
    }
  }
}
