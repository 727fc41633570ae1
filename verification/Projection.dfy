/**
 The offline verifier's own projection of the limits and the release ceilings, in unbounded integers, and that
 it agrees exactly with the on-chain kernel in every reachable active state.
 */
module Projection {
  import opened Basics
  import opened State
  import opened Capacity

  /** One unbounded integer per pool. */
  datatype Pair = Pair(founder: int, treasury: int) {
    function Get(r: Role): int { if r.Founder? then founder else treasury }
  }

  function PairOf(a: Amounts): Pair { Pair(a.founder, a.treasury) }

  const NOTHING := Pair(0, 0)

  datatype Projected =
    | Blocked(period: int)
    | NegativeAccounting
    | Projected(period: int, annualIndex: int, caps: Pair, quotas: Pair, capacity: int, used: Pair, annualUsed: Pair,
                annualCaps: Pair, reportFresh: bool, correctionPause: bool, available: Pair)

  function Quotas(capacity: int, caps: Pair, eligible: bool): Pair
    requires 0 <= capacity && 0 <= caps.founder && 0 <= caps.treasury
  {
    if !eligible then Pair(0, Min(capacity, caps.treasury))
    else if caps.founder + caps.treasury == 0 then NOTHING
    else
      var total := Min(capacity, caps.founder + caps.treasury);
      var f := total * caps.founder / (caps.founder + caps.treasury);
      Pair(f, total - f)
  }

  function AnnualCapOf(rule: Rule, r: Role): int { rule.basis.Get(r) * rule.releaseBps / 10_000 }

  function CapOf(c: Config, r: Role, annualCap: int, prior: int, total: int, used: int): int {
    Min(Min(Min(c.periodCap.Get(r), annualCap / 12), annualCap - prior), c.amount.Get(r) - (total - used))
  }

  predicate Fresh(w: World, period: int, now: time) {
    var c, g := w.terms.config, w.gov;
    && g.report.valid && g.report.epoch == g.oracleEpoch && g.report.at >= g.oracleActivatedAt
    && g.report.sequence > 0 && g.report.period == period
    && c.t0 + period * PERIOD <= g.report.at <= now && now - g.report.at <= c.maxReportAge
  }

  /** The projection once the period, its rule and what they had used are known. */
  function ProjectedAt(w: World, now: time, period: int, index: u8, used: Pair, annualUsed: Pair): Projected {
    var c, b := w.terms.config, w.books;
    var rule := c.rules.At(index);
    var annual := Pair(AnnualCapOf(rule, Founder), AnnualCapOf(rule, Treasury));
    var prior := Pair(annualUsed.founder - used.founder, annualUsed.treasury - used.treasury);
    var caps := Pair(CapOf(c, Founder, annual.founder, prior.founder, b.released.founder, used.founder),
                     CapOf(c, Treasury, annual.treasury, prior.treasury, b.released.treasury, used.treasury));
    var capacity := Min(Min(w.gov.report.capacity, c.sharedHardCap), rule.sharedCap - (prior.founder + prior.treasury));
    if caps.founder < 0 || caps.treasury < 0 || capacity < 0 || prior.founder < 0 || prior.treasury < 0
    then NegativeAccounting
    else
      var q := Quotas(capacity, caps, now >= c.t0 + CLIFF);
      var pause := used.founder > q.founder || used.treasury > q.treasury;
      var reportFresh := Fresh(w, period, now);
      var available :=
        if reportFresh && !pause && now > c.t0
        then Pair(q.founder - used.founder, q.treasury - used.treasury)
        else NOTHING;
      Projected(period, index, caps, q, capacity, used, annualUsed, annual, reportFresh, pause, available)
  }

  function ProjectedLimits(w: World, now: time): Projected {
    var c, b := w.terms.config, w.books;
    var period := (now - c.t0) / PERIOD;
    var within := (rule: Rule) => rule.startPeriod <= period < rule.endPeriod;
    if !within(c.rules.first) && !within(c.rules.second) then Blocked(period)
    else
      var index := if within(c.rules.first) then 0 else 1;
      ProjectedAt(w, now, period, index,
                  if period == b.period then PairOf(b.periodUsed) else NOTHING,
                  if index == b.annualIndex then PairOf(b.annualUsed) else NOTHING)
  }

  /** What a projection and the on-chain limits have in common. */
  predicate SameLimits(p: Projected, l: Limits) {
    && p.Projected?
    && p.period == l.window.period && p.annualIndex == l.window.annualIndex
    && p.caps == PairOf(l.window.caps) && p.quotas == PairOf(l.quotas) && p.capacity == l.window.capacity
    && p.used == PairOf(l.window.periodUsed) && p.annualUsed == PairOf(l.window.annualUsed)
    && p.annualCaps == PairOf(l.window.annualCaps) && p.correctionPause == l.correctionPause
  }

  /** The on-chain division never casts a value that does not fit, so it is the verifier's division. */
  lemma SameQuotas(capacity: u64, caps: Amounts, eligible: bool)
    ensures Quotas(capacity, PairOf(caps), eligible)
      == PairOf(ReservedQuotas(capacity, caps.founder, caps.treasury, eligible))
  {
    QuotasSplitCapacity(capacity, caps.founder, caps.treasury, eligible);
  }

  lemma SameAnnualCaps(rule: Rule)
    requires rule.releaseBps <= MAX_RELEASE_BPS
    ensures AnnualCaps(rule).Ok? && PairOf(AnnualCaps(rule).value) == Pair(AnnualCapOf(rule, Founder),
        AnnualCapOf(rule, Treasury))
  {
    AnnualCapLossless(rule.basis.founder, rule.releaseBps);
    AnnualCapLossless(rule.basis.treasury, rule.releaseBps);
  }

  lemma SameCap(c: Config, r: Role, annualCap: u64, priorAnnual: u64, released: u64, used: u64)
    requires used <= released
    requires WindowCap(c.periodCap.Get(r), annualCap, priorAnnual, c.amount.Get(r), released - used).Ok?
    ensures CapOf(c, r, annualCap, priorAnnual, released, used)
         == WindowCap(c.periodCap.Get(r), annualCap, priorAnnual, c.amount.Get(r), released - used).value
  {
  }

  /** What a successful opening of the window computed. */
  lemma WindowParts(c: Config, b: Books, reportCapacity: u64, now: i64)
    requires OpenWindow(c, b, reportCapacity, now).Ok?
    ensures var w := OpenWindow(c, b, reportCapacity, now).value; var rule := c.rules.At(w.annualIndex);
      && PeriodAt(c.t0, now) == Ok(w.period) && RuleIndex(c.rules, w.period) == Ok(w.annualIndex)
      && w.periodUsed == UsedIn(b, w.period) && w.annualUsed == AnnualUsedIn(b, w.annualIndex)
      && AnnualCaps(rule) == Ok(w.annualCaps)
      && w.periodUsed.founder <= w.annualUsed.founder && w.periodUsed.treasury <= w.annualUsed.treasury
      && w.periodUsed.founder <= b.released.founder && w.periodUsed.treasury <= b.released.treasury
      && WindowCap(c.periodCap.founder, w.annualCaps.founder, w.annualUsed.founder - w.periodUsed.founder,
                   c.amount.founder, b.released.founder - w.periodUsed.founder) == Ok(w.caps.founder)
      && WindowCap(c.periodCap.treasury, w.annualCaps.treasury, w.annualUsed.treasury - w.periodUsed.treasury,
                   c.amount.treasury, b.released.treasury - w.periodUsed.treasury) == Ok(w.caps.treasury)
      && var prior := w.annualUsed.founder - w.periodUsed.founder + w.annualUsed.treasury - w.periodUsed.treasury;
         prior <= rule.sharedCap && w.capacity == Min(Min(reportCapacity, c.sharedHardCap), rule.sharedCap - prior)
  {
    hide AnnualCaps, WindowCap, PeriodAt, RuleIndex;
  }

  lemma ProjectedAtWindow(w: World, now: time, l: Limits)
    requires 0 <= w.terms.config.t0
    requires w.terms.config.rules.At(l.window.annualIndex).releaseBps <= MAX_RELEASE_BPS
    requires OpenWindow(w.terms.config, w.books, w.gov.report.capacity, now) == Ok(l.window)
    requires WindowLimits(w.terms.config, w.books, w.gov.report.capacity, now) == Ok(l)
    ensures SameLimits(ProjectedAt(w, now, l.window.period, l.window.annualIndex, PairOf(l.window.periodUsed),
        PairOf(l.window.annualUsed)), l)
  {
    var c, b, x := w.terms.config, w.books, l.window;
    hide OpenWindow, AnnualCaps, AnnualCapOf, CapOf, WindowCap, ReservedQuotas, Quotas, Fresh;
    WindowParts(c, b, w.gov.report.capacity, now);
    SameAnnualCaps(c.rules.At(x.annualIndex));
    SameCap(c, Founder, x.annualCaps.founder, x.annualUsed.founder - x.periodUsed.founder, b.released.founder,
        x.periodUsed.founder);
    SameCap(c, Treasury, x.annualCaps.treasury, x.annualUsed.treasury - x.periodUsed.treasury, b.released.treasury,
        x.periodUsed.treasury);
    SameQuotas(x.capacity, x.caps, now >= c.t0 + CLIFF);
  }

  lemma WindowIsOpen(c: Config, b: Books, reportCapacity: u64, now: i64)
    requires WindowLimits(c, b, reportCapacity, now).Ok?
    ensures var w := WindowLimits(c, b, reportCapacity, now).value.window;
      && OpenWindow(c, b, reportCapacity, now) == Ok(w)
      && PeriodAt(c.t0, now) == Ok(w.period) && RuleIndex(c.rules, w.period) == Ok(w.annualIndex)
      && w.periodUsed == UsedIn(b, w.period) && w.annualUsed == AnnualUsedIn(b, w.annualIndex)
  {
    WindowParts(c, b, reportCapacity, now);
    hide OpenWindow;
  }

  /** Wherever the on-chain limits exist, the projection is the same, field by field. */
  lemma ProjectionIsLimits(w: World, now: time)
    requires 0 <= w.terms.config.t0 <= now
    requires w.terms.config.rules.first.releaseBps <= MAX_RELEASE_BPS
    requires w.terms.config.rules.second.releaseBps <= MAX_RELEASE_BPS
    requires WindowLimits(w.terms.config, w.books, w.gov.report.capacity, now).Ok?
    ensures SameLimits(ProjectedLimits(w, now), WindowLimits(w.terms.config, w.books, w.gov.report.capacity, now).value)
  {
    var c, b := w.terms.config, w.books;
    var l := WindowLimits(c, b, w.gov.report.capacity, now).value;
    ProjectedAtWindow(w, now, l);
    WindowIsOpen(c, b, w.gov.report.capacity, now);
    hide OpenWindow, WindowLimits, ProjectedAt, SameLimits;
  }
}
