/**
 The capacity kernel: annual caps, reserved quotas, the limits of the current window and the
 consumption of capacity by one release.
 */
module Capacity {
  import opened Basics
  import opened State

  /* ---- Annual caps ---- */

  /** What a pool may release under one annual rule, before any cast. */
  function Entitlement(rule: Rule, r: Role): nat { rule.basis.Get(r) * rule.releaseBps / 10_000 }

  function AnnualCap(basis: u64, bps: u16): Result<u64> {
    if bps > MAX_RELEASE_BPS then Err(InvalidAnnualRule) else
    Ok(AsU64(basis * bps / 10_000))
  }

  /** The cast is lossless and the cap is at most one twentieth of the basis. */
  lemma AnnualCapLossless(basis: u64, bps: u16)
    requires bps <= MAX_RELEASE_BPS
    ensures AnnualCap(basis, bps) == Ok(basis * bps / 10_000)
    ensures 20 * (basis * bps / 10_000) <= basis
  {
    ProductMonotone(bps, MAX_RELEASE_BPS, basis);
    TwentiethAtMost(basis * bps, basis);
  }

  lemma TwentiethAtMost(product: nat, basis: nat)
    requires product <= MAX_RELEASE_BPS * basis
    ensures 20 * (product / 10_000) <= basis
  {
  }

  function AnnualCaps(rule: Rule): Result<Amounts> {
    var f :- AnnualCap(rule.basis.founder, rule.releaseBps);
    var t :- AnnualCap(rule.basis.treasury, rule.releaseBps);
    Ok(Amounts(f, t))
  }

  /* ---- Reserved quotas ---- */

  /** The founder's part of the available capacity, in proportion to the two caps and rounded down. */
  function Share(available: nat, founder: nat, treasury: nat): nat
    requires founder + treasury > 0
  {
    available * founder / (founder + treasury)
  }

  function ReservedQuotas(capacity: u64, founder: u64, treasury: u64, eligible: bool): Amounts {
    if !eligible then Amounts(0, Min(capacity, treasury))
    else
      var denominator := founder + treasury;
      if denominator == 0 then Amounts(0, 0)
      else
        var available := Min(capacity, denominator);
        var f := Share(available, founder, treasury);
        Amounts(AsU64(f), AsU64(available - f))
  }

  lemma QuotientAtLeast(x: nat, q: int, d: nat)
    requires d > 0 && q * d <= x
    ensures q <= x / d
  {
    if q > x / d {
      var next: nat := x / d + 1;
      ProductMonotone(next, q, d);
      RemainderBelow(x, d);
    }
  }

  lemma QuotientBelow(x: nat, q: nat, d: nat)
    requires d > 0 && x < (q + 1) * d
    ensures x / d <= q
  {
    if x / d > q {
      ProductMonotone(q + 1, x / d, d);
      RemainderBelow(x, d);
    }
  }

  /** A number lies between two successive multiples. */
  lemma RemainderBelow(n: nat, d: nat)
    requires d > 0
    ensures n / d * d <= n < n / d * d + d == (n / d + 1) * d
  {
  }

  lemma ProductMonotone(a: nat, b: nat, c: nat)
    requires a <= b
    ensures a * c <= b * c
  {
  }

  /** The floored founder share never exceeds its own cap and leaves the treasury no more than its own. */
  lemma FounderShare(available: nat, founder: nat, treasury: nat)
    requires 0 < founder + treasury && available <= founder + treasury
    ensures Share(available, founder, treasury) <= available
    ensures Share(available, founder, treasury) <= founder
    ensures available - treasury <= Share(available, founder, treasury)
  {
    var d := founder + treasury;
    ProductMonotone(founder, d, available);
    QuotientBelow(available * founder, available, d);
    ProductMonotone(available, d, founder);
    QuotientBelow(available * founder, founder, d);
    TreasuryPart(available, founder, treasury);
    QuotientAtLeast(available * founder, available - treasury, d);
  }

  lemma TreasuryPart(available: nat, founder: nat, treasury: nat)
    requires available <= founder + treasury
    ensures (available - treasury) * (founder + treasury) <= available * founder
  {
    calc {
      available * founder - (available - treasury) * (founder + treasury);
      treasury * (founder + treasury - available);
    >=  { ProductMonotone(0, founder + treasury - available, treasury); }
      0;
    }
  }

  /**
   Reserved quotas for every 64-bit input: both casts are lossless and the product fits 128 bits,
   each pool keeps within its own cap and the capacity, and after the cliff nothing reservable is lost.
   */
  lemma QuotasSplitCapacity(capacity: u64, founder: u64, treasury: u64, eligible: bool)
    ensures var q := ReservedQuotas(capacity, founder, treasury, eligible);
      && q.founder <= founder && q.treasury <= treasury
      && q.founder + q.treasury <= capacity
      && (eligible ==> q.founder + q.treasury == Min(capacity, founder + treasury))
      && (!eligible ==> q == Amounts(0, Min(capacity, treasury)))
      && (eligible && founder + treasury > 0 ==>
            q.founder == Share(Min(capacity, founder + treasury), founder, treasury))
  {
    if founder + treasury > 0 {
      FounderShare(Min(capacity, founder + treasury), founder, treasury);
    }
  }

  /** The rounding remainder goes to the treasury, and is less than one unit over its exact proportional part. */
  lemma RoundingTowardTreasury(capacity: u64, founder: u64, treasury: u64)
    requires founder + treasury > 0
    ensures var total, available := founder + treasury, Min(capacity, founder + treasury);
      var quota := ReservedQuotas(capacity, founder, treasury, true).treasury;
      available * treasury <= quota * total < available * treasury + total
  {
    QuotasSplitCapacity(capacity, founder, treasury, true);
    var total, available := founder + treasury, Min(capacity, founder + treasury);
    var f := Share(available, founder, treasury);
    assert ReservedQuotas(capacity, founder, treasury, true).treasury == available - f;
    RemainderBelow(available * founder, total);
    calc {
      (available - f) * total;
      available * founder + available * treasury - f * total;
    }
  }

  /** The product inside the quota fits 128 bits. */
  lemma ProductFits128(capacity: u64, founder: u64, treasury: u64)
    ensures Min(capacity, founder + treasury) * founder <= 0xFFFF_FFFF_FFFF_FFFF_FFFF_FFFF_FFFF_FFFF
  {
    ProductMonotone(Min(capacity, founder + treasury), U64_MAX, founder);
    ProductMonotone(founder, U64_MAX, U64_MAX);
  }

  /** A larger available amount grows both shares: the founder's by no more than the amount itself grows. */
  lemma ShareMonotone(low: nat, high: nat, founder: nat, treasury: nat)
    requires founder + treasury > 0 && low <= high
    ensures Share(low, founder, treasury) <= Share(high, founder, treasury) <= Share(low, founder, treasury)
      + (high - low)
  {
    var d, f := founder + treasury, Share(low, founder, treasury);
    RemainderBelow(low * founder, d);
    ProductMonotone(low, high, founder);
    QuotientAtLeast(high * founder, f, d);
    ProductGrows(low, high, founder, d, f);
    QuotientBelow(high * founder, f + (high - low), d);
  }

  /** A product below a multiple of a larger factor stays below the multiple that grew as much as its own factor. */
  lemma ProductGrows(low: nat, high: nat, factor: nat, larger: nat, multiple: nat)
    requires low <= high && factor <= larger && low * factor < multiple * larger + larger
    ensures high * factor < (multiple + (high - low) + 1) * larger
  {
    var more := high - low;
    assert high * factor == low * factor + more * factor by { Distributes(low, more, factor); }
    ProductMonotone(factor, larger, more);
    assert (multiple + more + 1) * larger == multiple * larger + more * larger + larger by {
      Distributes(multiple, more, larger);
      Distributes(multiple + more, 1, larger);
    }
  }

  lemma Distributes(a: nat, b: nat, c: nat)
    ensures (a + b) * c == a * c + b * c
  {
  }

  /** More capacity never shrinks either quota. */
  lemma QuotasMonotone(low: u64, high: u64, founder: u64, treasury: u64, eligible: bool)
    requires low <= high
    ensures var q, q' := ReservedQuotas(low, founder, treasury, eligible),
      ReservedQuotas(high, founder, treasury, eligible);
      q.founder <= q'.founder && q.treasury <= q'.treasury
  {
    QuotasSplitCapacity(low, founder, treasury, eligible);
    QuotasSplitCapacity(high, founder, treasury, eligible);
    if founder + treasury > 0 {
      ShareMonotone(Min(low, founder + treasury), Min(high, founder + treasury), founder, treasury);
    }
  }

  /* ---- The limits of the window that contains `now` ---- */

  predicate Covers(rule: Rule, period: u64) { rule.startPeriod <= period < rule.endPeriod }

  function RuleIndex(rules: Rules, period: u64): Result<u8> {
    if Covers(rules.first, period) then Ok(0)
    else if Covers(rules.second, period) then Ok(1)
    else Err(InvalidAnnualRule)
  }

  /** What one release may draw on, before the available capacity is divided. */
  datatype Window = Window(
    period: u64, annualIndex: u8, periodUsed: Amounts, annualUsed: Amounts,
    annualCaps: Amounts, caps: Amounts, capacity: u64)

  datatype Limits = Limits(window: Window, quotas: Amounts, correctionPause: bool)

  function Sub(a: u64, b: u64): Result<u64> {
    if b <= a then Ok(a - b) else Err(InvalidAccounting)
  }

  function SubAmounts(a: Amounts, b: Amounts): Result<Amounts> {
    var f :- Sub(a.founder, b.founder);
    var t :- Sub(a.treasury, b.treasury);
    Ok(Amounts(f, t))
  }

  /** The most one pool may have used in this window, given what it had used before the window. */
  function WindowCap(periodCap: u64, annualCap: u64, priorAnnual: u64, principal: u64, priorLifetime: u64): Result<u64>
  {
    var annualLeft :- Sub(annualCap, priorAnnual);
    var lifetimeLeft :- Sub(principal, priorLifetime);
    Ok(Min(Min(Min(periodCap, annualCap / RATE_DIVISOR), annualLeft), lifetimeLeft))
  }

  /** What was used in the window of a later period or a later rule, before this release. */
  function UsedIn(b: Books, period: u64): Amounts { if period == b.period then b.periodUsed else Amounts(0, 0) }

  function AnnualUsedIn(b: Books, index: u8): Amounts { if index == b.annualIndex then b.annualUsed else Amounts(0, 0) }

  function OpenWindow(c: Config, b: Books, reportCapacity: u64, now: i64): Result<Window> {
    var period :- PeriodAt(c.t0, now);
    :- Require(period >= b.period, ClockRollback);
    var index :- RuleIndex(c.rules, period);
    :- Require(index >= b.annualIndex, ClockRollback);
    var shared :- CheckedAdd(b.periodUsed.founder, b.periodUsed.treasury, InvalidAccounting);
    :- Require(b.sharedUsed == shared, InvalidAccounting);
    var used := UsedIn(b, period);
    var annualUsed := AnnualUsedIn(b, index);
    var rule := c.rules.At(index);
    var annualCaps :- AnnualCaps(rule);
    var priorAnnual :- SubAmounts(annualUsed, used);
    var priorLifetime :- SubAmounts(b.released, used);
    var founderCap :- WindowCap(c.periodCap.founder, annualCaps.founder, priorAnnual.founder, c.amount.founder,
        priorLifetime.founder);
    var treasuryCap :- WindowCap(c.periodCap.treasury, annualCaps.treasury, priorAnnual.treasury, c.amount.treasury,
        priorLifetime.treasury);
    var sharedPrior :- CheckedAdd(priorAnnual.founder, priorAnnual.treasury, Overflow);
    var sharedLeft :- Sub(rule.sharedCap, sharedPrior);
    Ok(Window(period, index, used, annualUsed, annualCaps, Amounts(founderCap, treasuryCap),
              Min(Min(reportCapacity, c.sharedHardCap), sharedLeft)))
  }

  function WindowLimits(c: Config, b: Books, reportCapacity: u64, now: i64): Result<Limits> {
    var w :- OpenWindow(c, b, reportCapacity, now);
    var cliff :- CheckedAddTime(c.t0, CLIFF);
    var quotas := ReservedQuotas(w.capacity, w.caps.founder, w.caps.treasury, now >= cliff);
    Ok(Limits(w, quotas, w.periodUsed.founder > quotas.founder || w.periodUsed.treasury > quotas.treasury))
  }

  function CheckedAddAt(p: Amounts, r: Role, amount: u64): Result<Amounts> {
    var sum :- CheckedAdd(p.Get(r), amount, Overflow);
    Ok(p.Set(r, sum))
  }

  /** The accounting of one release against given limits. */
  function Draw(l: Limits, b: Books, v: Vault, amount: u64): Result<(Books, Vault)> {
    if l.correctionPause then Err(CapacityCorrectionPause) else
    var r := v.role;
    :- Require(v.releasedTotal == b.released.Get(r), InvalidAccounting);
    var used :- CheckedAddAt(l.window.periodUsed, r, amount);
    var annualUsed :- CheckedAddAt(l.window.annualUsed, r, amount);
    var released :- CheckedAddAt(b.released, r, amount);
    var shared :- CheckedAdd(used.founder, used.treasury, Overflow);
    :- Require(used.Get(r) <= l.quotas.Get(r), ReservedQuotaExceeded);
    :- Require(annualUsed.Get(r) <= l.window.annualCaps.Get(r) && released.Get(r) <= v.principal
               && shared <= l.window.capacity, CapacityExceeded);
    Ok((Books(l.window.period, l.window.annualIndex, used, annualUsed, released, shared),
        v.(period := l.window.period, periodUsed := used.Get(r), releasedTotal := released.Get(r))))
  }

  function Consume(c: Config, b: Books, v: Vault, reportCapacity: u64, now: i64, amount: u64): Result<(Books, Vault)> {
    var limits :- WindowLimits(c, b, reportCapacity, now);
    Draw(limits, b, v, amount)
  }

  /* ---- Configuration facts and the accounting invariant ---- */

  function ValidateRule(c: Config, rule: Rule): Result<()> {
    var ordered := rule.endPeriod > rule.startPeriod;
    :- Require(ordered && rule.basis.founder <= c.amount.founder
               && rule.basis.treasury <= c.amount.treasury && rule.sourceHash != 0, InvalidAnnualRule);
    var caps :- AnnualCaps(rule);
    :- Require(rule.sharedCap <= caps.founder + caps.treasury, InvalidAnnualRule);
    var _ :- PeriodStart(c.t0, rule.endPeriod);
    Ok(())
  }

  function ValidateRules(c: Config): Result<()> {
    if c.rules.first.startPeriod != 0 then Err(InvalidAnnualRule) else
    :- Require(c.rules.first.endPeriod == c.rules.second.startPeriod, InvalidAnnualRule);
    var _ :- ValidateRule(c, c.rules.first);
    ValidateRule(c, c.rules.second)
  }

  predicate RuleOk(c: Config, rule: Rule) {
    && rule.startPeriod < rule.endPeriod
    && rule.basis.founder <= c.amount.founder && rule.basis.treasury <= c.amount.treasury
    && rule.releaseBps <= MAX_RELEASE_BPS
    && rule.sharedCap <= Entitlement(rule, Founder) + Entitlement(rule, Treasury)
    && c.t0 + rule.endPeriod * PERIOD <= I64_MAX
  }

  /** Two contiguous rules that start at period 0. */
  predicate RulesOk(c: Config) {
    && c.rules.first.startPeriod == 0 && c.rules.first.endPeriod == c.rules.second.startPeriod
    && RuleOk(c, c.rules.first) && RuleOk(c, c.rules.second)
  }

  /** What admission establishes about a configuration and every later step relies on. */
  predicate ConfigOk(c: Config) {
    && 0 <= c.t0 && c.t0 + CLIFF <= I64_MAX
    && RulesOk(c)
    && c.amount.founder > 0 && c.amount.treasury > 0
    && c.amount.founder + c.amount.treasury <= U64_MAX
    && c.periodCap.founder <= c.amount.founder && c.periodCap.treasury <= c.amount.treasury
    && 1 <= c.maxReportAge <= 7 * 86_400
  }

  /** One pool's counters under the annual cap `cap` of the stored rule, after at most `before` in earlier rules. */
  predicate PoolWithin(c: Config, b: Books, r: Role, cap: nat, before: nat) {
    && b.periodUsed.Get(r) <= b.annualUsed.Get(r) <= b.released.Get(r) <= c.amount.Get(r)
    && b.annualUsed.Get(r) <= cap
    && b.periodUsed.Get(r) <= c.periodCap.Get(r) && b.periodUsed.Get(r) <= cap / RATE_DIVISOR
    && b.released.Get(r) <= b.annualUsed.Get(r) + before
  }

  /** One pool's counters against each other, its own caps and its principal. */
  predicate PoolStands(c: Config, b: Books, r: Role) {
    var cap := Entitlement(c.rules.At(b.annualIndex), r);
    && b.periodUsed.Get(r) <= b.annualUsed.Get(r) <= b.released.Get(r) <= c.amount.Get(r)
    && b.annualUsed.Get(r) <= cap
    && b.periodUsed.Get(r) <= c.periodCap.Get(r) && b.periodUsed.Get(r) <= cap / RATE_DIVISOR
  }

  /** What the limits of a window rest on: the accounting invariant without its bound over both rules. */
  predicate BooksStand(c: Config, b: Books) {
    && b.annualIndex <= 1
    && Covers(c.rules.At(b.annualIndex), b.period)
    && PoolStands(c, b, Founder) && PoolStands(c, b, Treasury)
    && b.sharedUsed == b.periodUsed.founder + b.periodUsed.treasury <= c.sharedHardCap
    && b.annualUsed.founder + b.annualUsed.treasury <= c.rules.At(b.annualIndex).sharedCap
    && (b.released.founder > 0 ==> b.period >= 6)
  }

  /** What the pools released is bounded by what the rules so far entitled them to. */
  predicate WithinEntitlements(c: Config, b: Books) {
    && b.released.founder <= b.annualUsed.founder + Before(c, b.annualIndex, Founder)
    && b.released.treasury <= b.annualUsed.treasury + Before(c, b.annualIndex, Treasury)
  }

  lemma BooksParts(c: Config, b: Books)
    ensures BooksInv(c, b) <==> BooksStand(c, b) && WithinEntitlements(c, b)
  {
    hide Entitlement;
  }

  /** What a pool can have released under the rules before the one at `index`. */
  function Before(c: Config, index: u8, r: Role): nat { if index == 0 then 0 else Entitlement(c.rules.first, r) }

  predicate PoolInv(c: Config, b: Books, r: Role) {
    PoolWithin(c, b, r, Entitlement(c.rules.At(b.annualIndex), r), Before(c, b.annualIndex, r))
  }

  /** The accounting invariant of the stored counters. */
  predicate BooksInv(c: Config, b: Books) {
    && b.annualIndex <= 1
    && Covers(c.rules.At(b.annualIndex), b.period)
    && PoolInv(c, b, Founder) && PoolInv(c, b, Treasury)
    && b.sharedUsed == b.periodUsed.founder + b.periodUsed.treasury <= c.sharedHardCap
    && b.annualUsed.founder + b.annualUsed.treasury <= c.rules.At(b.annualIndex).sharedCap
    && (b.released.founder > 0 ==> b.period >= 6)
  }

  /** A vault's own counters agree with the policy's; its period is reset lazily, on its own next release. */
  predicate VaultAgrees(c: Config, b: Books, v: Vault) {
    && v.principal == c.amount.Get(v.role)
    && v.releasedTotal == b.released.Get(v.role)
    && v.period <= b.period
    && b.periodUsed.Get(v.role) == (if v.period == b.period then v.periodUsed else 0)
    && v.periodUsed <= v.releasedTotal
    && (v.role.Founder? && v.releasedTotal > 0 ==> v.period >= 6)
  }

  lemma ValidRule(c: Config, rule: Rule)
    requires 0 <= c.t0
    ensures ValidateRule(c, rule).Ok? <==> RuleOk(c, rule) && rule.sourceHash != 0
  {
    if rule.releaseBps <= MAX_RELEASE_BPS {
      AnnualCapLossless(rule.basis.founder, rule.releaseBps);
      AnnualCapLossless(rule.basis.treasury, rule.releaseBps);
    }
  }

  lemma RuleCaps(c: Config, index: u8)
    requires RulesOk(c) && index <= 1
    ensures var rule, caps := c.rules.At(index), AnnualCaps(c.rules.At(index));
      && caps.Ok? && caps.value.founder == Entitlement(rule, Founder)
      && caps.value.treasury == Entitlement(rule, Treasury)
      && 20 * Entitlement(rule, Founder) <= c.amount.founder
      && 20 * Entitlement(rule, Treasury) <= c.amount.treasury
  {
    var rule := c.rules.At(index);
    AnnualCapLossless(rule.basis.founder, rule.releaseBps);
    AnnualCapLossless(rule.basis.treasury, rule.releaseBps);
  }

  /** The first books satisfy the invariant. */
  lemma EmptyBooksOk(c: Config)
    requires ConfigOk(c)
    ensures BooksInv(c, EMPTY_BOOKS)
  {
    RuleCaps(c, 0);
  }

  predicate PoolWindow(c: Config, b: Books, w: Window, r: Role) {
    && w.caps.Get(r) <= c.periodCap.Get(r)
    && w.caps.Get(r) <= w.annualCaps.Get(r) / RATE_DIVISOR
    && w.caps.Get(r) + w.annualUsed.Get(r) <= w.annualCaps.Get(r) + w.periodUsed.Get(r)
    && w.caps.Get(r) + b.released.Get(r) <= c.amount.Get(r) + w.periodUsed.Get(r)
  }

  /** The window of a time, as plain arithmetic over books that keep the accounting invariant. */
  predicate WindowOk(c: Config, b: Books, reportCapacity: u64, w: Window) {
    && b.annualIndex <= w.annualIndex <= 1 && Covers(c.rules.At(w.annualIndex), w.period)
    && (w.period == b.period ==> w.annualIndex == b.annualIndex)
    && w.periodUsed == UsedIn(b, w.period)
    && w.annualUsed == AnnualUsedIn(b, w.annualIndex)
    && PoolWindow(c, b, w, Founder) && PoolWindow(c, b, w, Treasury)
    && w.capacity <= reportCapacity && w.capacity <= c.sharedHardCap
    && w.capacity + w.annualUsed.founder + w.annualUsed.treasury
       <= c.rules.At(w.annualIndex).sharedCap + w.periodUsed.founder + w.periodUsed.treasury
  }

  predicate CapsAre(c: Config, w: Window) {
    && w.annualCaps.founder == Entitlement(c.rules.At(w.annualIndex), Founder)
    && w.annualCaps.treasury == Entitlement(c.rules.At(w.annualIndex), Treasury)
  }

  /** What every division of the capacity guarantees. */
  predicate QuotasFit(l: Limits, eligible: bool) {
    && l.quotas.founder <= l.window.caps.founder && l.quotas.treasury <= l.window.caps.treasury
    && l.quotas.founder + l.quotas.treasury <= l.window.capacity
    && (!eligible ==> l.quotas.founder == 0)
    && l.correctionPause
      == (l.window.periodUsed.founder > l.quotas.founder || l.window.periodUsed.treasury > l.quotas.treasury)
  }

  /** Rule indices never step back, and the stored period stays under the stored rule. */
  lemma RuleIndexMonotone(c: Config, b: Books, period: u64)
    requires ConfigOk(c) && BooksStand(c, b) && b.period <= period
    ensures RuleIndex(c.rules, period).Ok? <==> period < c.rules.second.endPeriod
    ensures RuleIndex(c.rules, period).Ok? ==>
      b.annualIndex <= RuleIndex(c.rules, period).value <= 1
      && (period == b.period ==> RuleIndex(c.rules, period).value == b.annualIndex)
  {
  }

  lemma WindowCapExists(periodCap: u64, annualCap: u64, priorAnnual: u64, principal: u64, priorLifetime: u64)
    requires priorAnnual <= annualCap && priorLifetime <= principal
    ensures var cap := WindowCap(periodCap, annualCap, priorAnnual, principal, priorLifetime);
      cap.Ok? && cap.value <= periodCap && cap.value <= annualCap / RATE_DIVISOR
      && cap.value + priorAnnual <= annualCap && cap.value + priorLifetime <= principal
  {
  }

  /** Opening a window succeeds once nothing it subtracts underflows. */
  lemma WindowOpens(c: Config, b: Books, reportCapacity: u64, now: i64, w: Window)
    requires PeriodAt(c.t0, now) == Ok(w.period) && b.period <= w.period
    requires RuleIndex(c.rules, w.period) == Ok(w.annualIndex) && b.annualIndex <= w.annualIndex
    requires b.sharedUsed == b.periodUsed.founder + b.periodUsed.treasury
    requires w.periodUsed == UsedIn(b, w.period)
    requires w.annualUsed == AnnualUsedIn(b, w.annualIndex)
    requires AnnualCaps(c.rules.At(w.annualIndex)) == Ok(w.annualCaps)
    requires w.periodUsed.founder <= w.annualUsed.founder && w.periodUsed.founder <= b.released.founder
    requires w.periodUsed.treasury <= w.annualUsed.treasury && w.periodUsed.treasury <= b.released.treasury
    requires WindowCap(c.periodCap.founder, w.annualCaps.founder, w.annualUsed.founder - w.periodUsed.founder,
                       c.amount.founder, b.released.founder - w.periodUsed.founder) == Ok(w.caps.founder)
    requires WindowCap(c.periodCap.treasury, w.annualCaps.treasury, w.annualUsed.treasury - w.periodUsed.treasury,
                       c.amount.treasury, b.released.treasury - w.periodUsed.treasury) == Ok(w.caps.treasury)
    requires var prior := w.annualUsed.founder - w.periodUsed.founder + w.annualUsed.treasury - w.periodUsed.treasury;
      prior <= c.rules.At(w.annualIndex).sharedCap
      && w.capacity == Min(Min(reportCapacity, c.sharedHardCap), c.rules.At(w.annualIndex).sharedCap - prior)
    ensures OpenWindow(c, b, reportCapacity, now) == Ok(w)
  {
  }

  lemma PriorFits(c: Config, b: Books, period: u64, index: u8, r: Role)
    requires BooksStand(c, b) && (period == b.period ==> index == b.annualIndex)
    ensures UsedIn(b, period).Get(r) <= AnnualUsedIn(b, index).Get(r) <= Entitlement(c.rules.At(index), r)
    ensures UsedIn(b, period).Get(r) <= b.released.Get(r) <= c.amount.Get(r)
  {
    assert PoolStands(c, b, r);
  }

  lemma WindowExists(c: Config, b: Books, reportCapacity: u64, now: time)
    requires ConfigOk(c) && BooksStand(c, b)
    requires c.t0 <= now && b.period <= PeriodAt(c.t0, now).value < c.rules.second.endPeriod
    ensures var window := OpenWindow(c, b, reportCapacity, now);
      window.Ok? && window.value.period == PeriodAt(c.t0, now).value && WindowOk(c, b, reportCapacity, window.value)
      && CapsAre(c, window.value)
  {
    var period := PeriodAt(c.t0, now).value;
    RuleIndexMonotone(c, b, period);
    var index := RuleIndex(c.rules, period).value;
    RuleCaps(c, index);
    PriorFits(c, b, period, index, Founder);
    PriorFits(c, b, period, index, Treasury);
    WindowBuilt(c, b, reportCapacity, now, period, index, UsedIn(b, period), AnnualUsedIn(b, index),
        AnnualCaps(c.rules.At(index)).value);
  }

  lemma WindowBuilt(c: Config, b: Books, reportCapacity: u64, now: i64, period: u64, index: u8, used: Amounts,
          annualUsed: Amounts, annualCaps: Amounts)
    requires PeriodAt(c.t0, now) == Ok(period) && RuleIndex(c.rules, period) == Ok(index)
    requires b.period <= period && b.annualIndex <= index <= 1 && (period == b.period ==> index == b.annualIndex)
    requires b.sharedUsed == b.periodUsed.founder + b.periodUsed.treasury
    requires used == UsedIn(b, period) && annualUsed == AnnualUsedIn(b, index)
    requires AnnualCaps(c.rules.At(index)) == Ok(annualCaps)
    requires used.founder <= annualUsed.founder <= annualCaps.founder
    requires used.founder <= b.released.founder <= c.amount.founder
    requires used.treasury <= annualUsed.treasury <= annualCaps.treasury
    requires used.treasury <= b.released.treasury <= c.amount.treasury
    requires annualUsed.founder + annualUsed.treasury <= c.rules.At(index).sharedCap
    ensures var window := OpenWindow(c, b, reportCapacity, now);
      window.Ok? && window.value.period == period && WindowOk(c, b, reportCapacity, window.value)
      && window.value.annualIndex == index && window.value.annualCaps == annualCaps
  {
    hide PeriodAt, RuleIndex, AnnualCaps, WindowCap, OpenWindow, PoolWindow, UsedIn, AnnualUsedIn;
    var f := PoolCap(c, b, used, annualUsed, annualCaps, Founder);
    var t := PoolCap(c, b, used, annualUsed, annualCaps, Treasury);
    var prior := annualUsed.founder - used.founder + annualUsed.treasury - used.treasury;
    var capacity := Min(Min(reportCapacity, c.sharedHardCap), c.rules.At(index).sharedCap - prior);
    var w := Window(period, index, used, annualUsed, annualCaps, Amounts(f, t), capacity);
    PoolBuilt(c, b, w, Founder);
    PoolBuilt(c, b, w, Treasury);
    WindowOpens(c, b, reportCapacity, now, w);
    IndexCovers(c.rules, period, index);
  }

  lemma IndexCovers(rules: Rules, period: u64, index: u8)
    requires RuleIndex(rules, period) == Ok(index)
    ensures Covers(rules.At(index), period)
  {
  }

  /** The cap of one pool's window, which exists because nothing it subtracts underflows. */
  lemma PoolCap(c: Config, b: Books, used: Amounts, annualUsed: Amounts, annualCaps: Amounts, r: Role)
    returns (cap: u64)
    requires used.Get(r) <= annualUsed.Get(r) <= annualCaps.Get(r)
    requires used.Get(r) <= b.released.Get(r) <= c.amount.Get(r)
    ensures Ok(cap) == WindowCap(c.periodCap.Get(r), annualCaps.Get(r), annualUsed.Get(r) - used.Get(r),
        c.amount.Get(r),
        b.released.Get(r) - used.Get(r))
  {
    WindowCapExists(c.periodCap.Get(r), annualCaps.Get(r), annualUsed.Get(r) - used.Get(r), c.amount.Get(r),
        b.released.Get(r) - used.Get(r));
    cap := WindowCap(c.periodCap.Get(r), annualCaps.Get(r), annualUsed.Get(r) - used.Get(r), c.amount.Get(r),
        b.released.Get(r) - used.Get(r)).value;
  }

  lemma PoolBuilt(c: Config, b: Books, w: Window, r: Role)
    requires w.periodUsed.Get(r) <= w.annualUsed.Get(r) <= w.annualCaps.Get(r)
    requires w.periodUsed.Get(r) <= b.released.Get(r) <= c.amount.Get(r)
    requires Ok(w.caps.Get(r)) == WindowCap(c.periodCap.Get(r), w.annualCaps.Get(r),
        w.annualUsed.Get(r) - w.periodUsed.Get(r), c.amount.Get(r), b.released.Get(r) - w.periodUsed.Get(r))
    ensures PoolWindow(c, b, w, r)
  {
    WindowCapExists(c.periodCap.Get(r), w.annualCaps.Get(r), w.annualUsed.Get(r) - w.periodUsed.Get(r), c.amount.Get(r),
        b.released.Get(r) - w.periodUsed.Get(r));
    hide WindowCap;
  }

  /**
   Under the accounting invariant the window's limits exist for every time from the stored period
   on that an annual rule covers: no subtraction underflows and no accounting check fails.
   */
  lemma LimitsExist(c: Config, b: Books, reportCapacity: u64, now: time)
    requires ConfigOk(c) && BooksStand(c, b)
    requires c.t0 <= now && b.period <= PeriodAt(c.t0, now).value
    ensures var limits := WindowLimits(c, b, reportCapacity, now);
      if PeriodAt(c.t0, now).value < c.rules.second.endPeriod
      then limits.Ok? && limits.value.window.period == PeriodAt(c.t0, now).value
           && WindowOk(c, b, reportCapacity, limits.value.window) && CapsAre(c, limits.value.window)
           && QuotasFit(limits.value, now >= c.t0 + CLIFF)
      else limits == Err(InvalidAnnualRule)
  {
    RuleIndexMonotone(c, b, PeriodAt(c.t0, now).value);
    if PeriodAt(c.t0, now).value < c.rules.second.endPeriod {
      WindowExists(c, b, reportCapacity, now);
      var w := OpenWindow(c, b, reportCapacity, now).value;
      QuotasSplitCapacity(w.capacity, w.caps.founder, w.caps.treasury, now >= c.t0 + CLIFF);
    }
  }

  /** What limits leave room for in one pool. */
  predicate Room(c: Config, b: Books, l: Limits, r: Role) {
    var w := l.window;
    && w.periodUsed.Get(r) <= w.annualUsed.Get(r) <= w.annualCaps.Get(r)
    && w.periodUsed.Get(r) <= b.released.Get(r)
    && l.quotas.Get(r) + w.annualUsed.Get(r) <= w.annualCaps.Get(r) + w.periodUsed.Get(r)
    && l.quotas.Get(r) + b.released.Get(r) <= c.amount.Get(r) + w.periodUsed.Get(r)
    && l.quotas.Get(r) <= c.periodCap.Get(r) && l.quotas.Get(r) <= w.annualCaps.Get(r) / RATE_DIVISOR
  }

  lemma LimitsLeaveRoom(c: Config, b: Books, reportCapacity: u64, l: Limits, eligible: bool, r: Role)
    requires BooksStand(c, b) && WindowOk(c, b, reportCapacity, l.window) && CapsAre(c, l.window)
    requires QuotasFit(l, eligible)
    ensures Room(c, b, l, r)
  {
    PriorFits(c, b, l.window.period, l.window.annualIndex, r);
    if r.Founder? {} else {}
  }

  lemma DrawExact(c: Config, b: Books, v: Vault, l: Limits, eligible: bool, amount: u64)
    requires v.releasedTotal == b.released.Get(v.role)
    requires QuotasFit(l, eligible) && Room(c, b, l, v.role) && v.principal == c.amount.Get(v.role)
    ensures var result := Draw(l, b, v, amount);
      if l.correctionPause then result == Err(CapacityCorrectionPause)
      else if l.window.periodUsed.Get(v.role) + amount <= l.quotas.Get(v.role) then result.Ok?
      else result == Err(ReservedQuotaExceeded) || result == Err(Overflow)
  {
    if v.role.Founder? {} else {}
  }

  /**
   The outcome of a release, exactly: under the invariant the only refusals are an uncovered period, a
   correction pause, and a quota exceeded. The final capacity gate and every accounting check are dead.
   */
  lemma ConsumeExact(c: Config, b: Books, v: Vault, reportCapacity: u64, now: time, amount: u64)
    requires ConfigOk(c) && BooksStand(c, b) && VaultAgrees(c, b, v)
    requires c.t0 <= now && b.period <= PeriodAt(c.t0, now).value
    ensures var limits, result :=
      WindowLimits(c, b, reportCapacity, now), Consume(c, b, v, reportCapacity, now, amount);
      if limits.Err? then limits == Err(InvalidAnnualRule) && result == Err(InvalidAnnualRule)
      else if limits.value.correctionPause then result == Err(CapacityCorrectionPause)
      else if limits.value.window.periodUsed.Get(v.role) + amount <= limits.value.quotas.Get(v.role) then result.Ok?
      else result == Err(ReservedQuotaExceeded) || result == Err(Overflow)
  {
    LimitsExist(c, b, reportCapacity, now);
    var limits := WindowLimits(c, b, reportCapacity, now);
    if limits.Ok? {
      LimitsLeaveRoom(c, b, reportCapacity, limits.value, now >= c.t0 + CLIFF, v.role);
      DrawExact(c, b, v, limits.value, now >= c.t0 + CLIFF, amount);
    }
  }

  /** What a successful release of `amount` leaves behind, apart from the accounting invariant itself. */
  predicate Drawn(c: Config, b: Books, v: Vault, reportCapacity: u64, amount: u64, b': Books, v': Vault) {
    var r := v.role;
    && b'.released.Get(r) == b.released.Get(r) + amount && b'.released.Get(r.Other()) == b.released.Get(r.Other())
    && b'.periodUsed.Get(r) == (if b'.period == b.period then b.periodUsed.Get(r) else 0) + amount
    && b'.periodUsed.Get(r.Other()) == (if b'.period == b.period then b.periodUsed.Get(r.Other()) else 0)
    && b'.periodUsed.Get(r) <= c.periodCap.Get(r)
    && b'.sharedUsed <= Min(reportCapacity, c.sharedHardCap)
    && v' == v.(period := b'.period, periodUsed := b'.periodUsed.Get(r), releasedTotal := b'.released.Get(r))
  }

  /** One pool's part of the invariant after it drew `amount`, which is 0 for the pool that drew nothing. */
  lemma DrawKeepsPool(c: Config, b: Books, l: Limits, r: Role, amount: u64, b': Books, cap: nat, before: nat,
          before': nat)
    requires PoolWithin(c, b, r, cap, before) && Room(c, b, l, r)
    requires l.window.annualUsed == AnnualUsedIn(b, l.window.annualIndex)
    requires if l.window.annualIndex == b.annualIndex then before' == before else before' >= before + cap
    requires b'.periodUsed.Get(r) == l.window.periodUsed.Get(r) + amount <= l.quotas.Get(r)
    requires b'.annualUsed.Get(r) == l.window.annualUsed.Get(r) + amount
    requires b'.released.Get(r) == b.released.Get(r) + amount
    ensures PoolWithin(c, b', r, l.window.annualCaps.Get(r), before')
  {
    if r.Founder? {} else {}
  }

  /** The counters a draw leaves behind. */
  lemma DrawCounters(c: Config, b: Books, v: Vault, l: Limits, eligible: bool, amount: u64)
    requires QuotasFit(l, eligible) && Draw(l, b, v, amount).Ok?
    requires l.window.periodUsed == UsedIn(b, l.window.period)
    ensures var (b', v') := Draw(l, b, v, amount).value; var r, o, w := v.role, v.role.Other(), l.window;
      && b'.period == w.period && b'.annualIndex == w.annualIndex
      && b'.periodUsed.Get(r) == w.periodUsed.Get(r) + amount <= l.quotas.Get(r)
      && b'.periodUsed.Get(o) == w.periodUsed.Get(o) <= l.quotas.Get(o)
      && b'.annualUsed.Get(r) == w.annualUsed.Get(r) + amount && b'.annualUsed.Get(o) == w.annualUsed.Get(o)
      && b'.released.Get(r) == b.released.Get(r) + amount && b'.released.Get(o) == b.released.Get(o)
      && b'.sharedUsed == b'.periodUsed.founder + b'.periodUsed.treasury <= w.capacity
      && v' == v.(period := b'.period, periodUsed := b'.periodUsed.Get(r), releasedTotal := b'.released.Get(r))
  {
    if v.role.Founder? {} else {}
  }

  lemma PoolOf(c: Config, b: Books, r: Role)
    requires BooksInv(c, b)
    ensures PoolWithin(c, b, r, Entitlement(c.rules.At(b.annualIndex), r), Before(c, b.annualIndex, r))
    ensures BooksStand(c, b)
  {
    BooksParts(c, b);
    hide PoolWithin, Entitlement, BooksStand, Covers;
    assert PoolInv(c, b, r);
  }

  /** A window's caps, and what it was entitled to before. */
  lemma WindowParts(c: Config, b: Books, reportCapacity: u64, w: Window, r: Role)
    requires WindowOk(c, b, reportCapacity, w) && CapsAre(c, w)
    ensures w.annualCaps.Get(r) == Entitlement(c.rules.At(w.annualIndex), r)
    ensures w.annualUsed == AnnualUsedIn(b, w.annualIndex) && w.periodUsed == UsedIn(b, w.period)
    ensures if w.annualIndex == b.annualIndex then Before(c, w.annualIndex, r) == Before(c, b.annualIndex, r)
            else Before(c, w.annualIndex, r) >= Before(c, b.annualIndex, r) + Entitlement(c.rules.At(b.annualIndex), r)
  {
    hide Entitlement, Covers, PoolWindow;
  }

  lemma DrawKeepsPoolInv(c: Config, b: Books, v: Vault, reportCapacity: u64, l: Limits, eligible: bool, amount: u64,
          r: Role)
    requires BooksInv(c, b)
    requires WindowOk(c, b, reportCapacity, l.window) && CapsAre(c, l.window) && QuotasFit(l, eligible)
    requires Draw(l, b, v, amount).Ok?
    ensures PoolInv(c, Draw(l, b, v, amount).value.0, r)
  {
    hide Draw, WindowOk, CapsAre, BooksInv, BooksStand, QuotasFit, Entitlement, Before, PoolWithin, Room, Covers;
    PoolOf(c, b, r);
    WindowParts(c, b, reportCapacity, l.window, r);
    DrawCounters(c, b, v, l, eligible, amount);
    LimitsLeaveRoom(c, b, reportCapacity, l, eligible, r);
    var index, index' := b.annualIndex, l.window.annualIndex;
    DrawKeepsPool(c, b, l, r, if r == v.role then amount else 0, Draw(l, b, v, amount).value.0,
                  Entitlement(c.rules.At(index), r), Before(c, index, r), Before(c, index', r));
  }

  lemma DrawKeepsBooks(c: Config, b: Books, v: Vault, reportCapacity: u64, l: Limits, eligible: bool, amount: u64)
    requires BooksInv(c, b)
    requires WindowOk(c, b, reportCapacity, l.window) && CapsAre(c, l.window) && QuotasFit(l, eligible)
    requires v.role.Founder? ==> l.window.period >= 6
    requires b.period <= l.window.period
    requires Draw(l, b, v, amount).Ok?
    ensures var (b', v') := Draw(l, b, v, amount).value;
      BooksInv(c, b') && b'.period == l.window.period && Drawn(c, b, v, reportCapacity, amount, b', v')
  {
    hide Draw, CapsAre, PoolInv, PoolWindow, Entitlement, Covers;
    DrawCounters(c, b, v, l, eligible, amount);
    DrawKeepsPoolInv(c, b, v, reportCapacity, l, eligible, amount, Founder);
    DrawKeepsPoolInv(c, b, v, reportCapacity, l, eligible, amount, Treasury);
    assert l.quotas.Get(v.role) <= c.periodCap.Get(v.role) by {
      BooksParts(c, b);
      LimitsLeaveRoom(c, b, reportCapacity, l, eligible, v.role);
    }
  }

  lemma DrawnVaultsAgree(c: Config, b: Books, v: Vault, other: Vault, reportCapacity: u64, amount: u64, b': Books,
          v': Vault)
    requires VaultAgrees(c, b, v) && VaultAgrees(c, b, other) && other.role == v.role.Other()
    requires Drawn(c, b, v, reportCapacity, amount, b', v') && b.period <= b'.period
    requires v.role.Founder? ==> b'.period >= 6
    ensures VaultAgrees(c, b', v') && VaultAgrees(c, b', other)
  {
    if v.role.Founder? {} else {}
  }

  /** Every successful release keeps the accounting invariant and both vaults in agreement with it. */
  lemma ConsumeKeepsBooks(c: Config, b: Books, v: Vault, other: Vault, reportCapacity: u64, now: time, amount: u64)
    requires ConfigOk(c) && BooksInv(c, b) && VaultAgrees(c, b, v) && VaultAgrees(c, b, other)
    requires other.role == v.role.Other()
    requires v.role.Founder? ==> now >= c.t0 + CLIFF
    requires c.t0 <= now && b.period <= PeriodAt(c.t0, now).value
    requires Consume(c, b, v, reportCapacity, now, amount).Ok?
    ensures var (b', v') := Consume(c, b, v, reportCapacity, now, amount).value;
      && BooksInv(c, b') && VaultAgrees(c, b', v') && VaultAgrees(c, b', other)
      && PeriodAt(c.t0, now) == Ok(b'.period) && Drawn(c, b, v, reportCapacity, amount, b', v')
  {
    LimitsExist(c, b, reportCapacity, now);
    CliffIsPeriodSix(c.t0, now);
    RuleIndexMonotone(c, b, PeriodAt(c.t0, now).value);
    DrawKeepsBooks(c, b, v, reportCapacity, WindowLimits(c, b, reportCapacity, now).value, now >= c.t0 + CLIFF, amount);
    var (b', v') := Consume(c, b, v, reportCapacity, now, amount).value;
    DrawnVaultsAgree(c, b, v, other, reportCapacity, amount, b', v');
  }

  /** A pool's lifetime total never exceeds its two annual entitlements, hence a tenth of its principal. */
  lemma LifetimeBound(c: Config, b: Books, r: Role)
    requires ConfigOk(c) && BooksInv(c, b)
    ensures b.released.Get(r) <= Entitlement(c.rules.first, r) + Entitlement(c.rules.second, r)
    ensures 10 * b.released.Get(r) <= c.amount.Get(r)
  {
    RuleCaps(c, 0);
    RuleCaps(c, 1);
    assert PoolInv(c, b, r);
  }

  /** A report that is not lower than one without a correction pause causes none. */
  lemma HigherReportNeverPauses(c: Config, b: Books, low: u64, high: u64, now: i64)
    requires low <= high
    requires WindowLimits(c, b, low, now).Ok? && !WindowLimits(c, b, low, now).value.correctionPause
    ensures WindowLimits(c, b, high, now).Ok? && !WindowLimits(c, b, high, now).value.correctionPause
  {
    var l, l' := WindowLimits(c, b, low, now).value, WindowLimits(c, b, high, now).value;
    QuotasMonotone(l.window.capacity, l'.window.capacity, l.window.caps.founder, l.window.caps.treasury,
        now >= c.t0 + CLIFF);
  }
}
