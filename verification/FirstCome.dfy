/**
 The earlier first-come vault: one shared window, and per-vault counters that each reset lazily on the vault's
 own next release. Whatever the reserved-quota kernel accepts, this one's kernel accepts too, with equal counters.
 */
module FirstCome {
  import opened Basics
  import opened State
  import opened Tokens

  datatype Observation = Observation(period: u64, capacity: u64, at: i64, sequence: u64)

  /** The policy's shared window and both vaults. */
  datatype Pools = Pools(period: u64, sharedUsed: u64, observation: Observation, lastActionAt: time, founder: Vault,
      treasury: Vault) {
    function Of(r: Role): Vault { if r.Founder? then founder else treasury }
    function With(r: Role, v: Vault): Pools { if r.Founder? then this.(founder := v) else this.(treasury := v) }
  }

  function Report(c: Config, p: Pools, capacity: u64, observedAt: i64, sequence: u64, now: time): Result<Pools> {
    if now < p.lastActionAt then Err(ClockRollback)
    else
      var period :- PeriodAt(c.t0, now);
      var start :- PeriodStart(c.t0, period);
      :- Require(sequence > p.observation.sequence && observedAt >= p.observation.at && observedAt >= start
          && observedAt <= now
                 && now - observedAt <= c.maxReportAge, InvalidReport);
      Ok(p.(observation := Observation(period, capacity, observedAt, sequence), lastActionAt := now))
  }

  /** A report is taken exactly when it is newer than the last, and was observed in the period of now and recently. */
  lemma ReportExactly(c: Config, p: Pools, capacity: u64, observedAt: i64, sequence: u64, now: time)
    requires 0 <= c.t0
    ensures Report(c, p, capacity, observedAt, sequence, now).Ok? <==>
      (p.lastActionAt <= now && c.t0 <= now && p.observation.sequence < sequence && p.observation.at <= observedAt
       && c.t0 + (now - c.t0) / PERIOD * PERIOD <= observedAt <= now && now - observedAt <= c.maxReportAge)
    ensures Report(c, p, capacity, observedAt, sequence, now).Ok? ==>
      Report(c, p, capacity, observedAt, sequence, now).value
      == p.(lastActionAt := now, observation := Observation((now - c.t0) / PERIOD, capacity, observedAt, sequence))
  {
    if c.t0 <= now {
      assert PeriodAt(c.t0, now) == Ok((now - c.t0) / PERIOD);
    }
  }

  /** The vault's use of the given period, whether or not its stored period has been reset yet. */
  function UseIn(v: Vault, period: u64): u64 { if v.period == period then v.periodUsed else 0 }

  function Cap(c: Config, r: Role, now: time): Result<u64> {
    if r.Treasury? then Ok(c.periodCap.treasury)
    else
      var cliff :- CheckedAddTime(c.t0, CLIFF);
      :- Require(now >= cliff, CliffActive);
      Ok(c.periodCap.founder)
  }

  /** What a release checks before it looks at its own pool: the period it falls in, under a fresh report. */
  function Enter(c: Config, p: Pools, r: Role, amount: u64, now: time): Result<u64> {
    if now <= c.t0 then Err(T0Boundary)
    else if amount == 0 then Err(ZeroAmount)
    else
      var period :- PeriodAt(c.t0, now);
      :- Require(period >= p.period && period >= p.Of(r).period, ClockRollback);
      var o := p.observation;
      :- Require(o.sequence > 0 && o.period == period && o.at <= now && now - o.at <= c.maxReportAge, InvalidReport);
      Ok(period)
  }

  /** The accounting of one release, against its pool's own cap and the shared capacity. */
  function Draw(c: Config, p: Pools, r: Role, amount: u64, period: u64, cap: u64): Result<Pools> {
    var shared := if period > p.period then 0 else p.sharedUsed;
    var used := if period > p.Of(r).period then 0 else p.Of(r).periodUsed;
    var released :- CheckedAdd(p.Of(r).releasedTotal, amount, Overflow);
    var used' :- CheckedAdd(used, amount, Overflow);
    var shared' :- CheckedAdd(shared, amount, Overflow);
    :- Require(released <= p.Of(r).principal && used' <= cap && shared' <= Min(c.sharedHardCap, p.observation.capacity),
               CapacityExceeded);
    Ok(p.(period := period, sharedUsed := shared')
        .With(r, p.Of(r).(period := period, periodUsed := used', releasedTotal := released)))
  }

  /** The kernel's part of a release. */
  function Release(c: Config, p: Pools, r: Role, amount: u64, now: time): Result<Pools> {
    if now < p.lastActionAt then Err(ClockRollback)
    else
      var p := p.(lastActionAt := now);
      var period :- Enter(c, p, r, amount, now);
      var cap :- Cap(c, r, now);
      Draw(c, p, r, amount, period, cap)
  }

  /* ---- The lazy resets keep the shared counter honest ---- */

  /** The shared counter is the sum of what both vaults used in the current period, stale vaults counting nothing. */
  predicate PoolsInv(c: Config, p: Pools) {
    && p.founder.role == Founder && p.treasury.role == Treasury
    && p.founder.period <= p.period && p.treasury.period <= p.period
    && p.sharedUsed == UseIn(p.founder, p.period) + UseIn(p.treasury, p.period)
    && p.sharedUsed <= c.sharedHardCap
    && p.founder.periodUsed <= Min(c.periodCap.founder, p.founder.releasedTotal)
    && p.treasury.periodUsed <= Min(c.periodCap.treasury, p.treasury.releasedTotal)
    && p.founder.releasedTotal <= p.founder.principal && p.treasury.releasedTotal <= p.treasury.principal
  }

  lemma ReleaseKeeps(c: Config, p: Pools, r: Role, amount: u64, now: time)
    requires PoolsInv(c, p) && Release(c, p, r, amount, now).Ok?
    ensures PoolsInv(c, Release(c, p, r, amount, now).value)
  {
    if r.Founder? {} else {}
  }

  datatype Action =
    | DoReport(capacity: u64, observedAt: i64, sequence: u64, now: time)
    | DoRelease(role: Role, amount: u64, now: time)

  function Act(c: Config, p: Pools, a: Action): Result<Pools> {
    match a
    case DoReport(capacity, observedAt, sequence, now) => Report(c, p, capacity, observedAt, sequence, now)
    case DoRelease(r, amount, now) => Release(c, p, r, amount, now)
  }

  /** Action after action; a refusal refuses the whole sequence. */
  function ActAll(c: Config, p: Pools, actions: seq<Action>): Result<Pools>
    decreases |actions|
  {
    if actions == [] then Ok(p)
    else
      var before :- ActAll(c, p, actions[..|actions| - 1]);
      Act(c, before, actions[|actions| - 1])
  }

  /** Over any sequence of reports and releases the shared counter stays the sum of the vaults' current use. */
  lemma {:induction false} SharedIsSum(c: Config, p: Pools, actions: seq<Action>)
    requires PoolsInv(c, p) && ActAll(c, p, actions).Ok?
    ensures PoolsInv(c, ActAll(c, p, actions).value)
    decreases |actions|
  {
    if actions != [] {
      SharedIsSum(c, p, actions[..|actions| - 1]);
      var before, a := ActAll(c, p, actions[..|actions| - 1]).value, actions[|actions| - 1];
      hide ActAll;
      if a.DoRelease? {
        ReleaseKeeps(c, before, a.role, a.amount, a.now);
      }
    }
  }

  /** Here one pool can starve the other: a release that succeeds alone is refused once the other pool came first. */
  lemma FirstComeStarves(c: Config, p: Pools, r: Role, now: time)
    requires PoolsInv(c, p) && 0 <= c.t0 < now && c.t0 + CLIFF <= now && p.lastActionAt <= now
    requires p.period < (now - c.t0) / PERIOD && p.observation.period == (now - c.t0) / PERIOD
    requires p.observation.sequence > 0 && p.observation.at <= now && now - p.observation.at <= c.maxReportAge
    requires var most := Min(c.sharedHardCap, p.observation.capacity);
      && 0 < most <= c.periodCap.founder && most <= c.periodCap.treasury
      && most <= p.founder.principal - p.founder.releasedTotal
      && most <= p.treasury.principal - p.treasury.releasedTotal
    ensures var most := Min(c.sharedHardCap, p.observation.capacity);
      && Release(c, p, r, 1, now).Ok? && Release(c, p, r.Other(), most, now).Ok?
      && var after := Release(c, p, r.Other(), most, now).value;
      Release(c, after, r, 1, now).Err?
  {
    if r.Founder? {} else {}
  }

  /* ---- The whole release ---- */

  datatype Approval = Approval(
    period: u64, recipient: Addr, recipientOwner: Key, need: u64, consumed: u64, createdAt: i64)

  /** The accounts of one policy. */
  datatype Ledger = Ledger(phase: Phase, pools: Pools, approvals: map<u64, Approval>, tokens: map<Addr, TokenAccount>)

  /** The account constraints: the vault's own authority signs, and every account named exists. */
  predicate Present(l: Ledger, authority: Signer, r: Role, destination: Addr, approval: Option<u64>) {
    && l.pools.Of(r).authority == authority && VaultToken(r) in l.tokens && destination in l.tokens
    && (approval.Some? ==> approval.value in l.approvals)
  }

  /** The treasury releases within the period's approval, a full period after it was made. */
  function Spend(t: Terms, approvals: map<u64, Approval>, period: u64, destination: Addr, owner: Key, amount: u64,
          approval: Option<u64>, now: time): Result<map<u64, Approval>>
    requires approval.Some? ==> approval.value in approvals
  {
    if approval.None? then Err(InvalidApproval)
    else
      var a := approvals[approval.value];
      :- Require(approval.value == period && a.period == period && a.recipient == destination
                 && a.recipientOwner == owner && a.recipientOwner != t.treasury, InvalidApproval);
      var notice :- CheckedAddTime(a.createdAt, PERIOD);
      :- Require(now >= notice, InvalidApproval);
      var consumed :- CheckedAdd(a.consumed, amount, Overflow);
      :- Require(consumed <= a.need, InvalidApproval);
      Ok(approvals[period := a.(consumed := consumed)])
  }

  /** The founder releases to an account of its own, without an approval. */
  function Consent(t: Terms, approvals: map<u64, Approval>, r: Role, period: u64, destination: Addr, owner: Key,
          amount: u64, approval: Option<u64>, now: time): Result<map<u64, Approval>>
    requires approval.Some? ==> approval.value in approvals
  {
    if r.Treasury? then Spend(t, approvals, period, destination, owner, amount, approval, now)
    else if owner != t.founder then Err(Unauthorized)
    else if approval.Some? then Err(InvalidApproval)
    else Ok(approvals)
  }

  function Pay(t: Terms, l: Ledger, authority: Signer, r: Role, amount: u64, destination: Addr, approval: Option<u64>,
          now: time): Result<Ledger>
  {
    if !Present(l, authority, r, destination, approval) then Err(Constraint)
    else if now < l.pools.lastActionAt then Err(ClockRollback)
    else
      var p := l.pools.(lastActionAt := now);
      :- Require(l.phase == Active, InvalidState);
      var period :- Enter(t.config, p, r, amount, now);
      :- Require(authority == t.Owner(r), Unauthorized);
      var cap :- Cap(t.config, r, now);
      var approvals :- Consent(t, l.approvals, r, period, destination, l.tokens[destination].owner, amount, approval,
          now);
      var pools :- Draw(t.config, p, r, amount, period, cap);
      var tokens :- Transfer(l.tokens, VaultToken(r), destination, amount);
      Ok(l.(pools := pools, approvals := approvals, tokens := tokens))
  }

  /** Custody: each vault's tokens cover what its pool has not released. */
  predicate Covers(l: Ledger, r: Role) {
    Balance(l.tokens, VaultToken(r)) + l.pools.Of(r).releasedTotal >= l.pools.Of(r).principal
  }

  predicate Sound(t: Terms, l: Ledger) {
    && PoolsInv(t.config, l.pools) && Covers(l, Founder) && Covers(l, Treasury)
    && (forall p | p in l.approvals :: l.approvals[p].consumed <= l.approvals[p].need)
  }

  /** Where the kernel draws, the vault covers the transfer. */
  lemma DrawCovered(t: Terms, l: Ledger, r: Role, amount: u64, now: time, destination: Addr)
    requires Sound(t, l) && Supply(l.tokens) <= U64_MAX && VaultToken(r) in l.tokens && destination in l.tokens
    requires Release(t.config, l.pools, r, amount, now).Ok?
    ensures Transfer(l.tokens, VaultToken(r), destination, amount).Ok?
  {
    hide Supply, PeriodAt, Cap, Enter;
    TransferConserves(l.tokens, VaultToken(r), destination, amount);
    if r.Founder? {} else {}
  }

  /**
   A sound policy pays exactly when its accounts are present, it is active, its authority signs, the pool's own
   consent is there, and the kernel draws: the final transfer never refuses.
   */
  lemma PayExactly(t: Terms, l: Ledger, authority: Signer, r: Role, amount: u64, destination: Addr,
          approval: Option<u64>, now: time)
    requires Sound(t, l) && Supply(l.tokens) <= U64_MAX && Present(l, authority, r, destination, approval)
    ensures Pay(t, l, authority, r, amount, destination, approval, now).Ok? <==>
      (l.phase == Active && authority == t.Owner(r) && Release(t.config, l.pools, r, amount, now).Ok?
       && Consent(t, l.approvals, r, PeriodAt(t.config.t0, now).value, destination, l.tokens[destination].owner, amount,
                  approval, now).Ok?)
    ensures Pay(t, l, authority, r, amount, destination, approval, now).Ok? ==>
      Pay(t, l, authority, r, amount, destination, approval, now).value.pools
      == Release(t.config, l.pools, r, amount, now).value
  {
    hide Supply, Consent, Draw, Cap, Sound, PeriodAt, Transfer;
    if Release(t.config, l.pools, r, amount, now).Ok? {
      DrawCovered(t, l, r, amount, now, destination);
    }
  }

  /**
   Where a release may go: the founder's to the founder, the treasury's to its period's approved account, on notice.
   */
  predicate Consented(t: Terms, l: Ledger, r: Role, amount: u64, destination: Addr, approval: Option<u64>, now: time) {
    destination in l.tokens
    && var owner, period := l.tokens[destination].owner, (now - t.config.t0) / PERIOD;
    if r.Founder? then owner == t.founder && approval.None?
    else
      && approval.Some? && approval.value == period && period in l.approvals
      && var a := l.approvals[period];
      && a.period == period && a.recipient == destination && a.recipientOwner == owner && owner != t.treasury
      && a.createdAt + 30 * 86_400 <= now && a.consumed + amount <= a.need
  }

  /** What the report of the period and the use of both pools in it leave for a release. */
  predicate Affordable(c: Config, p: Pools, r: Role, amount: u64, now: time) {
    var o, v, period := p.observation, p.Of(r), (now - c.t0) / PERIOD;
    && p.period <= period && o.sequence > 0 && o.period == period && o.at <= now <= o.at + c.maxReportAge
    && (r.Founder? ==> c.t0 + 180 * 86_400 <= now)
    && v.releasedTotal + amount <= v.principal && UseIn(v, period) + amount <= c.periodCap.Get(r)
    && UseIn(p.founder, period) + UseIn(p.treasury, period) + amount <= c.sharedHardCap
    && UseIn(p.founder, period) + UseIn(p.treasury, period) + amount <= o.capacity
  }

  /** The kernel draws exactly what the report and both pools' use leave. */
  lemma ReleaseExactly(c: Config, p: Pools, r: Role, amount: u64, now: time)
    requires PoolsInv(c, p) && 0 <= c.t0
    ensures Release(c, p, r, amount, now).Ok? <==>
      p.lastActionAt <= now && c.t0 < now && 0 < amount && Affordable(c, p, r, amount, now)
  {
    if c.t0 <= now {
      assert PeriodAt(c.t0, now) == Ok((now - c.t0) / PERIOD);
    }
    if r.Founder? {} else {}
  }

  lemma ConsentExactly(t: Terms, l: Ledger, r: Role, amount: u64, destination: Addr, approval: Option<u64>, now: time)
    requires t.config.t0 <= now && PeriodAt(t.config.t0, now).Ok? && destination in l.tokens
    requires approval.Some? ==> approval.value in l.approvals
    ensures Consented(t, l, r, amount, destination, approval, now) <==>
      Consent(t, l.approvals, r, PeriodAt(t.config.t0, now).value, destination, l.tokens[destination].owner, amount,
          approval, now).Ok?
  {
  }

  /**
   Exactly when a sound policy pays: active, signed by the pool's own authority, after the start, to where the pool may
   release, and within what the report and both pools' use leave.
   */
  lemma PaymentExactly(t: Terms, l: Ledger, authority: Signer, r: Role, amount: u64, destination: Addr,
          approval: Option<u64>, now: time)
    requires Sound(t, l) && Supply(l.tokens) <= U64_MAX && 0 <= t.config.t0
    ensures Pay(t, l, authority, r, amount, destination, approval, now).Ok? <==>
      (l.phase == Active && authority == t.Owner(r) && authority == l.pools.Of(r).authority
       && VaultToken(r) in l.tokens && l.pools.lastActionAt <= now && t.config.t0 < now && 0 < amount
       && Consented(t, l, r, amount, destination, approval, now) && Affordable(t.config, l.pools, r, amount, now))
  {
    hide Pay, Supply, Sound, Release, Consent, Consented, Affordable, PoolsInv;
    PoolsSound(t, l);
    if Consented(t, l, r, amount, destination, approval, now) {
      ConsentNamed(t, l, r, amount, destination, approval, now);
    }
    if Present(l, authority, r, destination, approval) {
      PayExactly(t, l, authority, r, amount, destination, approval, now);
      ReleaseExactly(t.config, l.pools, r, amount, now);
      if t.config.t0 < now && Affordable(t.config, l.pools, r, amount, now) {
        PeriodKnown(t.config, now);
        ConsentExactly(t, l, r, amount, destination, approval, now);
      }
    } else {
      NotPresent(t, l, authority, r, amount, destination, approval, now);
    }
  }

  lemma PoolsSound(t: Terms, l: Ledger)
    requires Sound(t, l)
    ensures PoolsInv(t.config, l.pools)
  {
  }

  lemma NotPresent(t: Terms, l: Ledger, authority: Signer, r: Role, amount: u64, destination: Addr,
          approval: Option<u64>, now: time)
    requires !Present(l, authority, r, destination, approval)
    ensures Pay(t, l, authority, r, amount, destination, approval, now).Err?
  {
  }

  lemma ConsentNamed(t: Terms, l: Ledger, r: Role, amount: u64, destination: Addr, approval: Option<u64>, now: time)
    requires Consented(t, l, r, amount, destination, approval, now)
    ensures destination in l.tokens && (approval.Some? ==> approval.value in l.approvals)
  {
  }

  lemma PeriodKnown(c: Config, now: time)
    requires 0 <= c.t0 < now
    ensures PeriodAt(c.t0, now).Ok?
  {
  }

  lemma PayKeeps(t: Terms, l: Ledger, authority: Signer, r: Role, amount: u64, destination: Addr, approval: Option<u64>,
          now: time)
    requires Sound(t, l) && Supply(l.tokens) <= U64_MAX
    requires Pay(t, l, authority, r, amount, destination, approval, now).Ok?
    ensures Sound(t, Pay(t, l, authority, r, amount, destination, approval, now).value)
    ensures Supply(Pay(t, l, authority, r, amount, destination, approval, now).value.tokens) == Supply(l.tokens)
  {
    hide Supply, Cap, PeriodAt, Enter;
    ReleaseKeeps(t.config, l.pools, r, amount, now);
    TransferConserves(l.tokens, VaultToken(r), destination, amount);
    if r.Founder? {} else {}
  }

  /* ---- The release as it runs, in place ---- */

  /** The policy, vault, approval and token accounts that one release writes, in the order in which it writes them. */
  class Accounts {
    const terms: Terms
    var phase: Phase
    var pools: Pools
    var approvals: map<u64, Approval>
    var tokens: map<Addr, TokenAccount>

    constructor (t: Terms, l: Ledger)
      ensures terms == t && Contents() == l
    {
      terms, phase, pools, approvals, tokens := t, l.phase, l.pools, l.approvals, l.tokens;
    }

    ghost function Contents(): Ledger
      reads this
    {
      Ledger(phase, pools, approvals, tokens)
    }

    /** Checks the pool's own consent, adding to what its approval has spent before checking the need. */
    method TakeConsent(r: Role, period: u64, destination: Addr, amount: u64, approval: Option<u64>, now: time)
      returns (result: Result<()>)
      requires destination in tokens && (approval.Some? ==> approval.value in approvals)
      modifies `approvals
      ensures var c := Consent(terms, old(approvals), r, period, destination, tokens[destination].owner, amount,
          approval, now);
        && (result.Ok? ==> c == Ok(approvals))
        && (result.Err? ==> c == Err(result.error))
    {
      var owner := tokens[destination].owner;
      if r == Founder {
        if owner != terms.founder { return Err(Unauthorized); }
        if approval.Some? { return Err(InvalidApproval); }
        return Ok(());
      }
      if approval.None? { return Err(InvalidApproval); }
      var a := approvals[approval.value];
      if !(approval.value == period && a.period == period && a.recipient == destination
        && a.recipientOwner == owner && a.recipientOwner != terms.treasury) { return Err(InvalidApproval); }
      var notice :- CheckedAddTime(a.createdAt, PERIOD);
      if now < notice { return Err(InvalidApproval); }
      var consumed :- CheckedAdd(a.consumed, amount, Overflow);
      approvals := approvals[period := a.(consumed := consumed)];
      if consumed > a.need { return Err(InvalidApproval); }
      return Ok(());
    }

    /** Adds a release to its pool's counters and the shared one, then checks their bounds. */
    method Count(r: Role, amount: u64, period: u64, cap: u64, ghost before: Pools) returns (result: Result<()>)
      requires pools == Current(before, r, period) && period >= before.period && period >= before.Of(r).period
      modifies `pools
      ensures result.Ok? ==> Draw(terms.config, before, r, amount, period, cap) == Ok(pools)
      ensures result.Err? ==> Draw(terms.config, before, r, amount, period, cap) == Err(result.error)
    {
      var released :- CheckedAdd(pools.Of(r).releasedTotal, amount, Overflow);
      pools := pools.With(r, pools.Of(r).(releasedTotal := released));
      var used :- CheckedAdd(pools.Of(r).periodUsed, amount, Overflow);
      pools := pools.With(r, pools.Of(r).(periodUsed := used));
      var shared :- CheckedAdd(pools.sharedUsed, amount, Overflow);
      pools := pools.(sharedUsed := shared);
      if !(released <= pools.Of(r).principal && used <= cap
        && shared <= Min(terms.config.sharedHardCap, pools.observation.capacity)) { return Err(CapacityExceeded); }
      return Ok(());
    }

    /** Checks the clock, the lifecycle and the report, and yields the period of the release. */
    method Admit(r: Role, amount: u64, now: time) returns (result: Result<u64>)
      modifies `pools
      ensures now < old(pools).lastActionAt ==> result == Err(ClockRollback)
      ensures now >= old(pools).lastActionAt ==>
        pools == old(pools).(lastActionAt := now)
        && result == if phase != Active then Err(InvalidState) else Enter(terms.config, pools, r, amount, now)
    {
      var c := terms.config;
      if now < pools.lastActionAt { return Err(ClockRollback); }
      pools := pools.(lastActionAt := now);
      if phase != Active { return Err(InvalidState); }
      if now <= c.t0 { return Err(T0Boundary); }
      if amount == 0 { return Err(ZeroAmount); }
      var period :- PeriodAt(c.t0, now);
      if period < pools.period || period < pools.Of(r).period { return Err(ClockRollback); }
      var o := pools.observation;
      if !(o.sequence > 0 && o.period == period && o.at <= now && now - o.at <= c.maxReportAge) {
        return Err(InvalidReport);
      }
      return Ok(period);
    }

    /** Writes as it goes; after a refusal the runtime discards what was written. */
    method Write(authority: Signer, r: Role, amount: u64, destination: Addr, approval: Option<u64>, now: time)
      returns (result: Result<()>)
      modifies this
      ensures phase == old(phase)
      ensures result.Ok? ==>
        Pay(terms, old(Contents()), authority, r, amount, destination, approval, now) == Ok(Contents())
      ensures result.Err? ==>
        Pay(terms, old(Contents()), authority, r, amount, destination, approval, now) == Err(result.error)
    {
      hide PeriodAt, Cap, Draw, Transfer, Consent;
      if !(pools.Of(r).authority == authority && VaultToken(r) in tokens && destination in tokens
        && (approval.Some? ==> approval.value in approvals)) { return Err(Constraint); }
      var period :- Admit(r, amount, now);
      ghost var before := pools;
      if period > pools.period {
        pools := pools.(period := period, sharedUsed := 0);
      }
      if authority != terms.Owner(r) { return Err(Unauthorized); }
      if period > pools.Of(r).period {
        pools := pools.With(r, pools.Of(r).(period := period, periodUsed := 0));
      }
      var cap :- Cap(terms.config, r, now);
      var _ :- TakeConsent(r, period, destination, amount, approval, now);
      var _ :- Count(r, amount, period, cap, before);
      var paid :- Transfer(tokens, VaultToken(r), destination, amount);
      tokens := paid;
      return Ok(());
    }

    /** A release: committed whole, or nothing changes. */
    method Process(authority: Signer, r: Role, amount: u64, destination: Addr, approval: Option<u64>, now: time)
      returns (result: Result<()>)
      modifies this
      ensures result.Ok? ==>
        Pay(terms, old(Contents()), authority, r, amount, destination, approval, now) == Ok(Contents())
      ensures result.Err? ==>
        Pay(terms, old(Contents()), authority, r, amount, destination, approval, now) == Err(result.error)
        && Contents() == old(Contents())
      ensures Sound(terms, old(Contents())) && Supply(old(tokens)) <= U64_MAX ==>
        Sound(terms, Contents()) && Supply(tokens) == Supply(old(tokens))
    {
      hide Pay, Sound, Supply;
      ghost var before := Contents();
      var oldPools, oldApprovals, oldTokens := pools, approvals, tokens;
      result := Write(authority, r, amount, destination, approval, now);
      if result.Err? {
        pools, approvals, tokens := oldPools, oldApprovals, oldTokens;
      } else if Sound(terms, before) && Supply(before.tokens) <= U64_MAX {
        PayKeeps(terms, before, authority, r, amount, destination, approval, now);
      }
    }
  }

  /** The pools once their stale counters are reset for a period. */
  function Current(p: Pools, r: Role, period: u64): Pools {
    var shared := if period > p.period then p.(period := period, sharedUsed := 0) else p;
    if period > p.Of(r).period then shared.With(r, p.Of(r).(period := period, periodUsed := 0)) else shared
  }
}
