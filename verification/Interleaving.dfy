/**
 Path independence of the capacity kernel: within one period and under one report, a sequence of releases
 succeeds exactly when each pool's sum fits its own remaining quota, and only the sums shape the result.
 */
module Interleaving {
  import opened Basics
  import opened State
  import opened Capacity

  /** The state the kernel reads and writes: the policy's books and both vaults. */
  datatype Kernel = Kernel(books: Books, founder: Vault, treasury: Vault) {
    function VaultOf(r: Role): Vault { if r.Founder? then founder else treasury }
    function After(b: Books, v: Vault): Kernel {
      if v.role.Founder? then Kernel(b, v, treasury) else Kernel(b, founder, v)
    }
  }

  datatype Release = Release(role: Role, amount: u64, now: time)

  predicate KernelInv(c: Config, k: Kernel) {
    && BooksInv(c, k.books)
    && k.founder.role == Founder && k.treasury.role == Treasury
    && VaultAgrees(c, k.books, k.founder) && VaultAgrees(c, k.books, k.treasury)
  }

  function Next(c: Config, reportCapacity: u64, k: Kernel, d: Release): Result<Kernel> {
    var (b, v) :- Consume(c, k.books, k.VaultOf(d.role), reportCapacity, d.now, d.amount);
    Ok(k.After(b, v))
  }

  /** Release after release, stopping at the first refusal. */
  function Run(c: Config, reportCapacity: u64, k: Kernel, releases: seq<Release>): Result<Kernel>
    decreases |releases|
  {
    if releases == [] then Ok(k)
    else
      var k' :- Next(c, reportCapacity, k, releases[0]);
      Run(c, reportCapacity, k', releases[1..])
  }

  /** What one pool draws in total. */
  function Total(releases: seq<Release>, r: Role): nat {
    if releases == [] then 0
    else (if releases[0].role == r then releases[0].amount else 0) + Total(releases[1..], r)
  }

  /** Positive releases at times of one period. */
  predicate InPeriod(c: Config, releases: seq<Release>, period: u64) {
    forall d | d in releases :: PeriodAt(c.t0, d.now) == Ok(period) && d.amount > 0
  }

  predicate Fits(l: Limits, releases: seq<Release>) {
    && l.window.periodUsed.founder + Total(releases, Founder) <= l.quotas.founder
    && l.window.periodUsed.treasury + Total(releases, Treasury) <= l.quotas.treasury
  }

  function Plus(a: Amounts, founder: nat, treasury: nat): Amounts
    requires a.founder + founder <= U64_MAX && a.treasury + treasury <= U64_MAX
  {
    Amounts(a.founder + founder, a.treasury + treasury)
  }

  predicate Settleable(b: Books, w: Window, founder: nat, treasury: nat) {
    && w.periodUsed.founder + w.periodUsed.treasury + founder + treasury <= U64_MAX
    && w.annualUsed.founder + founder <= U64_MAX && w.annualUsed.treasury + treasury <= U64_MAX
    && b.released.founder + founder <= U64_MAX && b.released.treasury + treasury <= U64_MAX
  }

  function SettledBooks(b: Books, w: Window, founder: nat, treasury: nat): Books
    requires Settleable(b, w, founder, treasury)
  {
    Books(w.period, w.annualIndex, Plus(w.periodUsed, founder, treasury), Plus(w.annualUsed, founder, treasury),
          Plus(b.released, founder, treasury), w.periodUsed.founder + w.periodUsed.treasury + founder + treasury)
  }

  /** A vault that drew nothing keeps even its stale period. */
  function SettledVault(b: Books, v: Vault, total: nat): Vault {
    if total == 0 then v
    else v.(period := b.period, periodUsed := b.periodUsed.Get(v.role), releasedTotal := b.released.Get(v.role))
  }

  /** The state that a window leaves after the pools drew the given totals: no order, no split. */
  function Settled(k: Kernel, w: Window, founder: nat, treasury: nat): Kernel
    requires Settleable(k.books, w, founder, treasury)
  {
    var b := SettledBooks(k.books, w, founder, treasury);
    Kernel(b, SettledVault(b, k.founder, founder), SettledVault(b, k.treasury, treasury))
  }

  /** Times of one period see the same limits, because the cliff falls on a period's start. */
  lemma SamePeriodSameLimits(c: Config, b: Books, reportCapacity: u64, now: time, now': time)
    requires ConfigOk(c) && c.t0 <= now && PeriodAt(c.t0, now) == PeriodAt(c.t0, now')
    ensures WindowLimits(c, b, reportCapacity, now) == WindowLimits(c, b, reportCapacity, now')
  {
    CliffIsPeriodSix(c.t0, now);
    CliffIsPeriodSix(c.t0, now');
    assert OpenWindow(c, b, reportCapacity, now) == OpenWindow(c, b, reportCapacity, now');
  }

  /** After a draw the window of the same period has the same caps and capacity: prior use excludes current use. */
  lemma DrawKeepsWindow(c: Config, b: Books, b': Books, reportCapacity: u64, now: time, w: Window)
    requires OpenWindow(c, b, reportCapacity, now) == Ok(w)
    requires b'.period == w.period && b'.annualIndex == w.annualIndex
    requires b'.sharedUsed == b'.periodUsed.founder + b'.periodUsed.treasury
    requires b'.annualUsed.founder - b'.periodUsed.founder == w.annualUsed.founder - w.periodUsed.founder >= 0
    requires b'.annualUsed.treasury - b'.periodUsed.treasury == w.annualUsed.treasury - w.periodUsed.treasury >= 0
    requires b'.released.founder - b'.periodUsed.founder == b.released.founder - w.periodUsed.founder >= 0
    requires b'.released.treasury - b'.periodUsed.treasury == b.released.treasury - w.periodUsed.treasury >= 0
    ensures OpenWindow(c, b', reportCapacity, now) == Ok(w.(periodUsed := b'.periodUsed, annualUsed := b'.annualUsed))
  {
    WindowOpens(c, b', reportCapacity, now, w.(periodUsed := b'.periodUsed, annualUsed := b'.annualUsed));
  }

  lemma WindowUses(c: Config, b: Books, reportCapacity: u64, w: Window)
    requires WindowOk(c, b, reportCapacity, w)
    ensures w.periodUsed == UsedIn(b, w.period) && w.annualUsed == AnnualUsedIn(b, w.annualIndex)
  {
  }

  /** Releases never change the quotas of their own period. */
  lemma DrawKeepsQuotas(c: Config, k: Kernel, reportCapacity: u64, d: Release, l: Limits)
    requires ConfigOk(c) && KernelInv(c, k) && c.t0 <= d.now && k.books.period <= PeriodAt(c.t0, d.now).value
    requires WindowLimits(c, k.books, reportCapacity, d.now) == Ok(l)
    requires Draw(l, k.books, k.VaultOf(d.role), d.amount).Ok?
    ensures var b' := Draw(l, k.books, k.VaultOf(d.role), d.amount).value.0;
      WindowLimits(c, b', reportCapacity, d.now)
        == Ok(Limits(l.window.(periodUsed := b'.periodUsed, annualUsed := b'.annualUsed), l.quotas, false))
  {
    hide PeriodAt, Draw, WindowOk, CapsAre, RulesOk, PoolWindow, OpenWindow, ReservedQuotas, PoolInv, VaultAgrees,
      BooksInv, BooksStand, WithinEntitlements, Room;
    BooksParts(c, k.books);
    LimitsExist(c, k.books, reportCapacity, d.now);
    DrawCounters(c, k.books, k.VaultOf(d.role), l, d.now >= c.t0 + CLIFF, d.amount) by {
      WindowUses(c, k.books, reportCapacity, l.window);
    }
    LimitsLeaveRoom(c, k.books, reportCapacity, l, d.now >= c.t0 + CLIFF, Founder);
    LimitsLeaveRoom(c, k.books, reportCapacity, l, d.now >= c.t0 + CLIFF, Treasury);
    var b' := Draw(l, k.books, k.VaultOf(d.role), d.amount).value.0;
    DrawKeepsWindow(c, k.books, b', reportCapacity, d.now, l.window);
    if d.role.Founder? {} else {}
  }

  lemma DrawSettles(c: Config, k: Kernel, l: Limits, eligible: bool, d: Release)
    requires KernelInv(c, k) && QuotasFit(l, eligible)
    requires l.window.periodUsed == UsedIn(k.books, l.window.period)
    requires Draw(l, k.books, k.VaultOf(d.role), d.amount).Ok? && d.amount > 0
    ensures var (b', v') := Draw(l, k.books, k.VaultOf(d.role), d.amount).value;
      var f, t := if d.role.Founder? then d.amount else 0, if d.role.Founder? then 0 else d.amount;
      Settleable(k.books, l.window, f, t) && k.After(b', v') == Settled(k, l.window, f, t)
  {
    if d.role.Founder? {} else {}
  }

  /** Settling twice in one window is settling once with the sums. */
  lemma SettledTwice(k: Kernel, w: Window, f: nat, t: nat, k': Kernel, w': Window, f': nat, t': nat)
    requires k.founder.role == Founder && k.treasury.role == Treasury
    requires Settleable(k.books, w, f, t) && k' == Settled(k, w, f, t)
    requires w' == w.(periodUsed := k'.books.periodUsed, annualUsed := k'.books.annualUsed)
    requires Settleable(k.books, w, f + f', t + t')
    ensures Settleable(k'.books, w', f', t') && Settled(k', w', f', t') == Settled(k, w, f + f', t + t')
  {
  }

  /** Totals that fit the quotas can be settled. */
  lemma FittingSettles(c: Config, k: Kernel, reportCapacity: u64, now: time, l: Limits, releases: seq<Release>)
    requires ConfigOk(c) && KernelInv(c, k) && c.t0 <= now && k.books.period <= PeriodAt(c.t0, now).value
    requires WindowLimits(c, k.books, reportCapacity, now) == Ok(l) && Fits(l, releases)
    ensures Settleable(k.books, l.window, Total(releases, Founder), Total(releases, Treasury))
  {
    BooksParts(c, k.books);
    LimitsExist(c, k.books, reportCapacity, now);
    LimitsLeaveRoom(c, k.books, reportCapacity, l, now >= c.t0 + CLIFF, Founder);
    LimitsLeaveRoom(c, k.books, reportCapacity, l, now >= c.t0 + CLIFF, Treasury);
  }

  /** One release's part of the totals. */
  function Part(d: Release, r: Role): u64 { if d.role == r then d.amount else 0 }

  /** The limits that books of the same window leave. */
  function Later(l: Limits, b: Books): Limits {
    Limits(l.window.(periodUsed := b.periodUsed, annualUsed := b.annualUsed), l.quotas, false)
  }

  /** One release succeeds exactly when it fits its own quota; it then settles and leaves the quotas as they were. */
  lemma NextExact(c: Config, reportCapacity: u64, k: Kernel, d: Release, l: Limits)
    requires ConfigOk(c) && KernelInv(c, k) && d.amount > 0
    requires c.t0 <= d.now && k.books.period <= PeriodAt(c.t0, d.now).value
    requires WindowLimits(c, k.books, reportCapacity, d.now) == Ok(l) && !l.correctionPause
    ensures Next(c, reportCapacity, k, d).Ok? <==> l.window.periodUsed.Get(d.role) + d.amount <= l.quotas.Get(d.role)
    ensures Next(c, reportCapacity, k, d).Ok? ==>
      var k' := Next(c, reportCapacity, k, d).value;
      && KernelInv(c, k') && PeriodAt(c.t0, d.now) == Ok(k'.books.period)
      && WindowLimits(c, k'.books, reportCapacity, d.now) == Ok(Later(l, k'.books))
      && k'.books.periodUsed.founder == l.window.periodUsed.founder + Part(d, Founder)
      && k'.books.periodUsed.treasury == l.window.periodUsed.treasury + Part(d, Treasury)
      && Settleable(k.books, l.window, Part(d, Founder), Part(d, Treasury))
      && k' == Settled(k, l.window, Part(d, Founder), Part(d, Treasury))
  {
    BooksParts(c, k.books);
    ConsumeExact(c, k.books, k.VaultOf(d.role), reportCapacity, d.now, d.amount);
    if Next(c, reportCapacity, k, d).Ok? {
      NextKeeps(c, reportCapacity, k, d, l);
    }
  }

  lemma NextKeeps(c: Config, reportCapacity: u64, k: Kernel, d: Release, l: Limits)
    requires ConfigOk(c) && KernelInv(c, k) && d.amount > 0
    requires c.t0 <= d.now && k.books.period <= PeriodAt(c.t0, d.now).value
    requires WindowLimits(c, k.books, reportCapacity, d.now) == Ok(l)
    requires Next(c, reportCapacity, k, d).Ok?
    ensures var k' := Next(c, reportCapacity, k, d).value;
      && KernelInv(c, k') && PeriodAt(c.t0, d.now) == Ok(k'.books.period)
      && WindowLimits(c, k'.books, reportCapacity, d.now) == Ok(Later(l, k'.books))
      && k'.books.periodUsed.founder == l.window.periodUsed.founder + Part(d, Founder)
      && k'.books.periodUsed.treasury == l.window.periodUsed.treasury + Part(d, Treasury)
      && Settleable(k.books, l.window, Part(d, Founder), Part(d, Treasury))
      && k' == Settled(k, l.window, Part(d, Founder), Part(d, Treasury))
  {
    BooksParts(c, k.books);
    LimitsExist(c, k.books, reportCapacity, d.now);
    CliffIsPeriodSix(c.t0, d.now);
    DrawKeepsQuotas(c, k, reportCapacity, d, l);
    DrawSettles(c, k, l, d.now >= c.t0 + CLIFF, d);
    DrawCounters(c, k.books, k.VaultOf(d.role), l, d.now >= c.t0 + CLIFF, d.amount);
    ConsumeKeepsBooks(c, k.books, k.VaultOf(d.role), k.VaultOf(d.role.Other()), reportCapacity, d.now, d.amount);
  }

  /** Settling the first release and then the rest is settling them all. */
  lemma RestSettles(k: Kernel, l: Limits, releases: seq<Release>, k': Kernel)
    requires k.founder.role == Founder && k.treasury.role == Treasury && releases != []
    requires Settleable(k.books, l.window, Total(releases, Founder), Total(releases, Treasury))
    requires Settleable(k.books, l.window, Part(releases[0], Founder), Part(releases[0], Treasury))
    requires k' == Settled(k, l.window, Part(releases[0], Founder), Part(releases[0], Treasury))
    ensures var w', f, t := Later(l, k'.books).window, Total(releases[1..], Founder), Total(releases[1..], Treasury);
      && Settleable(k'.books, w', f, t)
      && Settled(k', w', f, t) == Settled(k, l.window, Total(releases, Founder), Total(releases, Treasury))
      && (releases[1..] == [] ==> k' == Settled(k, l.window, Total(releases, Founder), Total(releases, Treasury)))
  {
    hide SettledBooks, SettledVault, Settleable;
    var d, f, t := releases[0], Total(releases[1..], Founder), Total(releases[1..], Treasury);
    SettledTwice(k, l.window, Part(d, Founder), Part(d, Treasury), k', Later(l, k'.books).window, f, t);
  }

  /**
   From limits without a pause, releases within one period succeed exactly when each pool's sum fits that
   pool's own quota, whatever their order, and leave the state that the two sums determine.
   */
  lemma {:induction false} RunExact(c: Config, reportCapacity: u64, k: Kernel, releases: seq<Release>, period: u64,
          now: time, l: Limits)
    requires ConfigOk(c) && KernelInv(c, k) && k.books.period <= period
    requires InPeriod(c, releases, period) && PeriodAt(c.t0, now) == Ok(period)
    requires WindowLimits(c, k.books, reportCapacity, now) == Ok(l) && !l.correctionPause
    ensures Run(c, reportCapacity, k, releases).Ok? <==> Fits(l, releases)
    ensures Fits(l, releases) && releases != [] ==>
      Settleable(k.books, l.window, Total(releases, Founder), Total(releases, Treasury))
      && Run(c, reportCapacity, k, releases)
        == Ok(Settled(k, l.window, Total(releases, Founder), Total(releases, Treasury)))
    decreases |releases|
  {
    hide BooksInv, VaultAgrees, WindowLimits, Next, WindowOk, CapsAre, Settleable, Settled;
    BooksParts(c, k.books);
    LimitsExist(c, k.books, reportCapacity, now);
    if releases == [] {
    } else {
      var d, rest := releases[0], releases[1..];
      SamePeriodSameLimits(c, k.books, reportCapacity, now, d.now);
      NextExact(c, reportCapacity, k, d, l);
      var next := Next(c, reportCapacity, k, d);
      assert Total(releases, Founder) == Part(d, Founder) + Total(rest, Founder);
      assert Total(releases, Treasury) == Part(d, Treasury) + Total(rest, Treasury);
      assert Fits(l, releases) ==> next.Ok?;
      if next.Ok? {
        assert Run(c, reportCapacity, k, releases) == Run(c, reportCapacity, next.value, rest);
        RunExact(c, reportCapacity, next.value, rest, period, d.now, Later(l, next.value.books));
        if Fits(l, releases) {
          FittingSettles(c, k, reportCapacity, now, l, releases);
          RestSettles(k, l, releases, next.value);
        }
      }
    }
  }

  /** Reordering or splitting releases changes neither whether they succeed nor the state they leave. */
  lemma PathIndependence(c: Config, reportCapacity: u64, k: Kernel, one: seq<Release>, other: seq<Release>, period: u64,
          now: time)
    requires ConfigOk(c) && KernelInv(c, k) && k.books.period <= period
    requires InPeriod(c, one, period) && InPeriod(c, other, period) && PeriodAt(c.t0, now) == Ok(period)
    requires WindowLimits(c, k.books, reportCapacity, now).Ok?
      && !WindowLimits(c, k.books, reportCapacity, now).value.correctionPause
    requires Total(one, Founder) == Total(other, Founder) && Total(one, Treasury) == Total(other, Treasury)
    ensures Run(c, reportCapacity, k, one).Ok? <==> Run(c, reportCapacity, k, other).Ok?
    ensures Run(c, reportCapacity, k, one).Ok? ==> Run(c, reportCapacity, k, one) == Run(c, reportCapacity, k, other)
  {
    var l := WindowLimits(c, k.books, reportCapacity, now).value;
    RunExact(c, reportCapacity, k, one, period, now, l);
    RunExact(c, reportCapacity, k, other, period, now, l);
    PositiveTotal(c, one, period);
    PositiveTotal(c, other, period);
  }

  /** The releases of one pool, in order. */
  function Only(releases: seq<Release>, r: Role): seq<Release> {
    if releases == [] then []
    else if releases[0].role == r then [releases[0]] + Only(releases[1..], r)
    else Only(releases[1..], r)
  }

  lemma {:induction false} OnlyTotals(releases: seq<Release>, r: Role)
    ensures Total(Only(releases, r), r) == Total(releases, r) && Total(Only(releases, r), r.Other()) == 0
    ensures forall d | d in Only(releases, r) :: d in releases
  {
    if releases != [] {
      OnlyTotals(releases[1..], r);
      assert releases[0].role == r ==> Only(releases, r)[1..] == Only(releases[1..], r);
    }
  }

  /** Neither pool can starve the other: an interleaving succeeds exactly when each pool's part does alone. */
  lemma NoStarvation(c: Config, reportCapacity: u64, k: Kernel, releases: seq<Release>, period: u64, now: time)
    requires ConfigOk(c) && KernelInv(c, k) && k.books.period <= period
    requires InPeriod(c, releases, period) && PeriodAt(c.t0, now) == Ok(period)
    requires WindowLimits(c, k.books, reportCapacity, now).Ok?
      && !WindowLimits(c, k.books, reportCapacity, now).value.correctionPause
    ensures Run(c, reportCapacity, k, releases).Ok? <==>
      (Run(c, reportCapacity, k, Only(releases, Founder)).Ok?
       && Run(c, reportCapacity, k, Only(releases, Treasury)).Ok?)
  {
    var l := WindowLimits(c, k.books, reportCapacity, now).value;
    OnlyTotals(releases, Founder);
    OnlyTotals(releases, Treasury);
    RunExact(c, reportCapacity, k, releases, period, now, l);
    RunExact(c, reportCapacity, k, Only(releases, Founder), period, now, l);
    RunExact(c, reportCapacity, k, Only(releases, Treasury), period, now, l);
  }

  lemma PositiveTotal(c: Config, releases: seq<Release>, period: u64)
    requires InPeriod(c, releases, period)
    ensures releases == [] <==> Total(releases, Founder) + Total(releases, Treasury) == 0
  {
    if releases != [] {
      assert releases[0] in releases;
    }
  }
}
