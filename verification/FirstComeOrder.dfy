/**
 Batches of releases of the earlier first-come vault: within one period and under one report, which of them succeed,
 and exactly when neither pool can starve the other.
 */
module FirstComeOrder {
  import opened Basics
  import opened State
  import opened Tokens
  import F = FirstCome
  import I = Interleaving

  /* ---- The kernel ---- */

  /** Release after release; the first refusal refuses the batch. */
  function Through(c: Config, p: F.Pools, draws: seq<I.Release>): Result<F.Pools>
    decreases |draws|
  {
    if draws == [] then Ok(p)
    else
      var p' :- F.Release(c, p, draws[0].role, draws[0].amount, draws[0].now);
      Through(c, p', draws[1..])
  }

  /** Times that never fall, from a first one on. */
  predicate Ordered(at: time, draws: seq<I.Release>)
    decreases |draws|
  {
    draws == [] || (at <= draws[0].now && Ordered(draws[0].now, draws[1..]))
  }

  /** A positive release of the given period, under a fresh report. */
  predicate Proper(c: Config, o: F.Observation, period: u64, d: I.Release) {
    && d.amount > 0 && c.t0 < d.now && PeriodAt(c.t0, d.now) == Ok(period)
    && o.sequence > 0 && o.period == period && o.at <= d.now && d.now - o.at <= c.maxReportAge
  }

  predicate Batch(c: Config, p: F.Pools, draws: seq<I.Release>, period: u64) {
    && p.period <= period && Ordered(p.lastActionAt, draws)
    && forall d | d in draws :: Proper(c, p.observation, period, d)
  }

  function SharedIn(p: F.Pools, period: u64): u64 { if p.period == period then p.sharedUsed else 0 }

  /** What the report and the hard cap leave of the shared window. */
  function Left(c: Config, p: F.Pools, period: u64): int {
    Min(c.sharedHardCap, p.observation.capacity) - SharedIn(p, period)
  }

  /** What a pool's own cap, its principal and the cliff leave it. */
  function Room(c: Config, p: F.Pools, r: Role, period: u64): int {
    var v := p.Of(r);
    if r.Founder? && period < 6 then 0
    else Min(c.periodCap.Get(r) - F.UseIn(v, period), v.principal - v.releasedTotal)
  }

  /** Both sums fit their own rooms, and together what is left of the shared window. */
  predicate Fits(c: Config, p: F.Pools, period: u64, founder: nat, treasury: nat) {
    && founder <= Room(c, p, Founder, period) && treasury <= Room(c, p, Treasury, period)
    && (founder + treasury > 0 ==> founder + treasury <= Left(c, p, period))
  }

  /** A vault that drew nothing keeps even its stale period. */
  predicate Drew(v: Vault, v': Vault, period: u64, sum: nat) {
    if sum == 0 then v' == v
    else
      && v' == v.(period := period, periodUsed := v'.periodUsed, releasedTotal := v'.releasedTotal)
      && v'.periodUsed == F.UseIn(v, period) + sum && v'.releasedTotal == v.releasedTotal + sum
  }

  /** What two sums leave, whatever their order and split. */
  predicate Leaves(p: F.Pools, p': F.Pools, period: u64, founder: nat, treasury: nat) {
    && Drew(p.founder, p'.founder, period, founder) && Drew(p.treasury, p'.treasury, period, treasury)
    && p'.observation == p.observation
    && p'.period == (if founder + treasury == 0 then p.period else period)
    && p'.sharedUsed == (if founder + treasury == 0 then p.sharedUsed else SharedIn(p, period) + founder + treasury)
  }

  lemma CapInPeriod(c: Config, r: Role, now: time, period: u64)
    requires 0 <= c.t0 && PeriodAt(c.t0, now) == Ok(period)
    ensures F.Cap(c, r, now).Ok? <==> (r.Founder? ==> period >= 6)
    ensures F.Cap(c, r, now).Ok? ==> F.Cap(c, r, now).value == c.periodCap.Get(r)
  {
    CliffIsPeriodSix(c.t0, now);
  }

  lemma ReleaseExact(c: Config, p: F.Pools, d: I.Release, period: u64)
    requires 0 <= c.t0 && F.PoolsInv(c, p) && p.period <= period && p.lastActionAt <= d.now
    requires Proper(c, p.observation, period, d)
    ensures F.Release(c, p, d.role, d.amount, d.now).Ok? <==>
      Fits(c, p, period, I.Part(d, Founder), I.Part(d, Treasury))
    ensures F.Release(c, p, d.role, d.amount, d.now).Ok? ==>
      var p' := F.Release(c, p, d.role, d.amount, d.now).value;
      p'.lastActionAt == d.now && Leaves(p, p', period, I.Part(d, Founder), I.Part(d, Treasury))
  {
    hide F.Cap, F.Draw, PeriodAt, Fits, Leaves, F.PoolsInv;
    CapInPeriod(c, d.role, d.now, period);
    var later := p.(lastActionAt := d.now);
    EntersPeriod(c, later, d, period) by { VaultsBehind(c, p, period); }
    assert F.PoolsInv(c, later) by { SameClock(c, p, later, period); }
    if d.role.Founder? && period < 6 {
      CliffRefuses(c, p, d, period);
    } else {
      DrawExact(c, later, d, period);
    }
    SameClock(c, p, later, period);
  }

  lemma EntersPeriod(c: Config, p: F.Pools, d: I.Release, period: u64)
    requires Proper(c, p.observation, period, d) && p.period <= period
    requires p.founder.period <= period && p.treasury.period <= period
    ensures F.Enter(c, p, d.role, d.amount, d.now) == Ok(period)
  {
    hide PeriodAt;
  }

  lemma CliffRefuses(c: Config, p: F.Pools, d: I.Release, period: u64)
    requires d.role.Founder? && period < 6 && d.amount > 0
    ensures !Fits(c, p, period, I.Part(d, Founder), I.Part(d, Treasury))
  {
  }

  /** The time of the last action decides neither what fits nor what is left. */
  lemma SameClock(c: Config, p: F.Pools, later: F.Pools, period: u64)
    requires later == p.(lastActionAt := later.lastActionAt)
    ensures forall f: nat, t: nat :: Fits(c, later, period, f, t) == Fits(c, p, period, f, t)
    ensures forall p', f: nat, t: nat :: Leaves(later, p', period, f, t) == Leaves(p, p', period, f, t)
    ensures F.PoolsInv(c, later) == F.PoolsInv(c, p)
  {
  }

  lemma DrawCounts(c: Config, p: F.Pools, d: I.Release, period: u64)
    requires F.PoolsInv(c, p) && p.period <= period && d.amount > 0 && (d.role.Founder? ==> period >= 6)
    ensures F.Draw(c, p, d.role, d.amount, period, c.periodCap.Get(d.role)).Ok? <==>
      (d.amount <= Room(c, p, d.role, period) && d.amount <= Left(c, p, period))
  {
    if d.role.Founder? {} else {}
  }

  lemma DrawLeaves(c: Config, p: F.Pools, d: I.Release, period: u64)
    requires F.PoolsInv(c, p) && p.period <= period && d.amount > 0
    requires F.Draw(c, p, d.role, d.amount, period, c.periodCap.Get(d.role)).Ok?
    ensures var p' := F.Draw(c, p, d.role, d.amount, period, c.periodCap.Get(d.role)).value;
      p'.lastActionAt == p.lastActionAt && Leaves(p, p', period, I.Part(d, Founder), I.Part(d, Treasury))
  {
    if d.role.Founder? {} else {}
  }

  lemma RoomRemains(c: Config, p: F.Pools, r: Role, period: u64)
    requires F.PoolsInv(c, p)
    ensures 0 <= Room(c, p, r, period)
  {
    if r.Founder? {} else {}
  }

  lemma DrawExact(c: Config, p: F.Pools, d: I.Release, period: u64)
    requires F.PoolsInv(c, p) && p.period <= period && d.amount > 0 && (d.role.Founder? ==> period >= 6)
    ensures var result := F.Draw(c, p, d.role, d.amount, period, c.periodCap.Get(d.role));
      && (result.Ok? <==> Fits(c, p, period, I.Part(d, Founder), I.Part(d, Treasury)))
      && (result.Ok? ==>
            result.value.lastActionAt == p.lastActionAt
            && Leaves(p, result.value, period, I.Part(d, Founder), I.Part(d, Treasury)))
  {
    hide F.Draw, F.PoolsInv, Room, Left, Leaves;
    DrawCounts(c, p, d, period);
    RoomRemains(c, p, Founder, period);
    RoomRemains(c, p, Treasury, period);
    if F.Draw(c, p, d.role, d.amount, period, c.periodCap.Get(d.role)).Ok? {
      DrawLeaves(c, p, d, period);
    }
    if d.role.Founder? {} else {}
  }

  /** After a part of two sums, the rest fits exactly when the sums did. */
  lemma FitsRest(c: Config, p: F.Pools, p': F.Pools, period: u64, f: nat, t: nat, f': nat, t': nat)
    requires F.PoolsInv(c, p) && F.PoolsInv(c, p') && Leaves(p, p', period, f, t) && f + t > 0
    requires Fits(c, p, period, f, t)
    ensures Fits(c, p', period, f', t') <==> Fits(c, p, period, f + f', t + t')
  {
  }

  lemma FitsPart(c: Config, p: F.Pools, period: u64, f: nat, t: nat, f': nat, t': nat)
    requires Fits(c, p, period, f + f', t + t') && f + t > 0
    ensures Fits(c, p, period, f, t)
  {
  }

  lemma LeavesRest(p: F.Pools, p': F.Pools, p'': F.Pools, period: u64, f: nat, t: nat, f': nat, t': nat)
    requires Leaves(p, p', period, f, t) && Leaves(p', p'', period, f', t') && f + t > 0
    requires p.founder.period <= period && p.treasury.period <= period
    ensures Leaves(p, p'', period, f + f', t + t')
  {
  }

  lemma BatchRest(c: Config, p: F.Pools, p': F.Pools, draws: seq<I.Release>, period: u64)
    requires draws != [] && Batch(c, p, draws, period)
    requires p'.period == period && p'.lastActionAt == draws[0].now && p'.observation == p.observation
    ensures Batch(c, p', draws[1..], period)
  {
    hide Proper;
  }

  /**
   From sound counters, a batch of releases of one period under one report succeeds exactly when each pool's sum fits
   its own room and both together fit what is left of the shared window; the sums alone determine what it leaves.
   */
  lemma {:induction false} BatchExact(c: Config, p: F.Pools, draws: seq<I.Release>, period: u64)
    requires 0 <= c.t0 && F.PoolsInv(c, p) && Batch(c, p, draws, period)
    ensures Through(c, p, draws).Ok? <==> Fits(c, p, period, I.Total(draws, Founder), I.Total(draws, Treasury))
    ensures Through(c, p, draws).Ok? ==>
      Leaves(p, Through(c, p, draws).value, period, I.Total(draws, Founder), I.Total(draws, Treasury))
    decreases |draws|
  {
    if draws == [] {
      NothingFits(c, p, period);
    } else {
      hide F.Release, Fits, Leaves, Proper, F.PoolsInv;
      var d, rest := draws[0], draws[1..];
      var f, t, f', t' := I.Part(d, Founder), I.Part(d, Treasury), I.Total(rest, Founder), I.Total(rest, Treasury);
      FirstDraw(c, p, draws, period);
      if Fits(c, p, period, f + f', t + t') {
        FitsPart(c, p, period, f, t, f', t');
      }
      if F.Release(c, p, d.role, d.amount, d.now).Ok? {
        var p' := F.Release(c, p, d.role, d.amount, d.now).value;
        BatchRest(c, p, p', draws, period);
        BatchExact(c, p', rest, period);
        FitsRest(c, p, p', period, f, t, f', t');
        if Through(c, p', rest).Ok? {
          VaultsBehind(c, p, period);
          LeavesRest(p, p', Through(c, p', rest).value, period, f, t, f', t');
        }
      }
    }
  }

  lemma NothingFits(c: Config, p: F.Pools, period: u64)
    requires F.PoolsInv(c, p)
    ensures Fits(c, p, period, 0, 0) && Leaves(p, p, period, 0, 0)
  {
  }

  lemma VaultsBehind(c: Config, p: F.Pools, period: u64)
    requires F.PoolsInv(c, p) && p.period <= period
    ensures p.founder.period <= period && p.treasury.period <= period
  {
  }

  lemma FirstDraw(c: Config, p: F.Pools, draws: seq<I.Release>, period: u64)
    requires 0 <= c.t0 && F.PoolsInv(c, p) && draws != [] && Batch(c, p, draws, period)
    ensures var d := draws[0]; var result := F.Release(c, p, d.role, d.amount, d.now);
      && I.Part(d, Founder) + I.Part(d, Treasury) > 0
      && I.Total(draws, Founder) == I.Part(d, Founder) + I.Total(draws[1..], Founder)
      && I.Total(draws, Treasury) == I.Part(d, Treasury) + I.Total(draws[1..], Treasury)
      && (result.Ok? <==> Fits(c, p, period, I.Part(d, Founder), I.Part(d, Treasury)))
      && (result.Ok? ==>
            var p' := result.value;
            F.PoolsInv(c, p') && p'.period == period && p'.lastActionAt == d.now && p'.observation == p.observation
            && Leaves(p, p', period, I.Part(d, Founder), I.Part(d, Treasury)))
  {
    var d := draws[0];
    assert Proper(c, p.observation, period, d);
    hide F.Release, F.PoolsInv, Fits;
    ReleaseExact(c, p, d, period);
    if F.Release(c, p, d.role, d.amount, d.now).Ok? {
      F.ReleaseKeeps(c, p, d.role, d.amount, d.now);
    }
  }

  /* ---- Exactly when neither pool can starve the other ---- */

  /** A batch succeeds exactly when each pool's releases do without the other's. */
  predicate Independent(c: Config, p: F.Pools, draws: seq<I.Release>) {
    Through(c, p, draws).Ok? <==>
      (Through(c, p, I.Only(draws, Founder)).Ok? && Through(c, p, I.Only(draws, Treasury)).Ok?)
  }

  /** Neither pool can starve the other in the period, under the report of now. */
  ghost predicate NeverStarves(c: Config, p: F.Pools, period: u64) {
    forall draws | Batch(c, p, draws, period) :: Independent(c, p, draws)
  }

  /** Of two rooms in one window, one is empty or both fit together. */
  predicate BothFit(founder: int, treasury: int, left: int) {
    var f, t := Min(founder, left), Min(treasury, left);
    f <= 0 || t <= 0 || f + t <= left
  }

  /** One pool has no room, or the two rooms together fit what is left of the shared window. */
  predicate RoomForBoth(c: Config, p: F.Pools, period: u64) {
    BothFit(Room(c, p, Founder, period), Room(c, p, Treasury, period), Left(c, p, period))
  }

  lemma OrderedEarlier(at: time, later: time, draws: seq<I.Release>)
    requires Ordered(later, draws) && at <= later
    ensures Ordered(at, draws)
  {
  }

  lemma {:induction false} OnlyOrdered(at: time, draws: seq<I.Release>, r: Role)
    requires Ordered(at, draws)
    ensures Ordered(at, I.Only(draws, r))
    decreases |draws|
  {
    if draws != [] {
      OnlyOrdered(draws[0].now, draws[1..], r);
      OrderedEarlier(at, draws[0].now, I.Only(draws[1..], r));
      assert draws[0].role == r ==> I.Only(draws, r)[1..] == I.Only(draws[1..], r);
    }
  }

  lemma OnlyBatch(c: Config, p: F.Pools, draws: seq<I.Release>, period: u64, r: Role)
    requires Batch(c, p, draws, period)
    ensures Batch(c, p, I.Only(draws, r), period)
    ensures I.Total(I.Only(draws, r), r) == I.Total(draws, r) && I.Total(I.Only(draws, r), r.Other()) == 0
  {
    hide Proper;
    OnlyOrdered(p.lastActionAt, draws, r);
    I.OnlyTotals(draws, r);
  }

  /** Whether a batch is independent depends on its two sums alone. */
  lemma IndependentExactly(c: Config, p: F.Pools, draws: seq<I.Release>, period: u64)
    requires 0 <= c.t0 && F.PoolsInv(c, p) && Batch(c, p, draws, period)
    ensures var f, t := I.Total(draws, Founder), I.Total(draws, Treasury);
      Independent(c, p, draws) <==>
        (Fits(c, p, period, f, t) <==> Fits(c, p, period, f, 0) && Fits(c, p, period, 0, t))
  {
    hide F.PoolsInv, Batch, Fits, Leaves, Through;
    OnlyBatch(c, p, draws, period, Founder);
    OnlyBatch(c, p, draws, period, Treasury);
    BatchExact(c, p, draws, period);
    BatchExact(c, p, I.Only(draws, Founder), period);
    BatchExact(c, p, I.Only(draws, Treasury), period);
  }

  lemma SumsCollide(c: Config, p: F.Pools, period: u64, f: nat, t: nat)
    requires F.PoolsInv(c, p) && RoomForBoth(c, p, period)
    ensures Fits(c, p, period, f, t) <==> Fits(c, p, period, f, 0) && Fits(c, p, period, 0, t)
  {
    hide Room, Left;
    if f > 0 && t > 0 {} else {}
  }

  /** Two releases, one of each pool, that take all the room each pool has. */
  function Greedy(c: Config, p: F.Pools, period: u64, now: time): seq<I.Release>
    requires var f, t := Room(c, p, Founder, period), Room(c, p, Treasury, period);
      0 <= Min(f, Left(c, p, period)) && 0 <= Min(t, Left(c, p, period))
  {
    [I.Release(Founder, Min(Room(c, p, Founder, period), Left(c, p, period)), now),
     I.Release(Treasury, Min(Room(c, p, Treasury, period), Left(c, p, period)), now)]
  }

  lemma PairTotals(draws: seq<I.Release>)
    requires |draws| == 2 && draws[0].role == Founder && draws[1].role == Treasury
    ensures I.Total(draws, Founder) == draws[0].amount && I.Total(draws, Treasury) == draws[1].amount
  {
    var rest := draws[1..];
    assert rest[0] == draws[1] && rest[1..] == [];
    assert I.Total(rest, Founder) == 0 && I.Total(rest, Treasury) == draws[1].amount;
  }

  lemma PairBatch(c: Config, p: F.Pools, draws: seq<I.Release>, period: u64, now: time)
    requires |draws| == 2 && draws[0].now == now == draws[1].now && draws[0].amount > 0 && draws[1].amount > 0
    requires p.period <= period && p.lastActionAt <= now
    requires Proper(c, p.observation, period, I.Release(Treasury, 1, now))
    ensures Batch(c, p, draws, period)
  {
    assert Proper(c, p.observation, period, draws[0]) && Proper(c, p.observation, period, draws[1]);
    assert draws[1..][0] == draws[1] && draws[1..][1..] == [];
  }

  lemma GreedyCollides(c: Config, p: F.Pools, period: u64, now: time)
    requires 0 <= c.t0 && F.PoolsInv(c, p) && !RoomForBoth(c, p, period)
    requires Batch(c, p, [I.Release(Treasury, 1, now)], period)
    ensures Batch(c, p, Greedy(c, p, period, now), period) && !Independent(c, p, Greedy(c, p, period, now))
  {
    var draws := Greedy(c, p, period, now);
    assert Proper(c, p.observation, period, I.Release(Treasury, 1, now)) by {
      assert I.Release(Treasury, 1, now) in [I.Release(Treasury, 1, now)];
    }
    assert draws[0].amount > 0 && draws[1].amount > 0;
    PairTotals(draws);
    PairBatch(c, p, draws, period, now);
    IndependentExactly(c, p, draws, period);
    hide Independent, F.PoolsInv, Room, Left;
  }

  /**
   At a time of the period at which a release may go through, neither pool can starve the other if and only if one of
   them has no room, or both rooms together fit what is left of the shared window.
   */
  lemma NoStarvationExactly(c: Config, p: F.Pools, period: u64, now: time)
    requires 0 <= c.t0 && F.PoolsInv(c, p) && Batch(c, p, [I.Release(Treasury, 1, now)], period)
    ensures NeverStarves(c, p, period) <==> RoomForBoth(c, p, period)
  {
    hide F.PoolsInv, Independent, Fits, Room, Left, Greedy;
    if RoomForBoth(c, p, period) {
      forall draws | Batch(c, p, draws, period) ensures Independent(c, p, draws) {
        IndependentExactly(c, p, draws, period);
        SumsCollide(c, p, period, I.Total(draws, Founder), I.Total(draws, Treasury));
      }
    } else {
      hide RoomForBoth, Batch;
      GreedyCollides(c, p, period, now);
    }
  }
}
