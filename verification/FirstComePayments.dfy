/**
 Batches of whole releases of the earlier first-come vault, with consent and transfer: which of them are paid, exactly
 when neither pool can starve the other, and how long a starved pool stays starved.
 */
module FirstComePayments {
  import opened Basics
  import opened State
  import opened Tokens
  import opened FirstComeOrder
  import F = FirstCome
  import I = Interleaving

  /** A release as its authority signs it. */
  datatype Call = Call(authority: Signer, draw: I.Release, destination: Addr, approval: Option<u64>)

  function PayCall(t: Terms, l: F.Ledger, call: Call): Result<F.Ledger> {
    F.Pay(t, l, call.authority, call.draw.role, call.draw.amount, call.destination, call.approval, call.draw.now)
  }

  /** Call after call; the first refusal refuses the batch. */
  function PayAll(t: Terms, l: F.Ledger, calls: seq<Call>): Result<F.Ledger>
    decreases |calls|
  {
    if calls == [] then Ok(l)
    else
      var l' :- PayCall(t, l, calls[0]);
      PayAll(t, l', calls[1..])
  }

  /** The accounts that a call names suit its pool: the founder's own, or those of the period's approval. */
  predicate Suits(t: Terms, l: F.Ledger, period: u64, call: Call) {
    && F.Present(l, call.authority, call.draw.role, call.destination, call.approval)
    && call.authority == t.Owner(call.draw.role)
    && var owner := l.tokens[call.destination].owner;
    if call.draw.role.Founder? then owner == t.founder && call.approval.None?
    else
      && call.approval == Some(period)
      && var a := l.approvals[period];
      && a.period == period && a.recipient == call.destination && a.recipientOwner == owner && owner != t.treasury
      && a.createdAt + PERIOD <= call.draw.now
  }

  function DrawsOf(calls: seq<Call>): (draws: seq<I.Release>)
    ensures |draws| == |calls|
  {
    if calls == [] then [] else [calls[0].draw] + DrawsOf(calls[1..])
  }

  /** Suitable calls of an active policy, in the order of their times, in one period and under one report. */
  predicate Offered(t: Terms, l: F.Ledger, calls: seq<Call>, period: u64) {
    && l.phase == Active && l.pools.period <= period && Ordered(l.pools.lastActionAt, DrawsOf(calls))
    && (forall call | call in calls :: Suits(t, l, period, call))
    && (forall call | call in calls :: Proper(t.config, l.pools.observation, period, call.draw))
  }

  /** A policy on which releases can be judged: sound, and the mint's tokens within 64 bits. */
  ghost predicate Stands(t: Terms, l: F.Ledger) {
    0 <= t.config.t0 && F.Sound(t, l) && Supply(l.tokens) <= U64_MAX
  }

  /** What the approval of a period still allows. */
  function NeedLeft(l: F.Ledger, period: u64): int {
    if period in l.approvals then l.approvals[period].need - l.approvals[period].consumed else 0
  }

  /** What one release leaves: token owners, other approvals and the lifecycle as they were. */
  predicate Moves(l: F.Ledger, l': F.Ledger, period: u64, spent: nat) {
    && l'.phase == l.phase && l'.pools.founder.authority == l.pools.founder.authority
    && l'.pools.treasury.authority == l.pools.treasury.authority && l'.pools.observation == l.pools.observation
    && (forall a | a in l.tokens :: a in l'.tokens && l'.tokens[a].owner == l.tokens[a].owner)
    && (spent == 0 ==> l'.approvals == l.approvals)
    && (spent > 0 ==>
          period in l.approvals && period in l'.approvals
          && l'.approvals[period] == l.approvals[period].(consumed := l'.approvals[period].consumed)
          && l'.approvals[period].consumed == l.approvals[period].consumed + spent
          && l'.approvals == l.approvals[period := l'.approvals[period]])
  }

  lemma ConsentExactly(t: Terms, l: F.Ledger, period: u64, call: Call)
    requires F.Sound(t, l) && Suits(t, l, period, call)
    ensures var owner := l.tokens[call.destination].owner;
      var consent := F.Consent(t, l.approvals, call.draw.role, period, call.destination, owner, call.draw.amount,
          call.approval, call.draw.now);
      consent.Ok? <==> call.draw.role.Founder? || call.draw.amount <= NeedLeft(l, period)
  {
    hide F.PoolsInv, F.Covers;
  }

  lemma NeedRemains(t: Terms, l: F.Ledger, period: u64)
    requires F.Sound(t, l)
    ensures 0 <= NeedLeft(l, period)
  {
    hide F.PoolsInv, F.Covers;
  }

  lemma CallMoves(t: Terms, l: F.Ledger, call: Call, period: u64)
    requires PayCall(t, l, call).Ok? && Suits(t, l, period, call) && call.draw.amount > 0
    requires PeriodAt(t.config.t0, call.draw.now) == Ok(period)
    ensures Moves(l, PayCall(t, l, call).value, period, I.Part(call.draw, Treasury))
  {
    hide F.Cap, PeriodAt;
    if call.draw.role.Founder? {} else {}
  }

  /** One suitable call is paid exactly when the kernel draws and, for the treasury, the approval allows. */
  lemma CallExact(t: Terms, l: F.Ledger, call: Call, period: u64)
    requires Stands(t, l) && l.phase == Active && Suits(t, l, period, call)
    requires l.pools.lastActionAt <= call.draw.now && Proper(t.config, l.pools.observation, period, call.draw)
    ensures var d := call.draw; var drawn := F.Release(t.config, l.pools, d.role, d.amount, d.now);
      && (PayCall(t, l, call).Ok? <==> drawn.Ok? && I.Part(d, Treasury) <= NeedLeft(l, period))
      && (PayCall(t, l, call).Ok? ==>
            var l' := PayCall(t, l, call).value;
            l'.pools == drawn.value && Stands(t, l') && Moves(l, l', period, I.Part(d, Treasury)))
  {
    hide F.Release, F.Consent, F.Pay, F.Sound, Supply, Suits, Moves;
    NeedRemains(t, l, period);
    assert F.Present(l, call.authority, call.draw.role, call.destination, call.approval)
        && call.authority == t.Owner(call.draw.role) by { SuitsParts(t, l, period, call); }
    F.PayExactly(t, l, call.authority, call.draw.role, call.draw.amount, call.destination, call.approval,
        call.draw.now);
    ConsentExactly(t, l, period, call);
    if PayCall(t, l, call).Ok? {
      F.PayKeeps(t, l, call.authority, call.draw.role, call.draw.amount, call.destination, call.approval,
          call.draw.now);
      CallMoves(t, l, call, period);
    }
  }

  lemma SuitsParts(t: Terms, l: F.Ledger, period: u64, call: Call)
    requires Suits(t, l, period, call)
    ensures F.Present(l, call.authority, call.draw.role, call.destination, call.approval)
    ensures call.authority == t.Owner(call.draw.role)
  {
  }

  /** A call suits as before after a release of its period. */
  lemma SuitsLater(t: Terms, l: F.Ledger, l': F.Ledger, period: u64, spent: nat, call: Call)
    requires Suits(t, l, period, call) && Moves(l, l', period, spent)
    ensures Suits(t, l', period, call)
  {
  }

  /* ---- Batches ---- */

  lemma OfferedRest(t: Terms, l: F.Ledger, l': F.Ledger, calls: seq<Call>, period: u64, spent: nat)
    requires calls != [] && Offered(t, l, calls, period) && Moves(l, l', period, spent)
    requires l'.pools.period == period && l'.pools.lastActionAt == calls[0].draw.now
    ensures Offered(t, l', calls[1..], period)
  {
    hide Suits, Moves, Proper;
    assert DrawsOf(calls)[1..] == DrawsOf(calls[1..]);
    assert l'.phase == l.phase && l'.pools.observation == l.pools.observation by { SameReport(l, l', period, spent); }
    forall call | call in calls[1..] ensures Suits(t, l', period, call) {
      SuitsLater(t, l, l', period, spent, call);
    }
  }

  lemma SameReport(l: F.Ledger, l': F.Ledger, period: u64, spent: nat)
    requires Moves(l, l', period, spent)
    ensures l'.phase == l.phase && l'.pools.observation == l.pools.observation
    ensures NeedLeft(l', period) == NeedLeft(l, period) - spent
  {
  }

  lemma OfferedDraws(t: Terms, l: F.Ledger, calls: seq<Call>, period: u64)
    requires Offered(t, l, calls, period)
    ensures Batch(t.config, l.pools, DrawsOf(calls), period)
  {
    hide Suits, Proper;
    DrawsProper(t.config, l.pools.observation, calls, period);
  }

  lemma {:induction false} DrawsProper(c: Config, o: F.Observation, calls: seq<Call>, period: u64)
    requires forall call | call in calls :: Proper(c, o, period, call.draw)
    ensures forall d | d in DrawsOf(calls) :: Proper(c, o, period, d)
  {
    hide Proper;
    if calls != [] {
      DrawsProper(c, o, calls[1..], period);
    }
  }

  lemma MovesTwice(l: F.Ledger, l': F.Ledger, l'': F.Ledger, period: u64, first: nat, more: nat)
    requires Moves(l, l', period, first) && Moves(l', l'', period, more)
    ensures Moves(l, l'', period, first + more)
  {
  }

  lemma FirstCall(t: Terms, l: F.Ledger, calls: seq<Call>, period: u64)
    requires Stands(t, l) && calls != [] && Offered(t, l, calls, period)
    ensures var d := calls[0].draw; var drawn := F.Release(t.config, l.pools, d.role, d.amount, d.now);
      && (PayCall(t, l, calls[0]).Ok? <==> drawn.Ok? && I.Part(d, Treasury) <= NeedLeft(l, period))
      && (PayCall(t, l, calls[0]).Ok? ==>
            var l' := PayCall(t, l, calls[0]).value;
            l'.pools == drawn.value && Stands(t, l') && Moves(l, l', period, I.Part(d, Treasury))
            && l'.pools.period == period && l'.pools.lastActionAt == d.now)
    ensures DrawsOf(calls)[0] == calls[0].draw && DrawsOf(calls)[1..] == DrawsOf(calls[1..])
    ensures I.Total(DrawsOf(calls), Treasury)
      == I.Part(calls[0].draw, Treasury) + I.Total(DrawsOf(calls[1..]), Treasury)
  {
    assert DrawsOf(calls)[0] == calls[0].draw && DrawsOf(calls)[1..] == DrawsOf(calls[1..]);
    OfferedDraws(t, l, calls, period);
    assert Suits(t, l, period, calls[0]) && Proper(t.config, l.pools.observation, period, calls[0].draw);
    hide F.Release, F.Sound, Suits, Moves, Proper, PayCall, Supply, Fits, Leaves;
    CallExact(t, l, calls[0], period);
    FirstDraw(t.config, l.pools, DrawsOf(calls), period) by { SoundPools(t, l); }
  }

  lemma SoundPools(t: Terms, l: F.Ledger)
    requires Stands(t, l)
    ensures 0 <= t.config.t0 && F.PoolsInv(t.config, l.pools)
  {
    hide F.PoolsInv, Supply;
  }

  /** A batch is paid exactly when the kernel takes its draws and the treasury's sum is within its approval. */
  lemma {:induction false} PayIsThrough(t: Terms, l: F.Ledger, calls: seq<Call>, period: u64)
    requires Stands(t, l) && Offered(t, l, calls, period)
    ensures PayAll(t, l, calls).Ok? <==>
      (Through(t.config, l.pools, DrawsOf(calls)).Ok? && I.Total(DrawsOf(calls), Treasury) <= NeedLeft(l, period))
    ensures PayAll(t, l, calls).Ok? ==>
      var l' := PayAll(t, l, calls).value;
      l'.pools == Through(t.config, l.pools, DrawsOf(calls)).value && Stands(t, l')
      && Moves(l, l', period, I.Total(DrawsOf(calls), Treasury))
    decreases |calls|
  {
    if calls == [] {
      NeedRemains(t, l, period);
      hide F.Sound;
    } else {
      hide Stands, Offered, Moves, PayCall, F.Release, NeedLeft;
      FirstCall(t, l, calls, period);
      if PayCall(t, l, calls[0]).Ok? {
        var l' := PayCall(t, l, calls[0]).value;
        var spent := I.Part(calls[0].draw, Treasury);
        OfferedRest(t, l, l', calls, period, spent);
        PayIsThrough(t, l', calls[1..], period);
        SameReport(l, l', period, spent);
        if PayAll(t, l', calls[1..]).Ok? {
          MovesTwice(l, l', PayAll(t, l', calls[1..]).value, period, spent, I.Total(DrawsOf(calls[1..]), Treasury));
        }
      }
    }
  }

  /** What two sums ask of a policy. */
  predicate Affords(t: Terms, l: F.Ledger, period: u64, founder: nat, treasury: nat) {
    Fits(t.config, l.pools, period, founder, treasury) && treasury <= NeedLeft(l, period)
  }

  /**
   A batch of releases of one period under one report is paid exactly when each pool's sum fits its own room, both fit
   what is left of the shared window, and the treasury's is within its approval.
   */
  lemma PayBatchExact(t: Terms, l: F.Ledger, calls: seq<Call>, period: u64)
    requires Stands(t, l) && Offered(t, l, calls, period)
    ensures PayAll(t, l, calls).Ok? <==>
      Affords(t, l, period, I.Total(DrawsOf(calls), Founder), I.Total(DrawsOf(calls), Treasury))
    ensures PayAll(t, l, calls).Ok? ==>
      Leaves(l.pools, PayAll(t, l, calls).value.pools, period, I.Total(DrawsOf(calls), Founder),
          I.Total(DrawsOf(calls), Treasury))
  {
    hide Stands, Offered, F.PoolsInv, Batch, Fits, Leaves, Through, PayAll, Moves, NeedLeft;
    SoundPools(t, l);
    OfferedDraws(t, l, calls, period);
    PayIsThrough(t, l, calls, period);
    BatchExact(t.config, l.pools, DrawsOf(calls), period);
  }

  /* ---- Exactly when neither pool can starve the other ---- */

  function OnlyCalls(calls: seq<Call>, r: Role): seq<Call> {
    if calls == [] then []
    else if calls[0].draw.role == r then [calls[0]] + OnlyCalls(calls[1..], r)
    else OnlyCalls(calls[1..], r)
  }

  /** A batch is paid exactly when each pool's releases are without the other's. */
  predicate PaidApart(t: Terms, l: F.Ledger, calls: seq<Call>) {
    PayAll(t, l, calls).Ok? <==>
      (PayAll(t, l, OnlyCalls(calls, Founder)).Ok? && PayAll(t, l, OnlyCalls(calls, Treasury)).Ok?)
  }

  /** Neither pool can starve the other in the period, under the report of now. */
  ghost predicate NoneStarved(t: Terms, l: F.Ledger, period: u64) {
    forall calls | Offered(t, l, calls, period) :: PaidApart(t, l, calls)
  }

  /** One pool has no room, or both rooms, the treasury's within its approval, fit what is left of the shared window. */
  predicate RoomForAll(t: Terms, l: F.Ledger, period: u64) {
    BothFit(Room(t.config, l.pools, Founder, period),
        Min(Room(t.config, l.pools, Treasury, period), NeedLeft(l, period)), Left(t.config, l.pools, period))
  }

  lemma {:induction false} OnlyDraws(calls: seq<Call>, r: Role)
    ensures DrawsOf(OnlyCalls(calls, r)) == I.Only(DrawsOf(calls), r)
    ensures forall call | call in OnlyCalls(calls, r) :: call in calls
  {
    if calls != [] {
      OnlyDraws(calls[1..], r);
      assert DrawsOf(calls)[1..] == DrawsOf(calls[1..]);
      assert calls[0].draw.role == r ==> OnlyCalls(calls, r)[1..] == OnlyCalls(calls[1..], r);
    }
  }

  lemma OnlyOffered(t: Terms, l: F.Ledger, calls: seq<Call>, period: u64, r: Role)
    requires Offered(t, l, calls, period)
    ensures Offered(t, l, OnlyCalls(calls, r), period)
    ensures var only := DrawsOf(OnlyCalls(calls, r));
      I.Total(only, r) == I.Total(DrawsOf(calls), r) && I.Total(only, r.Other()) == 0
  {
    hide Suits, Proper;
    OnlyDraws(calls, r);
    OnlyOrdered(l.pools.lastActionAt, DrawsOf(calls), r);
    I.OnlyTotals(DrawsOf(calls), r);
  }

  lemma PaidApartExactly(t: Terms, l: F.Ledger, calls: seq<Call>, period: u64)
    requires Stands(t, l) && Offered(t, l, calls, period)
    ensures var f, s := I.Total(DrawsOf(calls), Founder), I.Total(DrawsOf(calls), Treasury);
      PaidApart(t, l, calls) <==>
        (Affords(t, l, period, f, s) <==> Affords(t, l, period, f, 0) && Affords(t, l, period, 0, s))
  {
    hide Stands, Offered, Affords, PayAll, Leaves;
    OnlyOffered(t, l, calls, period, Founder);
    OnlyOffered(t, l, calls, period, Treasury);
    PayBatchExact(t, l, calls, period);
    PayBatchExact(t, l, OnlyCalls(calls, Founder), period);
    PayBatchExact(t, l, OnlyCalls(calls, Treasury), period);
  }

  lemma AffordsTogether(t: Terms, l: F.Ledger, period: u64, f: nat, s: nat)
    requires F.PoolsInv(t.config, l.pools) && 0 <= NeedLeft(l, period) && RoomForAll(t, l, period)
    ensures Affords(t, l, period, f, s) <==> Affords(t, l, period, f, 0) && Affords(t, l, period, 0, s)
  {
    hide Room, Left, NeedLeft;
    if f > 0 && s > 0 {} else {}
  }

  /** Two calls, one of each pool, drawing all the room each pool has. */
  lemma GreedyCalls(t: Terms, l: F.Ledger, period: u64, f: Call, s: Call) returns (calls: seq<Call>)
    requires Stands(t, l) && !RoomForAll(t, l, period)
    requires f.draw.role == Founder && s.draw.role == Treasury && f.draw.now == s.draw.now
    requires Offered(t, l, [f, s], period)
    ensures Offered(t, l, calls, period) && !PaidApart(t, l, calls)
  {
    var left := Left(t.config, l.pools, period);
    var first := Min(Room(t.config, l.pools, Founder, period), left);
    var second := Min(Min(Room(t.config, l.pools, Treasury, period), NeedLeft(l, period)), left);
    assert 0 < first <= U64_MAX && 0 < second <= U64_MAX;
    calls := [f.(draw := f.draw.(amount := first)), s.(draw := s.draw.(amount := second))];
    SameOffer(t, l, period, f, s, calls);
    PaidApartExactly(t, l, calls, period);
    assert DrawsOf(calls) == [calls[0].draw, calls[1].draw] by { TwoDraws(calls); }
    PairTotals(DrawsOf(calls));
    hide Stands, Offered, PaidApart, Room, Left, NeedLeft;
  }

  lemma TwoDraws(calls: seq<Call>)
    requires |calls| == 2
    ensures DrawsOf(calls) == [calls[0].draw, calls[1].draw]
  {
    assert calls[1..][0] == calls[1] && DrawsOf(calls[1..][1..]) == [];
  }

  /** The amounts of two calls do not decide whether they are offered. */
  lemma SameOffer(t: Terms, l: F.Ledger, period: u64, f: Call, s: Call, calls: seq<Call>)
    requires Offered(t, l, [f, s], period) && f.draw.now == s.draw.now
    requires |calls| == 2 && calls[0].draw.amount > 0 && calls[1].draw.amount > 0
    requires calls[0] == f.(draw := f.draw.(amount := calls[0].draw.amount))
    requires calls[1] == s.(draw := s.draw.(amount := calls[1].draw.amount))
    ensures Offered(t, l, calls, period)
  {
    var given := [f, s];
    assert f in given && s in given;
    TwoDraws(given);
    TwoDraws(calls);
    PairOrdered(l.pools.lastActionAt, DrawsOf(given), DrawsOf(calls));
    assert Suits(t, l, period, calls[0]) && Suits(t, l, period, calls[1]);
  }

  lemma PairOrdered(at: time, given: seq<I.Release>, draws: seq<I.Release>)
    requires |given| == 2 && |draws| == 2 && Ordered(at, given)
    requires draws[0].now == given[0].now && draws[1].now == given[1].now
    ensures Ordered(at, draws)
  {
    assert given[1..][0] == given[1] && draws[1..][0] == draws[1] && draws[1..][1..] == [];
  }

  /**
   Where a release of each pool is offered, neither pool can starve the other if and only if one of them has no room,
   or both rooms, the treasury's within its approval, fit what is left of the shared window.
   */
  lemma PaymentsNeverStarveExactly(t: Terms, l: F.Ledger, period: u64, f: Call, s: Call)
    requires Stands(t, l) && Offered(t, l, [f, s], period)
    requires f.draw.role == Founder && s.draw.role == Treasury && f.draw.now == s.draw.now
    ensures NoneStarved(t, l, period) <==> RoomForAll(t, l, period)
  {
    SoundPools(t, l);
    NeedRemains(t, l, period) by { hide F.Sound, Supply; }
    hide Stands, Offered, PaidApart, Affords, F.PoolsInv, NeedLeft, RoomForAll;
    if RoomForAll(t, l, period) {
      forall calls | Offered(t, l, calls, period) ensures PaidApart(t, l, calls) {
        PaidApartExactly(t, l, calls, period);
        AffordsTogether(t, l, period, I.Total(DrawsOf(calls), Founder), I.Total(DrawsOf(calls), Treasury));
      }
    } else {
      var calls := GreedyCalls(t, l, period, f, s);
    }
  }

  /* ---- Starved until the next report ---- */

  /** Call after call; a refused one changes nothing. */
  function PayRun(t: Terms, l: F.Ledger, calls: seq<Call>): F.Ledger
    decreases |calls|
  {
    if calls == [] then l
    else PayRun(t, match PayCall(t, l, calls[0]) case Ok(l') => l' case Err(_) => l, calls[1..])
  }

  predicate WithinPeriod(c: Config, period: u64, calls: seq<Call>) {
    forall call | call in calls :: PeriodAt(c.t0, call.draw.now) == Ok(period)
  }

  lemma ExhaustedRefuses(t: Terms, l: F.Ledger, call: Call)
    requires PeriodAt(t.config.t0, call.draw.now) == Ok(l.pools.period) && Left(t.config, l.pools, l.pools.period) <= 0
    ensures PayCall(t, l, call).Err?
  {
    hide PeriodAt, F.Cap, F.Consent, Transfer;
    if call.draw.role.Founder? {} else {}
  }

  /** Once nothing is left of the shared window, releases of its period change nothing, whatever they bring. */
  lemma {:induction false} StarvedUntilReport(t: Terms, l: F.Ledger, calls: seq<Call>)
    requires Left(t.config, l.pools, l.pools.period) <= 0 && WithinPeriod(t.config, l.pools.period, calls)
    ensures PayRun(t, l, calls) == l
    ensures forall call | call in calls :: PayCall(t, l, call).Err?
    decreases |calls|
  {
    hide PayCall, PeriodAt, Left;
    if calls != [] {
      ExhaustedRefuses(t, l, calls[0]);
      StarvedUntilReport(t, l, calls[1..]);
    }
  }

  /** What one payment makes of the shared window. */
  lemma PaidWindow(t: Terms, l: F.Ledger, call: Call)
    requires F.PoolsInv(t.config, l.pools) && PayCall(t, l, call).Ok?
    ensures var p := PayCall(t, l, call).value.pools;
      && PeriodAt(t.config.t0, call.draw.now) == Ok(p.period) && p.observation == l.pools.observation
      && p.sharedUsed >= call.draw.amount
  {
    hide PeriodAt, F.Cap, F.Consent, Transfer, F.PoolsInv;
    if call.draw.role.Founder? {} else {}
  }

  /** After one pool took the whole shared capacity, no release of the period is paid before the next report. */
  lemma PaidFirstStarves(t: Terms, l: F.Ledger, first: Call, later: seq<Call>)
    requires F.PoolsInv(t.config, l.pools) && PayCall(t, l, first).Ok?
    requires first.draw.amount == Min(t.config.sharedHardCap, l.pools.observation.capacity)
    requires forall call | call in later ::
      PeriodAt(t.config.t0, call.draw.now) == PeriodAt(t.config.t0, first.draw.now)
    ensures PayRun(t, PayCall(t, l, first).value, later) == PayCall(t, l, first).value
    ensures forall call | call in later :: PayCall(t, PayCall(t, l, first).value, call).Err?
  {
    hide PayCall, PeriodAt, F.PoolsInv, PayRun;
    PaidWindow(t, l, first);
    StarvedUntilReport(t, PayCall(t, l, first).value, later);
  }

  /** Once a batch has been paid all that is left, nothing more is paid in its period before the next report. */
  lemma ExhaustedStarves(t: Terms, l: F.Ledger, calls: seq<Call>, period: u64, later: seq<Call>)
    requires Stands(t, l) && Offered(t, l, calls, period) && PayAll(t, l, calls).Ok?
    requires 0 < Left(t.config, l.pools, period)
    requires I.Total(DrawsOf(calls), Founder) + I.Total(DrawsOf(calls), Treasury) == Left(t.config, l.pools, period)
    requires WithinPeriod(t.config, period, later)
    ensures PayRun(t, PayAll(t, l, calls).value, later) == PayAll(t, l, calls).value
    ensures forall call | call in later :: PayCall(t, PayAll(t, l, calls).value, call).Err?
  {
    hide Stands, Offered, Affords, PayAll, PayCall, PayRun, WithinPeriod;
    PayBatchExact(t, l, calls, period);
    StarvedUntilReport(t, PayAll(t, l, calls).value, later);
  }

  /** A later report of the same period leaves more, or less, of the shared window, and both rooms as they are. */
  lemma ReportReopens(c: Config, p: F.Pools, capacity: u64, observedAt: i64, sequence: u64, now: time, period: u64)
    requires F.Report(c, p, capacity, observedAt, sequence, now).Ok? && PeriodAt(c.t0, now) == Ok(period)
    ensures var p' := F.Report(c, p, capacity, observedAt, sequence, now).value;
      && Left(c, p', period) == Min(c.sharedHardCap, capacity) - SharedIn(p, period)
      && Room(c, p', Founder, period) == Room(c, p, Founder, period)
      && Room(c, p', Treasury, period) == Room(c, p, Treasury, period)
  {
  }
}
