/** One policy of the first-come vault in which the founder's pool starves the treasury's, until a higher report. */
module StarvedVault {
  import opened Basics
  import opened State
  import opened Tokens
  import opened FirstComeOrder
  import opened FirstComePayments
  import opened Witness
  import F = FirstCome
  import I = Interleaving

  function Full(r: Role): Vault { Vault(Person(14), TheTerms().Owner(r), r, 24_000, 0, 0, 0) }

  function Accounts(): map<Addr, TokenAccount> {
    map[VaultToken(Founder) := TokenAccount(VaultAuthority(Founder), 24_000)]
      [VaultToken(Treasury) := TokenAccount(VaultAuthority(Treasury), 24_000)]
      [Wallet(1) := TokenAccount(Person(2), 0)][Wallet(2) := TokenAccount(Person(16), 0)]
  }

  /** Caps of 100 each, a hard cap of 200, a report of 50, and an approval of 40. */
  function Policy(): F.Ledger {
    F.Ledger(Active, F.Pools(0, 0, F.Observation(6, 50, LATE, 1), LATE, Full(Founder), Full(Treasury)),
             map[6 := F.Approval(6, Wallet(2), Person(16), 40, 0, 1_500)], Accounts())
  }

  function FounderCall(): Call { Call(Person(2), I.Release(Founder, 50, LATE), Wallet(1), None) }

  function TreasuryCall(): Call { Call(Person(3), I.Release(Treasury, 40, LATE), Wallet(2), Some(6)) }

  lemma PolicyStands()
    ensures Stands(TheTerms(), Policy())
  {
    var one := map[VaultToken(Founder) := TokenAccount(VaultAuthority(Founder), 24_000)];
    var two := one[VaultToken(Treasury) := TokenAccount(VaultAuthority(Treasury), 24_000)];
    SumInsert(map[], AmountOf, VaultToken(Founder), TokenAccount(VaultAuthority(Founder), 24_000));
    SumInsert(one, AmountOf, VaultToken(Treasury), TokenAccount(VaultAuthority(Treasury), 24_000));
    SumInsert(two, AmountOf, Wallet(1), TokenAccount(Person(2), 0));
    SumInsert(two[Wallet(1) := TokenAccount(Person(2), 0)], AmountOf, Wallet(2), TokenAccount(Person(16), 0));
  }

  lemma BothSuit()
    ensures Suits(TheTerms(), Policy(), 6, FounderCall()) && Suits(TheTerms(), Policy(), 6, TreasuryCall())
    ensures Proper(TheConfig(), Policy().pools.observation, 6, FounderCall().draw)
    ensures Proper(TheConfig(), Policy().pools.observation, 6, TreasuryCall().draw)
  {
    assert PeriodAt(START, LATE) == Ok(6);
  }

  lemma OneDraw(call: Call)
    ensures DrawsOf([call]) == [call.draw]
    ensures I.Total([call.draw], Founder) == I.Part(call.draw, Founder)
    ensures I.Total([call.draw], Treasury) == I.Part(call.draw, Treasury)
  {
    assert [call][1..] == [] && [call.draw][1..] == [];
  }

  lemma BothOffered()
    ensures Offered(TheTerms(), Policy(), [FounderCall(), TreasuryCall()], 6)
    ensures Offered(TheTerms(), Policy(), [FounderCall()], 6) && Offered(TheTerms(), Policy(), [TreasuryCall()], 6)
  {
    BothSuit();
    OneDraw(FounderCall());
    OneDraw(TreasuryCall());
    TwoDraws([FounderCall(), TreasuryCall()]);
    assert [FounderCall().draw, TreasuryCall().draw][1..] == [TreasuryCall().draw];
    hide Suits, Proper;
  }

  lemma PolicyRooms()
    ensures Room(TheConfig(), Policy().pools, Founder, 6) == 100
    ensures Room(TheConfig(), Policy().pools, Treasury, 6) == 100
    ensures Left(TheConfig(), Policy().pools, 6) == 50 && NeedLeft(Policy(), 6) == 40
  {
  }

  /** Each release is paid alone, but both are not: the shared window has no room for the two. */
  lemma FounderStarves()
    ensures PayAll(TheTerms(), Policy(), [FounderCall()]).Ok? && PayAll(TheTerms(), Policy(), [TreasuryCall()]).Ok?
    ensures PayAll(TheTerms(), Policy(), [FounderCall(), TreasuryCall()]).Err?
    ensures !RoomForAll(TheTerms(), Policy(), 6) && !NoneStarved(TheTerms(), Policy(), 6)
  {
    PolicyRooms();
    hide Stands, Offered, PayAll, NoneStarved, Policy, Room, Left, NeedLeft, Leaves;
    PolicyStands();
    BothOffered();
    OneDraw(FounderCall());
    OneDraw(TreasuryCall());
    TwoDraws([FounderCall(), TreasuryCall()]);
    PairTotals([FounderCall().draw, TreasuryCall().draw]);
    PayBatchExact(TheTerms(), Policy(), [FounderCall()], 6);
    PayBatchExact(TheTerms(), Policy(), [TreasuryCall()], 6);
    PayBatchExact(TheTerms(), Policy(), [FounderCall(), TreasuryCall()], 6);
    PaymentsNeverStarveExactly(TheTerms(), Policy(), 6, FounderCall(), TreasuryCall());
  }

  /** The policy after the founder's release. */
  function FounderPaid(): F.Ledger
    requires PayAll(TheTerms(), Policy(), [FounderCall()]).Ok?
  {
    PayAll(TheTerms(), Policy(), [FounderCall()]).value
  }

  /** The window as a report leaves it. */
  function Reported(l: F.Ledger, capacity: u64): F.Ledger {
    l.(pools := l.pools.(observation := F.Observation(6, capacity, LATE, 2), lastActionAt := LATE))
  }

  lemma ReportTaken(p: F.Pools)
    requires p.lastActionAt <= LATE && p.observation == F.Observation(6, 50, LATE, 1)
    ensures F.Report(TheConfig(), p, 200, LATE, 2, LATE)
      == Ok(p.(observation := F.Observation(6, 200, LATE, 2), lastActionAt := LATE))
  {
    assert PeriodAt(START, LATE) == Ok(6) && PeriodStart(START, 6) == Ok(START + 6 * PERIOD);
  }

  lemma PaidFacts()
    ensures PayAll(TheTerms(), Policy(), [FounderCall()]).Ok?
    ensures Stands(TheTerms(), FounderPaid()) && Moves(Policy(), FounderPaid(), 6, 0)
    ensures Leaves(Policy().pools, FounderPaid().pools, 6, 50, 0) && FounderPaid().pools.lastActionAt <= LATE
  {
    hide Stands, Offered, PayAll, NoneStarved, Policy, Leaves, Moves;
    PolicyStands();
    BothOffered();
    OneDraw(FounderCall());
    FounderStarves();
    PayBatchExact(TheTerms(), Policy(), [FounderCall()], 6);
    PayIsThrough(TheTerms(), Policy(), [FounderCall()], 6);
    LastAction(FounderCall());
  }

  lemma LastAction(call: Call)
    requires PayAll(TheTerms(), Policy(), [call]).Ok?
    ensures PayAll(TheTerms(), Policy(), [call]).value.pools.lastActionAt == call.draw.now
  {
    hide F.Cap, F.Consent, Transfer, PeriodAt;
    assert [call][1..] == [];
    if call.draw.role.Founder? {} else {}
  }

  lemma PolicyNumbers()
    ensures var c, p := TheConfig(), Policy().pools;
      && c.periodCap == Amounts(100, 100) && c.sharedHardCap == 200
      && p.period == 0 && p.sharedUsed == 0 && p.observation == F.Observation(6, 50, LATE, 1)
      && p.founder == Full(Founder) && p.treasury == Full(Treasury)
  {
  }

  lemma FullNumbers(r: Role)
    ensures Full(r).principal == 24_000 && Full(r).releasedTotal == 0 && Full(r).period == 0 && Full(r).periodUsed == 0
  {
  }

  lemma PaidRooms(l: F.Ledger)
    requires Leaves(Policy().pools, l.pools, 6, 50, 0)
    ensures l.pools.observation == F.Observation(6, 50, LATE, 1) && l.pools.period == 6
    ensures Left(TheConfig(), l.pools, 6) == 0
    ensures var p := Reported(l, 200).pools;
      Room(TheConfig(), p, Founder, 6) == 50 && Room(TheConfig(), p, Treasury, 6) == 100
      && Left(TheConfig(), p, 6) == 150
  {
    PolicyNumbers();
    FullNumbers(Founder);
    FullNumbers(Treasury);
    hide Policy, TheConfig, Full;
  }

  lemma RefusedUntilThen(paid: F.Ledger)
    requires paid.pools.period == 6 && Left(TheConfig(), paid.pools, 6) <= 0
    ensures PayCall(TheTerms(), paid, TreasuryCall()).Err?
  {
    assert PeriodAt(START, TreasuryCall().draw.now) == Ok(6);
    hide PayCall, Left, PeriodAt;
    ExhaustedRefuses(TheTerms(), paid, TreasuryCall());
  }

  lemma PaidFromThen(l: F.Ledger)
    requires Stands(TheTerms(), l) && Offered(TheTerms(), l, [TreasuryCall()], 6) && NeedLeft(l, 6) == 40
    requires Room(TheConfig(), l.pools, Founder, 6) == 50 && Room(TheConfig(), l.pools, Treasury, 6) == 100
    requires Left(TheConfig(), l.pools, 6) == 150
    ensures PayAll(TheTerms(), l, [TreasuryCall()]).Ok?
  {
    OneDraw(TreasuryCall());
    hide Stands, Offered, PayAll, Left, Room, NeedLeft, Leaves;
    PayBatchExact(TheTerms(), l, [TreasuryCall()], 6);
  }

  /** After the founder's release the treasury's is refused; after a second, higher report of the period it is paid. */
  lemma HigherReportEndsIt()
    ensures PayAll(TheTerms(), Policy(), [FounderCall()]).Ok?
    ensures PayCall(TheTerms(), FounderPaid(), TreasuryCall()).Err?
    ensures F.Report(TheConfig(), FounderPaid().pools, 200, LATE, 2, LATE) == Ok(Reported(FounderPaid(), 200).pools)
    ensures PayAll(TheTerms(), Reported(FounderPaid(), 200), [TreasuryCall()]).Ok?
  {
    hide Stands, PayAll, PayCall, Policy, Leaves, F.Report, Left, Room, Moves, Offered, NeedLeft;
    PaidFacts();
    var paid := FounderPaid();
    PaidRooms(paid);
    RefusedUntilThen(paid);
    ReportTaken(paid.pools);
    ReportedOffered(paid);
    ReportedNeed(paid);
    PaidFromThen(Reported(paid, 200));
  }

  lemma ReportedNeed(l: F.Ledger)
    requires Moves(Policy(), l, 6, 0)
    ensures NeedLeft(Reported(l, 200), 6) == 40
  {
  }

  lemma ReportedOffered(l: F.Ledger)
    requires Stands(TheTerms(), l) && Moves(Policy(), l, 6, 0) && l.pools.period == 6
    ensures Stands(TheTerms(), Reported(l, 200)) && Offered(TheTerms(), Reported(l, 200), [TreasuryCall()], 6)
  {
    hide Supply;
    BothSuit();
    SuitsLater(TheTerms(), Policy(), l, 6, 0, TreasuryCall());
    assert Suits(TheTerms(), Reported(l, 200), 6, TreasuryCall());
    hide Suits;
    assert Proper(TheConfig(), F.Observation(6, 200, LATE, 2), 6, TreasuryCall().draw);
    hide Proper;
    OneDraw(TreasuryCall());
    assert Ordered(LATE, [TreasuryCall().draw]) by {
      assert [TreasuryCall().draw][1..] == [];
    }
  }
}
