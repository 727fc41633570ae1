/**
 Concrete runs from one admission: payments out of both pools that the verifier accepts, replaced keys, a refund
 after cancellation, and the runs that no snapshot can bring past the verifier.
 */
module Witness {
  import opened Basics
  import opened State
  import opened Capacity
  import opened Tokens
  import opened Launch
  import opened Safety
  import opened Snapshot
  import opened Acceptance
  import Authority
  import Withdrawal
  import Control

  const START: time := 1_000_000
  const LATE: time := START + 6 * PERIOD + 100
  const NOTED: time := 1_500 + CHANGE_NOTICE

  function Person(n: nat): Signer { Account(n) }

  function Three(n: nat): Committee { Committee(Person(n), Person(n + 1), Person(n + 2)) }

  function RuleOf(first: u64, end: u64): Rule { Rule(first, end, Amounts(24_000, 24_000), 2_400, 500, 1) }

  function TheConfig(): Config {
    Config(START, Amounts(24_000, 24_000), Amounts(100, 100), 200, 3_600, Rules(RuleOf(0, 12), RuleOf(12, 24)),
           Three(5), Three(8), Three(11))
  }

  function TheTerms(): Terms {
    Terms(Person(1), Mint(48_001, None, None), Person(2), Person(3), Person(4), 1, TheConfig())
  }

  /** The depositor's wallet, the founder's, and those of two possible recipients. */
  function Purse(): map<Addr, TokenAccount> {
    map[Wallet(0) := TokenAccount(Person(14), 48_001)][Wallet(1) := TokenAccount(Person(2), 0)]
      [Wallet(2) := TokenAccount(Person(16), 0)][Wallet(3) := TokenAccount(Person(15), 0)]
  }

  function Admitted(): World {
    World(TheTerms(), Prepared, EMPTY_MASK, 1_000, EMPTY_BOOKS,
          Control.FreshGovernance(Person(1), Person(4), 1_000), Withdrawal.FreshRegistry(TheTerms()), map[], Purse())
  }

  lemma AdmittedIsGenesis()
    ensures Genesis(Admitted())
  {
    var p := Preparation(TheTerms(), IdentityOf(TheTerms()));
    var consent := Consent(Person(1), Person(2), Person(3), Person(4), Three(5));
    ValidRule(TheConfig(), RuleOf(0, 12));
    ValidRule(TheConfig(), RuleOf(12, 24));
    assert Validate(p, 1_000) == Ok(());
    assert Admits(p, consent, Purse(), 1_000, Admitted());
    var one := map[Wallet(0) := TokenAccount(Person(14), 48_001)];
    var two := one[Wallet(1) := TokenAccount(Person(2), 0)];
    SumInsert(map[], AmountOf, Wallet(0), TokenAccount(Person(14), 48_001));
    SumInsert(one, AmountOf, Wallet(1), TokenAccount(Person(2), 0));
    SumInsert(two, AmountOf, Wallet(2), TokenAccount(Person(16), 0));
    SumInsert(two[Wallet(2) := TokenAccount(Person(16), 0)], AmountOf, Wallet(3), TokenAccount(Person(15), 0));
  }

  /* ---- Runs by their states ---- */

  /** Each event takes its state to the next one. */
  predicate Leads(states: seq<World>, events: seq<Event>) {
    && |states| == |events| + 1
    && (forall i :: 0 <= i < |events| ==> Next(states[i], events[i]) == states[i + 1])
  }

  lemma {:induction false} RunOf(states: seq<World>, events: seq<Event>)
    requires Leads(states, events)
    ensures Run(states[0], events) == states[|events|]
    decreases |events|
  {
    if events != [] {
      RunOf(states[..|events|], events[..|events| - 1]);
    }
  }

  /* ---- Payments out of both pools ---- */

  function Preparing(): seq<Event> {
    [Invoke(1_100, PrepareWithdrawalKey(Person(16))),
     Invoke(1_500, ApproveTreasury(Person(3), 6, 40, 0, Wallet(2)))]
  }

  function Opening(): seq<Event> {
    [Invoke(2_000, Deposit(Person(1), Person(14), Person(2), 0, 24_000, Wallet(0))),
     Invoke(2_000, Deposit(Person(1), Person(14), Person(3), 1, 24_000, Wallet(0))),
     Invoke(3_000, Arm(Person(1))),
     Invoke(START, Activate)]
  }

  function Paying(): seq<Event> {
    [Invoke(LATE, ReportCapacity(Person(4), 200, LATE, 1, 0)),
     Invoke(LATE, Release(Person(2), Founder, 50, 0, Wallet(1), None, None)),
     Invoke(LATE, Release(Person(3), Treasury, 40, 0, Wallet(2), Some(6), Some(Person(16))))]
  }

  function Known(): World {
    Admitted().(registry := Admitted().registry.(keys := map[Person(16) := KeyRecord(EMPTY_MASK, EMPTY_MASK, false)]))
  }

  function ApprovalOf(consumed: u64): Approval { Approval(6, Wallet(2), Person(16), 40, consumed, 1_500, Person(3), 0) }

  function Approved(): World {
    Known().(lastActionAt := 1_500,
             registry := Known().registry.(keys := map[Person(16) := KeyRecord(EMPTY_MASK, EMPTY_MASK, true)],
                                           approvals := map[6 := ApprovalOf(0)], approvalCount := 1))
  }

  function Fresh(depositor: Signer, r: Role): Vault { Vault(depositor, TheTerms().Owner(r), r, 24_000, 0, 0, 0) }

  /** The world after the founder's deposit. */
  function Deposited(w: World): World {
    w.(lastActionAt := 2_000, funded := Mask(true, false), vaults := map[Founder := Fresh(Person(14), Founder)],
       tokens := w.tokens[Wallet(0) := TokenAccount(Person(14), 24_001)]
                   [VaultToken(Founder) := TokenAccount(VaultAuthority(Founder), 24_000)])
  }

  /** The world after the treasury's deposit out of the same wallet. */
  function Funded(w: World): World {
    w.(funded := Mask(true, true), vaults := w.vaults[Treasury := Fresh(Person(14), Treasury)],
       tokens := w.tokens[Wallet(0) := TokenAccount(Person(14), 1)]
                   [VaultToken(Treasury) := TokenAccount(VaultAuthority(Treasury), 24_000)])
  }

  function Armed(w: World): World { w.(phase := Phase.Armed, lastActionAt := 3_000) }

  function Opened(w: World): World { w.(phase := Active, lastActionAt := START) }

  function Reported(w: World): World {
    w.(lastActionAt := LATE, gov := w.gov.(report := Report(6, 200, LATE, 1, 0, true)))
  }

  function FounderPaid(w: World): World {
    w.(books := Books(6, 0, Amounts(50, 0), Amounts(50, 0), Amounts(50, 0), 50),
       vaults := w.vaults[Founder := Fresh(Person(14), Founder).(period := 6, periodUsed := 50, releasedTotal := 50)],
       tokens := w.tokens[VaultToken(Founder) := TokenAccount(VaultAuthority(Founder), 23_950)]
                   [Wallet(1) := TokenAccount(Person(2), 50)])
  }

  function BothPaid(w: World): World {
    w.(books := Books(6, 0, Amounts(50, 40), Amounts(50, 40), Amounts(50, 40), 90),
       registry := w.registry.(approvals := w.registry.approvals[6 := ApprovalOf(40)]),
       vaults := w.vaults[Treasury := Fresh(Person(14), Treasury).(period := 6, periodUsed := 40, releasedTotal := 40)],
       tokens := w.tokens[VaultToken(Treasury) := TokenAccount(VaultAuthority(Treasury), 23_960)]
                   [Wallet(2) := TokenAccount(Person(16), 40)])
  }

  function States(): seq<World> {
    var active := Opened(Armed(Funded(Deposited(Approved()))));
    [Admitted(), Known(), Approved(), Deposited(Approved()), Funded(Deposited(Approved())),
     Armed(Funded(Deposited(Approved()))), active, Reported(active), FounderPaid(Reported(active)),
     BothPaid(FounderPaid(Reported(active)))]
  }

  lemma KeyRecorded()
    ensures Apply(Admitted(), Preparing()[0]) == Ok(Known())
  {
  }

  lemma ApprovalTaken()
    ensures Apply(Known(), Preparing()[1]) == Ok(Approved())
  {
    assert PeriodStart(START, 7) == Ok(START + 7 * PERIOD);
    var reg, marked := Known().registry, KeyRecord(EMPTY_MASK, EMPTY_MASK, true);
    assert reg.keys[Person(16) := marked] == Approved().registry.keys;
    assert reg.approvals[6 := ApprovalOf(0)] == Approved().registry.approvals;
  }

  lemma FounderDepositTaken()
    ensures Apply(Approved(), Opening()[0]) == Ok(Deposited(Approved()))
  {
    var accounts := Purse()[VaultToken(Founder) := TokenAccount(VaultAuthority(Founder), 0)];
    var debited := accounts[Wallet(0) := TokenAccount(Person(14), 24_001)];
    assert debited[VaultToken(Founder) := TokenAccount(VaultAuthority(Founder), 24_000)]
        == Deposited(Approved()).tokens;
    assert Transfer(accounts, Wallet(0), VaultToken(Founder), 24_000) == Ok(Deposited(Approved()).tokens);
    assert map[][Founder := Fresh(Person(14), Founder)] == Deposited(Approved()).vaults;
    hide Transfer;
  }

  lemma TreasuryDepositTaken()
    ensures Apply(Deposited(Approved()), Opening()[1]) == Ok(Funded(Deposited(Approved())))
  {
    var w := Deposited(Approved());
    var accounts := w.tokens[VaultToken(Treasury) := TokenAccount(VaultAuthority(Treasury), 0)];
    var debited := accounts[Wallet(0) := TokenAccount(Person(14), 1)];
    assert debited[VaultToken(Treasury) := TokenAccount(VaultAuthority(Treasury), 24_000)] == Funded(w).tokens;
    assert Transfer(accounts, Wallet(0), VaultToken(Treasury), 24_000) == Ok(Funded(w).tokens);
    hide Transfer;
  }

  lemma OpeningTaken(w: World)
    requires w.phase == Prepared && w.funded == Mask(true, true) && w.lastActionAt == 2_000
    requires w.terms == TheTerms() && w.gov.controller == Person(1)
    ensures Apply(w, Opening()[2]) == Ok(Armed(w))
    ensures Apply(Armed(w), Opening()[3]) == Ok(Opened(Armed(w)))
  {
  }

  lemma ReportTaken(w: World)
    requires w == Opened(Armed(Funded(Deposited(Approved()))))
    ensures Apply(w, Paying()[0]) == Ok(Reported(w))
  {
    assert PeriodAt(START, LATE) == Ok(6);
  }

  lemma LimitsThen(b: Books)
    requires b == EMPTY_BOOKS || b == Books(6, 0, Amounts(50, 0), Amounts(50, 0), Amounts(50, 0), 50)
    ensures WindowLimits(TheConfig(), b, 200, LATE)
      == Ok(Limits(Window(6, 0, b.periodUsed, b.annualUsed, Amounts(1_200, 1_200), Amounts(100, 100), 200),
                   Amounts(100, 100), false))
  {
    assert PeriodAt(START, LATE) == Ok(6);
    assert AnnualCaps(RuleOf(0, 12)) == Ok(Amounts(1_200, 1_200));
    assert OpenWindow(TheConfig(), b, 200, LATE)
      == Ok(Window(6, 0, b.periodUsed, b.annualUsed, Amounts(1_200, 1_200), Amounts(100, 100), 200));
    assert ReservedQuotas(200, 100, 100, true) == Amounts(100, 100);
  }

  lemma FounderReleaseTaken(w: World)
    requires w == Reported(Opened(Armed(Funded(Deposited(Approved())))))
    ensures Apply(w, Paying()[1]) == Ok(FounderPaid(w))
  {
    hide WindowLimits;
    LimitsThen(EMPTY_BOOKS);
    assert PeriodAt(START, LATE) == Ok(6);
    assert Consume(TheConfig(), w.books, w.vaults[Founder], 200, LATE, 50)
      == Ok((FounderPaid(w).books, FounderPaid(w).vaults[Founder]));
    assert Transfer(w.tokens, VaultToken(Founder), Wallet(1), 50) == Ok(FounderPaid(w).tokens);
    hide Consume, Transfer;
  }

  lemma TreasuryDraws(w: World)
    requires w == FounderPaid(Reported(Opened(Armed(Funded(Deposited(Approved()))))))
    ensures Consume(TheConfig(), w.books, w.vaults[Treasury], 200, LATE, 40)
      == Ok((BothPaid(w).books, BothPaid(w).vaults[Treasury]))
    ensures Transfer(w.tokens, VaultToken(Treasury), Wallet(2), 40) == Ok(BothPaid(w).tokens)
  {
    hide WindowLimits;
    LimitsThen(w.books);
  }

  lemma TreasuryAuthorized(w: World)
    requires w == FounderPaid(Reported(Opened(Armed(Funded(Deposited(Approved()))))))
    ensures AuthorizeRelease(w, LATE, Person(3), Treasury, 40, 0, Wallet(2), Some(6), Some(Person(16)))
      == Ok(BothPaid(w).registry)
  {
    assert PeriodAt(START, LATE) == Ok(6);
    assert CheckReport(TheConfig(), w.gov, 6, LATE).Pass?;
  }

  lemma TreasuryReleaseTaken(w: World)
    requires w == FounderPaid(Reported(Opened(Armed(Funded(Deposited(Approved()))))))
    ensures Apply(w, Paying()[2]) == Ok(BothPaid(w))
  {
    hide Consume, Transfer, WindowLimits, AuthorizeRelease;
    TreasuryDraws(w);
    TreasuryAuthorized(w);
    assert w.(lastActionAt := LATE) == w;
  }

  function Payments(): seq<Event> { Preparing() + Opening() + Paying() }

  lemma PaymentsLead()
    ensures Leads(States(), Payments())
  {
    hide Apply, Admitted, Known, Approved, Deposited, Funded, Armed, Opened, Reported, FounderPaid, BothPaid, Preparing,
      Opening, Paying;
    var s, e := States(), Payments();
    assert |Preparing()| == 2 && |Opening()| == 4 && |Paying()| == 3 by { ListLengths(); }
    KeyRecorded();
    ApprovalTaken();
    FounderDepositTaken();
    TreasuryDepositTaken();
    FundedReady();
    OpeningTaken(s[4]);
    ReportTaken(s[6]);
    FounderReleaseTaken(s[7]);
    TreasuryReleaseTaken(s[8]);
  }

  lemma ListLengths()
    ensures |Preparing()| == 2 && |Opening()| == 4 && |Paying()| == 3
  {
  }

  lemma FundedReady()
    ensures var w := Funded(Deposited(Approved()));
      && w.phase == Prepared && w.funded == Mask(true, true) && w.lastActionAt == 2_000
      && w.terms == TheTerms() && w.gov.controller == Person(1)
  {
  }

  /** What the snapshot of the paying run names: the depositor's wallet, the recipient's and the founder's. */
  function TheSnapshot(): Named { Named(Wallet(0), Wallet(2), [Wallet(1)]) }

  function Paid50And40(): World { BothPaid(FounderPaid(Reported(Opened(Armed(Funded(Deposited(Approved()))))))) }

  lemma PaidTokens(tokens: map<Addr, TokenAccount>)
    requires tokens == Paid50And40().tokens
    ensures forall a :: a in tokens <==>
      a in {Wallet(0), Wallet(1), Wallet(2), Wallet(3), VaultToken(Founder), VaultToken(Treasury)}
    ensures tokens[Wallet(0)] == TokenAccount(Person(14), 1) && tokens[Wallet(1)] == TokenAccount(Person(2), 50)
    ensures tokens[Wallet(2)] == TokenAccount(Person(16), 40) && tokens[Wallet(3)].amount == 0
  {
  }

  lemma PaidNamed(w: World)
    requires w == Paid50And40()
    ensures Separate(w, TheSnapshot()) && Settled(w, TheSnapshot(), [Person(2)], 50, 40)
  {
    PaidTokens(w.tokens);
    hide Paid50And40;
    assert Total(w.tokens, [Wallet(1)]) == 50;
    assert forall a | a in TheSnapshot().founders :: a == Wallet(1);
  }

  lemma PaidHeld(w: World)
    requires w == Paid50And40()
    ensures SingleDepositor(w) && SingleRecipient(w) && Held(w, TheSnapshot()) && Reviewable(w)
    ensures Authority.KeysOf(w, Founder) == [Person(2)]
  {
    PaidTokens(w.tokens);
    assert w.registry.approvals == map[6 := ApprovalOf(40)];
    assert w.registry.founder == Withdrawal.FreshLane(Person(2));
    assert w.vaults[Founder].depositor == Person(14) == w.vaults[Treasury].depositor;
  }

  lemma PaidAcceptable(w: World, events: seq<Event>)
    requires Genesis(w) && Run(w, events) == Paid50And40()
    ensures Acceptable(w, events, TheSnapshot())
  {
    hide Genesis, Run, Paid, Paid50And40, Settled, Held, SingleDepositor, SingleRecipient, Separate, Authority.KeysOf;
    PaidNamed(Run(w, events));
    PaidHeld(Run(w, events));
    PaidIsReleased(w, events, Founder);
    PaidIsReleased(w, events, Treasury);
    PaidOut(Run(w, events));
  }

  lemma PaidOut(w: World)
    requires w == Paid50And40()
    ensures w.books.released == Amounts(50, 40)
  {
  }

  lemma PaymentsRun()
    ensures Genesis(Admitted()) && Run(Admitted(), Payments()) == Paid50And40()
    ensures Paid50And40().phase == Active && Paid50And40().lastActionAt == LATE
    ensures forall now: time :: LATE <= now ==> Verifies(Run(Admitted(), Payments()), TheSnapshot(), now)
  {
    hide Genesis, Verifies, Acceptable;
    AdmittedIsGenesis();
    PaymentsLead();
    RunOf(States(), Payments());
    PaidAcceptable(Admitted(), Payments());
    forall now: time | LATE <= now ensures Verifies(Run(Admitted(), Payments()), TheSnapshot(), now) {
      ReachableVerifies(Admitted(), Payments(), TheSnapshot(), now);
    }
  }

  /** There is a run from admission that has paid out of both pools, and whose snapshot the verifier accepts. */
  lemma SomeRunPays() returns (w: World, events: seq<Event>, n: Named)
    ensures Genesis(w) && Run(w, events).phase == Active
    ensures Paid(w, events, Founder) == 50 && Paid(w, events, Treasury) == 40
    ensures forall now: time :: Run(w, events).lastActionAt <= now ==> Verifies(Run(w, events), n, now)
  {
    hide Genesis, Verifies;
    w, events, n := Admitted(), Payments(), TheSnapshot();
    PaymentsRun();
    PaidIsReleased(w, events, Founder);
    PaidIsReleased(w, events, Treasury);
  }

  lemma {:induction false} RunOn(w: World, events: seq<Event>, more: seq<Event>)
    ensures Run(w, events + more) == Run(Run(w, events), more)
    decreases |more|
  {
    if more == [] {
      assert events + more == events;
    } else {
      RunOn(w, events, more[..|more| - 1]);
      assert (events + more)[..|events + more| - 1] == events + more[..|more| - 1];
    }
  }

  /* ---- Two recipients ---- */

  function SecondApproval(): (events: seq<Event>)
    ensures |events| == 2
  {
    [Invoke(LATE, PrepareWithdrawalKey(Person(15))),
     Invoke(LATE, ApproveTreasury(Person(3), 8, 10, 0, Wallet(3)))]
  }

  function SecondKnown(w: World): World {
    w.(registry := w.registry.(keys := w.registry.keys[Person(15) := KeyRecord(EMPTY_MASK, EMPTY_MASK, false)]))
  }

  lemma SecondKeyRecorded(w: World)
    requires w == Paid50And40()
    ensures Apply(w, SecondApproval()[0]) == Ok(SecondKnown(w))
    ensures w.phase == Active && w.lastActionAt == LATE && w.terms == TheTerms()
    ensures w.registry.treasury.state == RoleState(Person(3), 0, 0, 0)
    ensures w.registry.approvals == map[6 := ApprovalOf(40)] && w.registry.approvalCount == 1
    ensures Wallet(3) in w.tokens && w.tokens[Wallet(3)].owner == Person(15)
  {
    assert w.registry.keys == map[Person(16) := KeyRecord(EMPTY_MASK, EMPTY_MASK, true)];
    assert w.registry.approvals == map[6 := ApprovalOf(40)];
  }

  lemma SecondApprovalMade(w: World)
    requires w.phase == Active && w.lastActionAt == LATE && w.terms == TheTerms()
    requires w.registry.treasury.state == RoleState(Person(3), 0, 0, 0)
    requires w.registry.approvals == map[6 := ApprovalOf(40)] && w.registry.approvalCount == 1
    requires Wallet(3) in w.tokens && w.tokens[Wallet(3)].owner == Person(15)
    ensures Apply(SecondKnown(w), SecondApproval()[1]).Ok?
    ensures var w' := Apply(SecondKnown(w), SecondApproval()[1]).value;
      w'.phase == Active && w'.lastActionAt == LATE && !SingleRecipient(w')
  {
    assert PeriodAt(START, LATE) == Ok(6);
    assert PeriodStart(START, 9) == Ok(START + 9 * PERIOD);
    var w' := Apply(SecondKnown(w), SecondApproval()[1]).value;
    assert w'.registry.approvals[6].recipient == Wallet(2) && w'.registry.approvals[8].recipient == Wallet(3);
  }

  /** One more approval, for another recipient, and no snapshot of an accepted run is ever accepted again. */
  lemma TwoRecipientsRefused() returns (w: World, events: seq<Event>, more: seq<Event>, n: Named)
    ensures Genesis(w) && Verifies(Run(w, events), n, LATE)
    ensures Run(w, events + more).phase == Active && !SingleRecipient(Run(w, events + more))
    ensures forall n, now :: !Verifies(Run(w, events + more), n, now)
  {
    hide Genesis, Verifies, SingleRecipient, Apply, SecondApproval, SecondKnown, Paid50And40;
    w, events, more, n := Admitted(), Payments(), SecondApproval(), TheSnapshot();
    PaymentsRun();
    SecondKeyRecorded(Paid50And40());
    SecondApprovalMade(Paid50And40());
    var after := Apply(SecondKnown(Paid50And40()), SecondApproval()[1]).value;
    RunOf([Paid50And40(), SecondKnown(Paid50And40()), after], SecondApproval());
    RunOn(w, events, more);
    forall n, now ensures !Verifies(Run(w, events + more), n, now) {
      MixedNeverVerifies(w, events + more, n, now);
    }
  }

  /* ---- Dust out of sight ---- */

  /** The depositor moves its last token to another key's wallet. */
  function Dust(): Event { MoveTokens(0, Wallet(3), 1) }

  function Dusted(w: World): World {
    w.(tokens := w.tokens[Wallet(0) := TokenAccount(Person(14), 0)][Wallet(3) := TokenAccount(Person(15), 1)])
  }

  lemma DustMoved(w: World)
    requires w == Paid50And40()
    ensures Apply(w, Dust()) == Ok(Dusted(w))
  {
    PaidTokens(w.tokens);
    hide Paid50And40;
    assert Transfer(w.tokens, Wallet(0), Wallet(3), 1) == Ok(Dusted(w).tokens);
  }

  /** A wallet holds a token of key 15, which is no depositor's, no recipient's and none of the founder's. */
  ghost predicate DustOutOfSight(w: World) {
    && Wallet(3) in w.tokens && w.tokens[Wallet(3)] == TokenAccount(Person(15), 1)
    && !HasDepositor(w, Person(15)) && !HasRecipient(w, Wallet(3), Person(15)) && w.registry.approvals != map[]
    && Person(15) !in Authority.KeysOf(w, Founder)
  }

  lemma DustLeft(w: World)
    requires w == Paid50And40()
    ensures DustOutOfSight(Dusted(w)) && Dusted(w).phase == Active && Dusted(w).lastActionAt == LATE
  {
    PaidHeld(w);
    SameKeys(w, Dusted(w));
    hide Authority.KeysOf;
    var w' := Dusted(w);
    assert 6 in w'.registry.approvals && forall p | p in w'.registry.approvals :: p == 6;
    assert !HasRecipient(w', Wallet(3), Person(15));
    forall r | r in w'.vaults ensures w'.vaults[r].depositor == Person(14) {
      if r.Founder? {} else {}
    }
    assert !HasDepositor(w', Person(15));
  }

  lemma SameKeys(w: World, w': World)
    requires w'.terms == w.terms && w'.registry == w.registry
    ensures Authority.KeysOf(w', Founder) == Authority.KeysOf(w, Founder)
  {
  }

  /** No snapshot can name the wallet with the dust. */
  lemma DustUnnamed(w: World, n: Named, founder: nat, treasury: nat)
    requires DustOutOfSight(w)
    ensures !(Held(w, n) && Settled(w, n, Authority.KeysOf(w, Founder), founder, treasury))
  {
    hide HasDepositor, HasRecipient, Total, Authority.KeysOf;
  }

  /** One token moved to a wallet that no snapshot can name, and an accepted run is accepted no longer. */
  lemma DustRefused() returns (w: World, events: seq<Event>, n: Named)
    ensures Genesis(w) && Verifies(Run(w, events), n, LATE)
    ensures Run(w, events + [Dust()]).phase == Active
    ensures forall n, now :: !Verifies(Run(w, events + [Dust()]), n, now)
  {
    hide Genesis, Verifies, Apply, Paid50And40, Dusted, DustOutOfSight, Dust, Run;
    w, events, n := Admitted(), Payments(), TheSnapshot();
    PaymentsRun();
    DustMoved(Paid50And40());
    DustLeft(Paid50And40());
    RunAppends(w, events, Dust());
    forall n, now ensures !Verifies(Run(w, events + [Dust()]), n, now) {
      DustNeverVerifies(w, events + [Dust()], n, now);
    }
  }

  lemma RunAppends(w: World, events: seq<Event>, e: Event)
    ensures Run(w, events + [e]) == Next(Run(w, events), e)
  {
    assert (events + [e])[..|events|] == events;
  }

  lemma DustNeverVerifies(w: World, events: seq<Event>, n: Named, now: time)
    requires Genesis(w) && DustOutOfSight(Run(w, events))
    ensures !Verifies(Run(w, events), n, now)
  {
    hide Genesis, Run, Held, Settled, SingleDepositor, SingleRecipient, DustOutOfSight, Authority.KeysOf;
    var w' := Run(w, events);
    if Verifies(w', n, now) {
      ReachableVerifies(w, events, n, now);
      DustUnnamed(w', n, Paid(w, events, Founder), Paid(w, events, Treasury));
    }
  }

  /* ---- Two depositors ---- */

  /** The second deposit comes from another key's wallet, to which the first depositor moved the tokens. */
  function MixedOpening(): seq<Event> {
    [MoveTokens(0, Wallet(3), 24_000),
     Invoke(2_000, Deposit(Person(1), Person(15), Person(3), 1, 24_000, Wallet(3)))]
  }

  function Moved(w: World): World {
    w.(tokens := w.tokens[Wallet(0) := TokenAccount(Person(14), 1)][Wallet(3) := TokenAccount(Person(15), 24_000)])
  }

  function MixedFunded(w: World): World {
    w.(funded := Mask(true, true), vaults := w.vaults[Treasury := Fresh(Person(15), Treasury)],
       tokens := w.tokens[Wallet(3) := TokenAccount(Person(15), 0)]
                   [VaultToken(Treasury) := TokenAccount(VaultAuthority(Treasury), 24_000)])
  }

  lemma TokensMoved()
    ensures Apply(Deposited(Approved()), MixedOpening()[0]) == Ok(Moved(Deposited(Approved())))
  {
  }

  lemma MixedDepositTaken(w: World)
    requires w == Moved(Deposited(Approved()))
    ensures Apply(w, MixedOpening()[1]) == Ok(MixedFunded(w))
  {
    var accounts := w.tokens[VaultToken(Treasury) := TokenAccount(VaultAuthority(Treasury), 0)];
    var debited := accounts[Wallet(3) := TokenAccount(Person(15), 0)];
    assert debited[VaultToken(Treasury) := TokenAccount(VaultAuthority(Treasury), 24_000)] == MixedFunded(w).tokens;
    assert Transfer(accounts, Wallet(3), VaultToken(Treasury), 24_000) == Ok(MixedFunded(w).tokens);
    hide Transfer;
  }

  lemma MixedDeposited(w: World)
    requires w == Moved(Deposited(Approved()))
    ensures !SingleDepositor(Opened(Armed(MixedFunded(w))))
  {
    var vaults := Opened(Armed(MixedFunded(w))).vaults;
    assert Founder in vaults && vaults[Founder].depositor == Person(14);
    assert Treasury in vaults && vaults[Treasury].depositor == Person(15);
  }

  /** A policy whose pools two keys deposited becomes active, and no snapshot of it is ever accepted. */
  lemma TwoDepositorsRefused() returns (w: World, events: seq<Event>)
    ensures Genesis(w) && Run(w, events).phase == Active && !SingleDepositor(Run(w, events))
    ensures forall n, now :: !Verifies(Run(w, events), n, now)
  {
    hide Genesis, Verifies, SingleDepositor;
    w := Admitted();
    events := Preparing() + [Opening()[0]] + MixedOpening() + Opening()[2..];
    AdmittedIsGenesis();
    MixedLeads();
    var first := Deposited(Approved());
    var active := Opened(Armed(MixedFunded(Moved(first))));
    RunOf([Admitted(), Known(), Approved(), first, Moved(first), MixedFunded(Moved(first)),
           Armed(MixedFunded(Moved(first))), active], events);
    MixedDeposited(Moved(first));
    forall n, now ensures !Verifies(Run(w, events), n, now) {
      MixedNeverVerifies(w, events, n, now);
    }
  }

  lemma MixedLeads()
    ensures var first := Deposited(Approved());
      Leads([Admitted(), Known(), Approved(), first, Moved(first), MixedFunded(Moved(first)),
             Armed(MixedFunded(Moved(first))), Opened(Armed(MixedFunded(Moved(first))))],
            Preparing() + [Opening()[0]] + MixedOpening() + Opening()[2..])
  {
    hide Apply, Admitted, Known, Approved, Deposited, Moved, MixedFunded, Armed, Opened, SingleDepositor;
    var first := Deposited(Approved());
    KeyRecorded();
    ApprovalTaken();
    FounderDepositTaken();
    TokensMoved();
    MixedDepositTaken(Moved(first));
    MixedReady();
    OpeningTaken(MixedFunded(Moved(first)));
  }

  lemma MixedReady()
    ensures var w := MixedFunded(Moved(Deposited(Approved())));
      && w.phase == Prepared && w.funded == Mask(true, true) && w.lastActionAt == 2_000
      && w.terms == TheTerms() && w.gov.controller == Person(1)
  {
  }

  /* ---- A refund after cancellation ---- */

  function Refunding(): seq<Event> {
    [Invoke(3_000, CancelPolicy(Person(1), Person(2), Person(3))),
     Invoke(3_000, Refund(Person(14), Founder, Wallet(0)))]
  }

  function Cancelling(): seq<Event> { Preparing() + [Opening()[0]] + [Refunding()[0]] }

  lemma CancellingTaken(w: World)
    requires w == Deposited(Approved())
    ensures Apply(w, Refunding()[0]) == Ok(w.(phase := Cancelled, lastActionAt := 3_000))
    ensures Founder in w.vaults && w.vaults[Founder].depositor == Person(14)
    ensures Wallet(0) in w.tokens && w.tokens[Wallet(0)] == TokenAccount(Person(14), 24_001)
  {
  }

  lemma CancellingLeads()
    ensures Leads([Admitted(), Known(), Approved(), Deposited(Approved()),
                   Deposited(Approved()).(phase := Cancelled, lastActionAt := 3_000)], Cancelling())
  {
    hide Apply, Admitted, Known, Approved, Deposited;
    KeyRecorded();
    ApprovalTaken();
    FounderDepositTaken();
    CancellingTaken(Deposited(Approved()));
  }

  lemma {:induction false} NoRefund(w: World, events: seq<Event>, r: Role)
    requires forall e | e in events :: e.Invoke? ==> !e.instruction.Refund?
    ensures !Refunded(w, events, r)
    decreases |events|
  {
    if events != [] {
      NoRefund(w, events[..|events| - 1], r);
    }
  }

  /** There is a run in which the deposit is refunded in full after a cancellation. */
  lemma SomeRunRefunds() returns (w: World, events: seq<Event>)
    ensures Genesis(w) && Run(w, events).phase == Cancelled && Refunded(w, events, Founder)
    ensures Balance(Run(w, events).tokens, Wallet(0)) >= 48_001
  {
    hide Genesis, Step, Admitted, Known, Approved, Deposited, Refunded, Run, Cancelling;
    w, events := Admitted(), Cancelling() + [Refunding()[1]];
    AdmittedIsGenesis();
    CancelledRun();
    NoneRefunded();
    RefundTheorem(w, Cancelling(), Founder, 3_000, Person(14), Wallet(0));
    RefundedLast(w, Cancelling(), 3_000, Person(14), Wallet(0));
  }

  lemma CancelledRun()
    ensures Run(Admitted(), Cancelling()) == Deposited(Approved()).(phase := Cancelled, lastActionAt := 3_000)
    ensures var w := Run(Admitted(), Cancelling());
      && w.terms == TheTerms() && Admitted().terms == TheTerms()
      && Founder in w.vaults && w.vaults[Founder].depositor == Person(14)
      && Wallet(0) in w.tokens && w.tokens[Wallet(0)] == TokenAccount(Person(14), 24_001)
  {
    CancellingTaken(Deposited(Approved()));
    hide Deposited, Approved, Known, Apply;
    CancellingLeads();
    RunOf([Admitted(), Known(), Approved(), Deposited(Approved()),
           Deposited(Approved()).(phase := Cancelled, lastActionAt := 3_000)], Cancelling());
  }

  lemma NoneRefunded()
    ensures !Refunded(Admitted(), Cancelling(), Founder)
  {
    hide Refunded;
    NoRefund(Admitted(), Cancelling(), Founder);
  }

  lemma RefundedLast(w: World, events: seq<Event>, now: time, depositor: Signer, destination: Addr)
    requires Step(Run(w, events), now, Instruction.Refund(depositor, Founder, destination)).Ok?
    ensures var after := events + [Invoke(now, Instruction.Refund(depositor, Founder, destination))];
      && Run(w, after) == Step(Run(w, events), now, Instruction.Refund(depositor, Founder, destination)).value
      && Run(w, after).phase == Cancelled && Refunded(w, after, Founder)
  {
    var e := Invoke(now, Instruction.Refund(depositor, Founder, destination));
    assert (events + [e])[..|events|] == events;
    hide Transfer;
  }

  /* ---- Replaced keys ---- */

  function Replacing(): seq<Event> {
    [Invoke(1_100, PrepareWithdrawalKey(Person(16))),
     Invoke(1_500, ProposeWithdrawal(Withdrawal.Intent(Person(2), Person(2), Person(16), 0, false, 1, 0, 1_400, 1_600,
                                                       Person(2)))),
     Invoke(1_500, ProposeChange(Person(1), Person(1), Person(17), 0, false, 1)),
     Invoke(NOTED, ExecuteWithdrawal(Founder, 1)),
     Invoke(NOTED, ExecuteChange(1))]
  }

  function Proposed(): World {
    Known().(lastActionAt := 1_500, registry := Registry(
      Lane(RoleState(Person(2), 0, 1, 1), map[1 := TheProposal(Pending, 0)]), Known().registry.treasury,
      map[Person(16) := KeyRecord(EMPTY_MASK, Mask(true, false), false)], map[], 0))
  }

  function TheProposal(status: Status, finishedAt: i64): Proposal {
    Proposal(Founder, 1, 0, Person(2), Person(16), false, 1_400, 1_600, 1_500, NOTED, NOTED + EXECUTION_WINDOW, status,
             finishedAt)
  }

  function TheChange(status: Status): Change {
    Change(1, ChangeOracle, false, Person(17), 0, 0, 1_500, NOTED, status)
  }

  function BothProposed(): World {
    Proposed().(gov := Proposed().gov.(changeSequence := 1, pendingChange := 1, changes :=
        map[1 := TheChange(Pending)]))
  }

  function Replaced(): World {
    BothProposed().(lastActionAt := NOTED, registry := Registry(
      Lane(RoleState(Person(16), 1, 1, 0), map[1 := TheProposal(Executed, NOTED)]), Known().registry.treasury,
      map[Person(16) := KeyRecord(Mask(true, false), EMPTY_MASK, false)], map[], 0))
  }

  lemma ProposalTaken()
    ensures Apply(Known(), Replacing()[1]) == Ok(Proposed())
  {
    assert map[][1 := TheProposal(Pending, 0)] == map[1 := TheProposal(Pending, 0)];
    assert Known().registry.keys[Person(16) := KeyRecord(EMPTY_MASK, Mask(true, false), false)]
        == Proposed().registry.keys;
  }

  lemma ChangeTaken()
    ensures Apply(Proposed(), Replacing()[2]) == Ok(BothProposed())
  {
    assert map[][1 := TheChange(Pending)] == map[1 := TheChange(Pending)];
  }

  lemma ExecutionTaken()
    ensures Apply(BothProposed(), Replacing()[3]) == Ok(Replaced())
  {
    var lane := BothProposed().registry.founder;
    assert lane.proposals[1 := TheProposal(Executed, NOTED)] == Replaced().registry.founder.proposals;
    assert BothProposed().registry.keys[Person(16) := KeyRecord(Mask(true, false), EMPTY_MASK, false)]
        == Replaced().registry.keys;
  }

  lemma ChangeExecuted()
    ensures Apply(Replaced(), Replacing()[4]).Ok?
    ensures var w := Apply(Replaced(), Replacing()[4]).value;
      && w.registry.founder.state == RoleState(Person(16), 1, 1, 0)
      && w.gov.oracle == Person(17) && w.gov.oracleEpoch == 1
  {
  }

  /** There is a run in which a withdrawal key and the oracle are both replaced after full notice. */
  lemma SomeRunReplaces() returns (w: World, events: seq<Event>)
    ensures Genesis(w) && |events| == 5 && Committed(w, events, 3) && Committed(w, events, 4)
    ensures events[3] == Invoke(NOTED, ExecuteWithdrawal(Founder, 1)) && events[4] == Invoke(NOTED, ExecuteChange(1))
    ensures Run(w, events).registry.founder.state.current == Person(16) && Run(w, events).gov.oracle == Person(17)
  {
    hide Genesis, Apply, Admitted, Known, Proposed, BothProposed, Replaced, Run;
    w, events := Admitted(), Replacing();
    AdmittedIsGenesis();
    KeyRecorded();
    ProposalTaken();
    ChangeTaken();
    ExecutionTaken();
    ChangeExecuted();
    var last := Apply(Replaced(), Replacing()[4]).value;
    RunOf([w, Known(), Proposed(), BothProposed()], events[..3]);
    RunOf([w, Known(), Proposed(), BothProposed(), Replaced()], events[..4]);
    RunOf([w, Known(), Proposed(), BothProposed(), Replaced(), last], events);
  }
}
