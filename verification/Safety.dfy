/** What holds of every run of the launch vault from its admission, as far as money is concerned. */
module Safety {
  import opened Basics
  import opened State
  import opened Capacity
  import opened Tokens
  import opened Launch
  import opened Invariant
  import opened Preservation
  import Withdrawal
  import Tombstones
  import RegistryProofs
  import Control

  /* ---- Runs from admission ---- */

  /** An admitted policy over the token accounts of its whole mint, before its vaults exist. */
  predicate Admits(p: Preparation, consent: Consent, tokens: map<Addr, TokenAccount>, now: time, w: World) {
    && Open(p, consent, tokens, now) == Ok(w)
    && VaultToken(Founder) !in tokens && VaultToken(Treasury) !in tokens
  }

  ghost predicate Genesis(w: World) {
    && Supply(w.tokens) == w.terms.mint.supply
    && exists p, consent, tokens, now :: Admits(p, consent, tokens, now, w)
  }

  /** What an admitted policy starts with. */
  lemma OpenFacts(p: Preparation, consent: Consent, tokens: map<Addr, TokenAccount>, now: time)
    requires Open(p, consent, tokens, now).Ok?
    ensures var w := Open(p, consent, tokens, now).value;
      w.terms == p.terms && w.tokens == tokens && w.books == EMPTY_BOOKS && w.vaults == map[]
  {
    hide Validate;
  }

  lemma GenesisFacts(w: World)
    requires Genesis(w)
    ensures w.books == EMPTY_BOOKS && w.vaults == map[]
  {
    hide Open;
    var p, consent, tokens, now :| Admits(p, consent, tokens, now, w);
    OpenFacts(p, consent, tokens, now);
  }

  lemma GenesisInv(w: World)
    requires Genesis(w)
    ensures Inv(w)
  {
    hide Inv, Open, Supply;
    var p, consent, tokens, now :| Admits(p, consent, tokens, now, w);
    OpenFacts(p, consent, tokens, now);
    forall r: Role ensures VaultToken(r) !in tokens {
      if r.Founder? {} else {}
    }
    OpenEstablishes(p, consent, tokens, now);
  }

  /** The world before event `i` of a run. */
  function At(w: World, events: seq<Event>, i: nat): World
    requires i <= |events|
  {
    Run(w, events[..i])
  }

  predicate Committed(w: World, events: seq<Event>, i: nat)
    requires i < |events|
  {
    Apply(At(w, events, i), events[i]).Ok?
  }

  lemma AtNext(w: World, events: seq<Event>, i: nat)
    requires i < |events|
    ensures At(w, events, i + 1) == Next(At(w, events, i), events[i])
  {
    assert events[..i + 1][..i] == events[..i];
  }

  lemma Reached(w: World, events: seq<Event>, i: nat)
    requires Genesis(w) && i <= |events|
    ensures Inv(At(w, events, i)) && At(w, events, i).terms == w.terms
    ensures Supply(At(w, events, i).tokens) == w.terms.mint.supply
  {
    hide Inv;
    GenesisInv(w);
    RunKeeps(w, events[..i]);
  }

  /* ---- Releases and the lifetime bound ---- */

  /** What one committed event paid out of a pool. */
  function PaidBy(w: World, e: Event, r: Role): nat {
    if Apply(w, e).Ok? && e.Invoke? && e.instruction.Release? && e.instruction.role == r then e.instruction.amount
      else 0
  }

  /** What a run paid out of a pool by releases. */
  function Paid(w: World, events: seq<Event>, r: Role): nat
    decreases |events|
  {
    if events == [] then 0
    else Paid(w, events[..|events| - 1], r) + PaidBy(Run(w, events[..|events| - 1]), events[|events| - 1], r)
  }

  lemma ReleaseCounts(w: World, now: time, authority: Signer, r: Role, amount: u64, epoch: u64, destination: Addr,
          approval: Option<u64>, recipientRecord: Option<Key>, other: Role)
    requires Inv(w) && ReleaseStep(w, now, authority, r, amount, epoch, destination, approval, recipientRecord).Ok?
    ensures var w' := ReleaseStep(w, now, authority, r, amount, epoch, destination, approval, recipientRecord).value;
      w'.books.released.Get(other) == w.books.released.Get(other) + (if other == r then amount else 0)
  {
    hide Consume, AuthorizeRelease, Transfer, AuthorityInv, LedgerInv;
    TickKeeps(w, now);
    ReleaseAuthorized(Tick(w, now).value, now, authority, r, amount, epoch, destination, approval, recipientRecord);
    hide TermsOk;
    ConsumeVaults(Tick(w, now).value, now, r, amount);
  }

  lemma ReleaseEventCounts(w: World, e: Event, r: Role)
    requires Inv(w) && Apply(w, e).Ok? && e.Invoke? && e.instruction.Release?
    ensures Apply(w, e).value.books.released.Get(r) == w.books.released.Get(r) + PaidBy(w, e, r)
  {
    hide Inv, ReleaseStep;
    var i := e.instruction;
    ReleaseCounts(w, e.now, i.authority, i.role, i.amount, i.authorityEpoch, i.destination, i.approval,
        i.recipientRecord, r);
  }

  lemma BooksUntouched(w: World, e: Event)
    requires Apply(w, e).Ok? && !(e.Invoke? && e.instruction.Release?)
    ensures Apply(w, e).value.books == w.books
  {
    hide Withdrawal.Propose, Withdrawal.Execute, Withdrawal.Cancel, Withdrawal.Expire, Withdrawal.Approve,
      Control.Propose, Control.Execute, Control.Cancel, Control.ReportCapacity, ReleaseStep, Transfer;
    if e.Invoke? {
      match e.instruction case _ =>
    }
  }

  lemma NextCounts(w: World, e: Event, r: Role)
    requires Inv(w)
    ensures Next(w, e).books.released.Get(r) == w.books.released.Get(r) + PaidBy(w, e, r)
  {
    hide Inv, Step;
    if Apply(w, e).Ok? {
      if e.Invoke? && e.instruction.Release? {
        ReleaseEventCounts(w, e, r);
      } else {
        BooksUntouched(w, e);
      }
    }
  }

  /** The policy's lifetime counters are exactly what the run's releases paid. */
  lemma {:induction false} PaidIsReleased(w: World, events: seq<Event>, r: Role)
    requires Genesis(w)
    ensures Run(w, events).books.released.Get(r) == Paid(w, events, r)
    decreases |events|
  {
    if events == [] {
      GenesisFacts(w);
    } else {
      hide Inv, Genesis, PaidBy, Next;
      PaidIsReleased(w, events[..|events| - 1], r);
      var last := Run(w, events[..|events| - 1]);
      assert Inv(last) by { Reached(w, events, |events| - 1); }
      NextCounts(last, events[|events| - 1], r);
    }
  }

  /**
   Whatever the oracle reports and whichever keys are changed, a run of any length pays out of a pool at most
   the sum of its two annual entitlements, hence at most a tenth of its principal.
   */
  lemma LifetimeTheorem(w: World, events: seq<Event>, r: Role)
    requires Genesis(w)
    ensures Paid(w, events, r) <= Entitlement(w.terms.config.rules.first, r)
      + Entitlement(w.terms.config.rules.second, r)
    ensures 10 * Paid(w, events, r) <= w.terms.config.amount.Get(r)
  {
    PaidIsReleased(w, events, r);
    assert events[..|events|] == events;
    Reached(w, events, |events|);
    hide Entitlement, BooksInv;
    LifetimeBound(w.terms.config, Run(w, events).books, r);
  }

  /* ---- Custody ---- */

  /**
   In every state of every run the mint's whole supply is in its token accounts; until cancellation a funded
   vault holds at least what its pool has not released; and an active policy has both pools, exactly funded.
   */
  lemma CustodyTheorem(w: World, events: seq<Event>, r: Role)
    requires Genesis(w)
    ensures var w' := Run(w, events);
      && Supply(w'.tokens) == w.terms.mint.supply
      && (w'.phase == Active ==> r in w'.vaults)
      && (r in w'.vaults && w'.phase != Cancelled ==>
            Balance(w'.tokens, VaultToken(r)) + Paid(w, events, r) >= w.terms.config.amount.Get(r))
      && (r in w'.vaults ==> w'.vaults[r].principal == w.terms.config.amount.Get(r))
      && (w'.phase == Cancelled ==> Paid(w, events, r) == 0)
  {
    PaidIsReleased(w, events, r);
    assert events[..|events|] == events;
    Reached(w, events, |events|);
    var w' := Run(w, events);
    hide BooksInv, AuthorityInv, SpendingInv, Supply, Run, Paid;
    assert VaultInv(w', r) by {
      if r.Founder? {} else {}
    }
    assert w'.phase != Cancelled ==> Covered(w', r) by {
      if r.Founder? {} else {}
    }
  }

  /* ---- Refunds ---- */

  /** A committed refund of a pool. */
  predicate Refunds(w: World, e: Event, r: Role) {
    Apply(w, e).Ok? && e.Invoke? && e.instruction.Refund? && e.instruction.role == r
  }

  predicate Refunded(w: World, events: seq<Event>, r: Role)
    decreases |events|
  {
    if events == [] then false
    else Refunded(w, events[..|events| - 1], r) || Refunds(Run(w, events[..|events| - 1]), events[|events| - 1], r)
  }

  /** Only a refund of its own pool uncovers a vault. */
  lemma CoveredUntilRefund(w: World, e: Event, r: Role)
    requires Inv(w) && Covered(w, r) && Apply(w, e).Ok? && !Refunds(w, e, r)
    ensures Covered(Apply(w, e).value, r)
  {
    var w' := Apply(w, e).value;
    ApplyKeeps(w, e);
    if w'.phase != Cancelled {
      hide AuthorityInv, BooksInv, VaultInv, SpendingInv;
      if r.Founder? {} else {}
    } else if w.phase == Cancelled {
      CancelledTokens(w, e, r);
    } else {
      StillCoveredAtCancellation(w, e, r);
    }
  }

  lemma StillCoveredAtCancellation(w: World, e: Event, r: Role)
    requires Covered(w, r) && w.phase != Cancelled && Apply(w, e).Ok? && Apply(w, e).value.phase == Cancelled
    ensures Covered(Apply(w, e).value, r)
  {
    hide Withdrawal.Propose, Withdrawal.Execute, Withdrawal.Cancel, Withdrawal.Expire, Withdrawal.Approve,
      Control.Propose, Control.Execute, Control.Cancel, Control.ReportCapacity, Transfer, Consume, AuthorizeRelease;
    if e.Invoke? {
      match e.instruction case _ =>
    }
  }

  lemma CancelledTokens(w: World, e: Event, r: Role)
    requires Inv(w) && w.phase == Cancelled && Covered(w, r) && Apply(w, e).Ok? && !Refunds(w, e, r)
    ensures Covered(Apply(w, e).value, r)
  {
    hide AuthorityInv, BooksInv, VaultOk, SpendingInv, Supply, TermsOk, DepositStep, ReleaseStep, ReportStep,
      Withdrawal.Propose, Withdrawal.Execute, Withdrawal.Cancel, Withdrawal.Expire, Withdrawal.Approve, Control.Propose,
      Control.Execute, Control.Cancel, Consume;
    assert VaultInv(w, Founder) && VaultInv(w, Treasury);
    if e.Invoke? && e.instruction.ReportCapacity? {
      ReportLeavesTokens(w, e);
    } else if e.Invoke? {
      CancelledRefuses(w, e);
      match e.instruction case _ =>
    }
  }

  lemma ReportLeavesTokens(w: World, e: Event)
    requires Apply(w, e).Ok? && e.Invoke? && e.instruction.ReportCapacity?
    ensures Apply(w, e).value.tokens == w.tokens && Apply(w, e).value.vaults == w.vaults
  {
    hide Control.ReportCapacity;
  }

  lemma CancelledRefuses(w: World, e: Event)
    requires w.phase == Cancelled && Apply(w, e).Ok? && e.Invoke?
    ensures !e.instruction.Deposit? && !e.instruction.Release?
  {
    hide Transfer, Consume, Withdrawal.Authenticate;
  }

  lemma NextCovered(w: World, e: Event, r: Role)
    requires Inv(w) && Covered(w, r) && !Refunds(w, e, r)
    ensures Covered(Next(w, e), r)
  {
    hide Inv, Covered, Step;
    if Apply(w, e).Ok? {
      CoveredUntilRefund(w, e, r);
    }
  }

  lemma GenesisCovered(w: World, r: Role)
    requires Genesis(w)
    ensures Covered(w, r)
  {
    GenesisFacts(w);
  }

  lemma {:induction false} UnrefundedCovered(w: World, events: seq<Event>, r: Role)
    requires Genesis(w) && !Refunded(w, events, r)
    ensures Covered(Run(w, events), r)
    decreases |events|
  {
    hide Inv, Covered, Genesis, Next, Refunds;
    if events == [] {
      GenesisCovered(w, r);
    } else {
      UnrefundedCovered(w, events[..|events| - 1], r);
      var last := Run(w, events[..|events| - 1]);
      assert Inv(last) by { Reached(w, events, |events| - 1); }
      NextCovered(last, events[|events| - 1], r);
    }
  }

  /**
   After a cancellation the first refund of a funded pool cannot be refused to the original depositor, and pays
   at least the whole principal to the account it names.
   */
  lemma RefundTheorem(w: World, events: seq<Event>, r: Role, now: time, depositor: Signer, destination: Addr)
    requires Genesis(w) && !Refunded(w, events, r)
    requires var w' := Run(w, events);
      && w'.phase == Cancelled && r in w'.vaults && w'.vaults[r].depositor == depositor && w'.lastActionAt <= now
      && destination in w'.tokens && w'.tokens[destination].owner == depositor
    ensures var w', result := Run(w, events), Step(Run(w, events), now, Instruction.Refund(depositor, r, destination));
      && result.Ok?
      && Balance(result.value.tokens, destination) >= Balance(w'.tokens, destination) + w.terms.config.amount.Get(r)
      && Balance(result.value.tokens, VaultToken(r)) == 0
  {
    var w' := Run(w, events);
    UnrefundedCovered(w, events, r);
    assert events[..|events|] == events;
    Reached(w, events, |events|);
    RefundOk(w', r, now, depositor, destination);
  }

  lemma RefundOk(w: World, r: Role, now: time, depositor: Signer, destination: Addr)
    requires Inv(w) && Covered(w, r) && w.phase == Cancelled && r in w.vaults && w.vaults[r].depositor == depositor
    requires w.lastActionAt <= now && destination in w.tokens && w.tokens[destination].owner == depositor
    ensures var result := Step(w, now, Instruction.Refund(depositor, r, destination));
      && result.Ok?
      && Balance(result.value.tokens, destination) >= Balance(w.tokens, destination) + w.terms.config.amount.Get(r)
      && Balance(result.value.tokens, VaultToken(r)) == 0
  {
    hide AuthorityInv, SpendingInv, Supply;
    assert VaultInv(w, r) by {
      if r.Founder? {} else {}
    }
    assert w.vaults[r].releasedTotal == 0 && w.vaults[r].principal == w.terms.config.amount.Get(r) > 0 by {
      if r.Founder? {} else {}
    }
    TransferConserves(w.tokens, VaultToken(r), destination, w.tokens[VaultToken(r)].amount);
  }

  /** A vault keeps the depositor, the principal and the authority that its deposit recorded. */
  lemma VaultFixed(w: World, e: Event, r: Role)
    requires r in w.vaults && Apply(w, e).Ok?
    ensures var w' := Apply(w, e).value;
      && r in w'.vaults && w'.vaults[r].depositor == w.vaults[r].depositor
      && w'.vaults[r].principal == w.vaults[r].principal && w'.vaults[r].authority == w.vaults[r].authority
  {
    hide Withdrawal.Propose, Withdrawal.Execute, Withdrawal.Cancel, Withdrawal.Expire, Withdrawal.Approve,
      Control.Propose, Control.Execute, Control.Cancel, Control.ReportCapacity, Transfer, ReleaseStep, DepositStep;
    if e.Invoke? {
      if e.instruction.Release? || e.instruction.Deposit? {
        MovedVaultFixed(w, e, r);
      } else {
        match e.instruction case _ =>
      }
    }
  }

  lemma MovedVaultFixed(w: World, e: Event, r: Role)
    requires r in w.vaults && Apply(w, e).Ok? && e.Invoke? && (e.instruction.Release? || e.instruction.Deposit?)
    ensures var w' := Apply(w, e).value;
      && r in w'.vaults && w'.vaults[r].depositor == w.vaults[r].depositor
      && w'.vaults[r].principal == w.vaults[r].principal && w'.vaults[r].authority == w.vaults[r].authority
  {
    hide Transfer, WindowLimits, AuthorizeRelease, Withdrawal.Authenticate;
  }

  lemma {:induction false} DepositorFixed(w: World, events: seq<Event>, r: Role)
    requires r in w.vaults
    ensures r in Run(w, events).vaults && Run(w, events).vaults[r].depositor == w.vaults[r].depositor
    decreases |events|
  {
    if events != [] {
      DepositorFixed(w, events[..|events| - 1], r);
      var last, e := Run(w, events[..|events| - 1]), events[|events| - 1];
      if Apply(last, e).Ok? {
        VaultFixed(last, e, r);
      }
    }
  }

  /** A committed deposit of a pool by a depositor. */
  predicate Deposits(e: Event, r: Role, depositor: Key) {
    e.Invoke? && e.instruction.Deposit? && RoleOf(e.instruction.roleNumber) == Some(r)
    && e.instruction.depositor == depositor
  }

  lemma NewVaultDeposited(w: World, e: Event, r: Role)
    requires Apply(w, e).Ok? && e.Invoke? && e.instruction.Deposit? && r !in w.vaults && r in Apply(w, e).value.vaults
    ensures Deposits(e, r, Apply(w, e).value.vaults[r].depositor)
  {
    hide Withdrawal.Authenticate, Transfer;
  }

  /** A release makes no vault. */
  lemma MovedVaults(w: World, e: Event)
    requires Apply(w, e).Ok? && e.Invoke? && e.instruction.Release?
    ensures Apply(w, e).value.vaults.Keys == w.vaults.Keys
  {
    hide AuthorizeRelease, Consume, Transfer;
  }

  /** Only a deposit of its own pool makes a vault. */
  lemma NewVault(w: World, e: Event, r: Role)
    requires Apply(w, e).Ok? && r !in w.vaults && r in Apply(w, e).value.vaults
    ensures Deposits(e, r, Apply(w, e).value.vaults[r].depositor)
  {
    hide Withdrawal.Propose, Withdrawal.Execute, Withdrawal.Cancel, Withdrawal.Expire, Withdrawal.Approve,
      Withdrawal.Authenticate, Control.Propose, Control.Execute, Control.Cancel, Control.ReportCapacity, Transfer,
      DepositStep, ReleaseStep;
    if e.Invoke? && e.instruction.Deposit? {
      NewVaultDeposited(w, e, r);
    } else if e.Invoke? && e.instruction.Release? {
      MovedVaults(w, e);
    } else if e.Invoke? {
      match e.instruction case _ =>
    }
  }

  /** The recorded depositor of a vault is the one that signed its deposit, a committed event of the run. */
  lemma {:induction false} VaultDeposited(w: World, events: seq<Event>, j: nat, r: Role) returns (i: nat)
    requires Genesis(w) && j <= |events| && r in At(w, events, j).vaults
    ensures i < j && Committed(w, events, i)
    ensures Deposits(events[i], r, At(w, events, j).vaults[r].depositor)
    decreases j
  {
    hide Genesis, Apply;
    if j == 0 {
      GenesisFacts(w);
    } else {
      AtNext(w, events, j - 1);
      var last, e := At(w, events, j - 1), events[j - 1];
      if r in last.vaults {
        i := VaultDeposited(w, events, j - 1, r);
        if Committed(w, events, j - 1) {
          VaultFixed(last, e, r);
        }
      } else {
        i := j - 1;
        NewVault(last, e, r);
      }
    }
  }

  /* ---- Releases ---- */

  /**
   In every state of every run a release is never refused for lack of funds, for inconsistent accounting,
   by the final capacity gate, or because its approved recipient is no longer eligible.
   */
  lemma ReleaseRefusals(w: World, events: seq<Event>, now: time, authority: Signer, r: Role, amount: u64, epoch: u64,
          destination: Addr, approval: Option<u64>, recipientRecord: Option<Key>)
    requires Genesis(w)
    ensures var result := Step(Run(w, events), now,
        Instruction.Release(authority, r, amount, epoch, destination, approval, recipientRecord));
      result.Err? ==> result.error != InsufficientFunds && result.error != InvalidAccounting
                      && result.error != CapacityExceeded && result.error != KnownSelfPayment
  {
    hide Inv, ReleaseStep, Genesis;
    assert events[..|events|] == events;
    Reached(w, events, |events|);
    ReleaseRefused(Run(w, events), now, authority, r, amount, epoch, destination, approval, recipientRecord);
  }

  lemma ReleaseRefused(w: World, now: time, authority: Signer, r: Role, amount: u64, epoch: u64, destination: Addr,
          approval: Option<u64>, recipientRecord: Option<Key>)
    requires Inv(w)
    ensures var result := ReleaseStep(w, now, authority, r, amount, epoch, destination, approval, recipientRecord);
      result.Err? ==> result.error != InsufficientFunds && result.error != InvalidAccounting
                      && result.error != CapacityExceeded && result.error != KnownSelfPayment
  {
    hide Inv, AuthorizeRelease, Consume, Transfer, ReleaseStep;
    ReleaseErrors(w, now, authority, r, amount, epoch, destination, approval, recipientRecord);
    if r in w.vaults && VaultToken(r) in w.tokens && destination in w.tokens
       && (approval.Some? ==> approval.value in w.registry.approvals)
       && (recipientRecord.Some? ==> recipientRecord.value in w.registry.keys) && Tick(w, now).Ok? {
      TickKeeps(w, now);
      var ticked := Tick(w, now).value;
      AuthorizationRefused(ticked, now, authority, r, amount, epoch, destination, approval, recipientRecord);
      if AuthorizeRelease(ticked, now, authority, r, amount, epoch, destination, approval, recipientRecord).Ok? {
        AuthorizedRefused(ticked, now, authority, r, amount, epoch, destination, approval, recipientRecord);
      }
    }
  }

  /** Where the error of a refused release comes from. */
  lemma ReleaseErrors(w: World, now: time, authority: Signer, r: Role, amount: u64, epoch: u64, destination: Addr,
          approval: Option<u64>, recipientRecord: Option<Key>)
    ensures var result := ReleaseStep(w, now, authority, r, amount, epoch, destination, approval, recipientRecord);
      result.Err? && result.error != Constraint && result.error != ClockRollback ==>
        && r in w.vaults && VaultToken(r) in w.tokens && destination in w.tokens && Tick(w, now).Ok?
        && (approval.Some? ==> approval.value in w.registry.approvals)
        && (recipientRecord.Some? ==> recipientRecord.value in w.registry.keys)
        && var ticked := Tick(w, now).value;
        var authorized := AuthorizeRelease(ticked, now, authority, r, amount, epoch, destination, approval,
            recipientRecord);
        var consumed := Consume(w.terms.config, w.books, w.vaults[r], w.gov.report.capacity, now, amount);
        || (authorized.Err? && result.error == authorized.error)
        || (authorized.Ok? && consumed.Err? && result.error == consumed.error)
        || (authorized.Ok? && consumed.Ok? && Transfer(w.tokens, VaultToken(r), destination, amount).Err?)
  {
    hide AuthorizeRelease, Consume, Transfer;
  }

  /** Past its authorization a release can only be refused by the capacity kernel, for want of a rule or of quota. */
  lemma AuthorizedRefused(w: World, now: time, authority: Signer, r: Role, amount: u64, epoch: u64, destination: Addr,
          approval: Option<u64>, recipientRecord: Option<Key>)
    requires Inv(w) && r in w.vaults && destination in w.tokens && w.lastActionAt == now
    requires approval.Some? ==> approval.value in w.registry.approvals
    requires recipientRecord.Some? ==> recipientRecord.value in w.registry.keys
    requires AuthorizeRelease(w, now, authority, r, amount, epoch, destination, approval, recipientRecord).Ok?
    ensures var result := Consume(w.terms.config, w.books, w.vaults[r], w.gov.report.capacity, now, amount);
      if result.Ok? then Transfer(w.tokens, VaultToken(r), destination, amount).Ok?
      else result.error == InvalidAnnualRule || result.error == CapacityCorrectionPause
           || result.error == ReservedQuotaExceeded || result.error == Overflow
  {
    hide AuthorizeRelease, Consume, Transfer, TermsOk, LedgerInv, AuthorityInv;
    assert TermsOk(w.terms) && LedgerInv(w);
    CliffFits(w.terms);
    ReleaseAuthorized(w, now, authority, r, amount, epoch, destination, approval, recipientRecord);
    ConsumeRefused(w, now, r, amount);
    if Consume(w.terms.config, w.books, w.vaults[r], w.gov.report.capacity, now, amount).Ok? {
      ReleasePays(w, now, r, amount, destination);
    }
  }

  lemma ConsumeRefused(w: World, now: time, r: Role, amount: u64)
    requires TermsOk(w.terms) && LedgerInv(w) && r in w.vaults && w.terms.config.t0 <= now
    requires w.books.period <= PeriodAt(w.terms.config.t0, now).value
    ensures var result := Consume(w.terms.config, w.books, w.vaults[r], w.gov.report.capacity, now, amount);
      result.Err? ==> result.error == InvalidAnnualRule || result.error == CapacityCorrectionPause
                      || result.error == ReservedQuotaExceeded || result.error == Overflow
  {
    hide BooksInv, Consume, WindowLimits;
    assert VaultInv(w, Founder) && VaultInv(w, Treasury);
    BooksParts(w.terms.config, w.books);
    ConsumeExact(w.terms.config, w.books, w.vaults[r], w.gov.report.capacity, now, amount) by {
      if r.Founder? {} else {}
    }
  }

  /** A marked recipient is always still eligible when a release checks it again. */
  lemma AuthorizationRefused(w: World, now: time, authority: Signer, r: Role, amount: u64, epoch: u64,
          destination: Addr, approval: Option<u64>, recipientRecord: Option<Key>)
    requires Inv(w) && r in w.vaults && destination in w.tokens
    requires approval.Some? ==> approval.value in w.registry.approvals
    requires recipientRecord.Some? ==> recipientRecord.value in w.registry.keys
    ensures var result := AuthorizeRelease(w, now, authority, r, amount, epoch, destination, approval, recipientRecord);
      result.Err? ==> result.error != InsufficientFunds && result.error != InvalidAccounting
                      && result.error != CapacityExceeded && result.error != KnownSelfPayment
  {
    hide LedgerInv, Control.ControlInv, Withdrawal.EligibleRecipient;
    if recipientRecord.Some? && w.registry.keys[recipientRecord.value].recipient {
      MarkedStaysEligible(w.terms, w.registry, w.lastActionAt, recipientRecord.value);
    }
    hide Tombstones.RegistryInv;
    AuthorizationErrors(w, now, authority, r, amount, epoch, destination, approval, recipientRecord);
  }

  lemma AuthorizationErrors(w: World, now: time, authority: Signer, r: Role, amount: u64, epoch: u64, destination: Addr,
          approval: Option<u64>, recipientRecord: Option<Key>)
    requires r in w.vaults && destination in w.tokens
    requires approval.Some? ==> approval.value in w.registry.approvals
    requires recipientRecord.Some? ==> recipientRecord.value in w.registry.keys
    requires recipientRecord.Some? && w.registry.keys[recipientRecord.value].recipient ==>
      Withdrawal.EligibleRecipient(w.terms, recipientRecord.value, w.registry.keys[recipientRecord.value])
    ensures var result := AuthorizeRelease(w, now, authority, r, amount, epoch, destination, approval, recipientRecord);
      result.Err? ==> result.error != InsufficientFunds && result.error != InvalidAccounting
                      && result.error != CapacityExceeded && result.error != KnownSelfPayment
  {
    hide Withdrawal.EligibleRecipient;
  }

  lemma MarkedStaysEligible(t: Terms, reg: Registry, at: i64, k: Key)
    requires Tombstones.RegistryInv(t, reg, at) && k in reg.keys && reg.keys[k].recipient
    ensures Withdrawal.EligibleRecipient(t, k, reg.keys[k])
  {
    hide Tombstones.RegistryInv, Withdrawal.EligibleRecipient;
    RegistryProofs.RecipientsApproved(t, reg, at, k);
    var p :| p in reg.approvals && reg.approvals[p].recipientOwner == k;
    RegistryProofs.RecipientStaysEligible(t, reg, at, p);
  }
}
