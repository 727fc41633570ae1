/**
 Path independence for the launch vault itself: within one period and under one report, which batches of releases
 succeed, and what they leave, depends on the two pools' sums alone.
 */
module ReleaseOrder {
  import opened Basics
  import opened State
  import opened Capacity
  import opened Tokens
  import opened Launch
  import opened Invariant
  import opened Preservation
  import opened Safety
  import opened Projection
  import opened Ceilings
  import Tombstones
  import Control
  import I = Interleaving

  /** Event after event; the first refusal refuses the batch. */
  function Through(w: World, events: seq<Event>): Result<World>
    decreases |events|
  {
    if events == [] then Ok(w)
    else
      var w' :- Apply(w, events[0]);
      Through(w', events[1..])
  }

  /**
   A release of a positive amount in the given period, by the current key and epoch, to where it must go, under a
   fresh report.
   */
  predicate Proper(w: World, e: Event, period: u64) {
    && e.Invoke? && e.instruction.Release?
    && var i, c := e.instruction, w.terms.config;
    && i.amount > 0 && c.t0 < e.now && PeriodAt(c.t0, e.now) == Ok(period)
    && w.registry.Lane(i.role).state.pending == 0
    && w.registry.Lane(i.role).state.current == i.authority && w.registry.Lane(i.role).state.epoch == i.authorityEpoch
    && Suitable(w, e.now, i.role, i.destination, i.approval, i.recipientRecord)
    && CheckReport(c, w.gov, period, e.now).Pass?
  }

  /** Times that never fall, from a first one on. */
  predicate Ordered(at: time, events: seq<Event>)
    decreases |events|
  {
    events == [] || (events[0].Invoke? && at <= events[0].now && Ordered(events[0].now, events[1..]))
  }

  predicate Batch(w: World, events: seq<Event>, period: u64) {
    Ordered(w.lastActionAt, events) && forall e | e in events :: Proper(w, e, period)
  }

  function DrawOf(e: Event): I.Release
    requires e.Invoke? && e.instruction.Release?
  {
    I.Release(e.instruction.role, e.instruction.amount, e.now)
  }

  /** What a batch asks of the capacity kernel. */
  function Draws(events: seq<Event>): seq<I.Release>
    requires forall e | e in events :: e.Invoke? && e.instruction.Release?
  {
    if events == [] then [] else [DrawOf(events[0])] + Draws(events[1..])
  }

  function KernelOf(w: World): I.Kernel
    requires Founder in w.vaults && Treasury in w.vaults
  {
    I.Kernel(w.books, w.vaults[Founder], w.vaults[Treasury])
  }

  /** The registry after the treasury drew an amount in a period. */
  function Spent(reg: Registry, period: u64, amount: nat): Registry
    requires amount <= NeedLeft(reg, period)
  {
    if amount == 0 then reg
    else reg.(approvals := reg.approvals[period :=
      reg.approvals[period].(consumed := reg.approvals[period].consumed + amount)])
  }

  /* ---- One release ---- */

  /** A suitable release is within its ceiling when it is within the projection and, for the treasury, its approval. */
  lemma CeilingSplits(w: World, now: time, r: Role, amount: u64, destination: Addr, approval: Option<u64>,
          recipientRecord: Option<Key>)
    requires w.registry.Lane(r).state.pending == 0 && Suitable(w, now, r, destination, approval, recipientRecord)
    ensures amount <= Ceiling(w, now, r) <==>
      (amount <= Available(w, now).Get(r)
       && (r.Treasury? ==> amount <= NeedLeft(w.registry, PeriodOf(w, now))))
  {
    hide Available;
  }

  lemma ReleaseExact(w: World, e: Event, period: u64)
    requires Inv(w) && w.phase == Active && Proper(w, e, period) && w.lastActionAt <= e.now
    ensures e.instruction.role in w.vaults
    ensures var i := e.instruction;
      Apply(w, e).Ok? <==>
        (Consume(w.terms.config, w.books, w.vaults[i.role], w.gov.report.capacity, e.now, i.amount).Ok?
         && (i.role.Treasury? ==> i.amount <= NeedLeft(w.registry, period)))
  {
    hide Inv, Stands, Control.ReportOk, ReleaseStep, Consume, Fresh, CheckReport, Available, WindowLimits, Suitable,
      Ceiling, NeedLeft, LimitsAllow, PeriodOf;
    var i, now := e.instruction, e.now;
    InvStands(w, now);
    StandsReport(w, now);
    KernelExact(w, now, i.role, i.amount);
    AvailableExact(w, now, i.role, i.amount);
    ReportIsFresh(w, now);
    CeilingSplits(w, now, i.role, i.amount, i.destination, i.approval, i.recipientRecord);
    if Apply(w, e).Ok? {
      CeilingBounds(w, now, i.authority, i.role, i.amount, i.authorityEpoch, i.destination, i.approval,
          i.recipientRecord);
    }
    if i.amount <= Ceiling(w, now, i.role) {
      CeilingReached(w, now, i.authority, i.role, i.amount, i.destination, i.approval, i.recipientRecord);
    }
  }

  predicate SameApproval(a: Approval, a': Approval) { a' == a.(consumed := a'.consumed) }

  /** The fields that releases of one period leave alone, token accounts and their owners included. */
  predicate SameSetting(w: World, w': World) {
    && w'.terms == w.terms && w'.gov == w.gov && w'.phase == w.phase
    && w'.registry.founder == w.registry.founder && w'.registry.treasury == w.registry.treasury
    && w'.registry.keys == w.registry.keys
    && (forall a :: a in w.tokens ==> a in w'.tokens && w'.tokens[a].owner == w.tokens[a].owner)
    && (forall p :: p in w.registry.approvals ==>
          p in w'.registry.approvals && SameApproval(w.registry.approvals[p], w'.registry.approvals[p]))
  }

  predicate Vaults(w: World) { Founder in w.vaults && Treasury in w.vaults }

  predicate SpentBy(reg: Registry, reg': Registry, period: u64, amount: nat) {
    amount <= NeedLeft(reg, period) && reg' == Spent(reg, period, amount)
  }

  function TreasuryPart(e: Event): nat
    requires e.Invoke? && e.instruction.Release?
  {
    if e.instruction.role.Treasury? then e.instruction.amount else 0
  }

  /** How one release of a period leads from a world to the next. */
  predicate Follows(w: World, e: Event, period: u64, w': World) {
    && e.Invoke? && e.instruction.Release? && Vaults(w) && Vaults(w')
    && w'.lastActionAt == e.now && SameSetting(w, w')
    && I.Next(w.terms.config, w.gov.report.capacity, KernelOf(w), DrawOf(e)) == Ok(KernelOf(w'))
    && SpentBy(w.registry, w'.registry, period, TreasuryPart(e))
  }

  lemma ReleaseSpends(w: World, e: Event, period: u64)
    requires TermsOk(w.terms) && Proper(w, e, period) && Apply(w, e).Ok?
    ensures var reg' := Apply(w, e).value.registry;
      if e.instruction.role.Founder? then reg' == w.registry
      else e.instruction.amount <= NeedLeft(w.registry, period)
           && reg' == Spent(w.registry, period, e.instruction.amount)
  {
    var i, now := e.instruction, e.now;
    hide TermsOk, Consume, AuthorizeRelease, Transfer, CheckReport, Suitable;
    ReleaseAuthorized(Tick(w, now).value, now, i.authority, i.role, i.amount, i.authorityEpoch, i.destination,
        i.approval, i.recipientRecord);
  }

  lemma ConsumeKeepsRole(c: Config, b: Books, v: Vault, reportCapacity: u64, now: time, amount: u64)
    requires Consume(c, b, v, reportCapacity, now, amount).Ok?
    ensures Consume(c, b, v, reportCapacity, now, amount).value.1.role == v.role
  {
    hide WindowLimits;
  }

  lemma KernelHolds(w: World)
    requires Inv(w) && w.phase == Active
    ensures Vaults(w) && w.vaults[Founder].role == Founder && w.vaults[Treasury].role == Treasury
    ensures I.KernelInv(w.terms.config, KernelOf(w)) && ConfigOk(w.terms.config)
  {
    hide AuthorityInv, SpendingInv, CustodyInv, BooksInv, VaultAgrees, Supply;
    assert VaultInv(w, Founder) && VaultInv(w, Treasury);
  }

  lemma ReleaseDraws(w: World, e: Event)
    requires Apply(w, e).Ok? && e.Invoke? && e.instruction.Release?
    requires Vaults(w) && w.vaults[Founder].role == Founder && w.vaults[Treasury].role == Treasury
    ensures var w' := Apply(w, e).value;
      Vaults(w') && I.Next(w.terms.config, w.gov.report.capacity, KernelOf(w), DrawOf(e)) == Ok(KernelOf(w'))
  {
    hide Consume, Apply;
    ReleaseMoves(w, e);
    var i := e.instruction;
    ConsumeKeepsRole(w.terms.config, w.books, w.vaults[i.role], w.gov.report.capacity, e.now, i.amount);
    if i.role.Founder? {} else {}
  }

  lemma SpentSetting(w: World, period: u64, w': World)
    requires w' == w.(lastActionAt := w'.lastActionAt, registry := w'.registry, books := w'.books, vaults := w'.vaults,
                      tokens := w'.tokens)
    requires forall a :: a in w.tokens ==> a in w'.tokens && w'.tokens[a].owner == w.tokens[a].owner
    requires exists amount: nat :: SpentBy(w.registry, w'.registry, period, amount)
    ensures SameSetting(w, w')
  {
  }

  lemma ReleaseFollows(w: World, e: Event, period: u64)
    requires Inv(w) && w.phase == Active && Proper(w, e, period) && Apply(w, e).Ok?
    requires 0 <= NeedLeft(w.registry, period)
    ensures Follows(w, e, period, Apply(w, e).value)
  {
    hide Inv, Consume, Apply, Proper, TermsOk, LedgerInv, SameSetting, Spent, NeedLeft, I.Next;
    ActiveParts(w);
    KernelHolds(w);
    assert e.Invoke? && e.instruction.Release? by { IsRelease(w, e, period); }
    ReleaseMoves(w, e);
    ReleaseDraws(w, e);
    ReleaseSpends(w, e, period);
    SpentNothing(w.registry, period);
    var w' := Apply(w, e).value;
    assert SpentBy(w.registry, w'.registry, period, TreasuryPart(e));
    SpentSetting(w, period, w');
  }

  lemma IsRelease(w: World, e: Event, period: u64)
    requires Proper(w, e, period)
    ensures e.Invoke? && e.instruction.Release?
  {
  }

  lemma SpentNothing(reg: Registry, period: u64)
    requires 0 <= NeedLeft(reg, period)
    ensures SpentBy(reg, reg, period, 0)
  {
  }

  /** What a committed release writes. */
  lemma ReleaseMoves(w: World, e: Event)
    requires Apply(w, e).Ok? && e.Invoke? && e.instruction.Release?
    ensures var w', i := Apply(w, e).value, e.instruction;
      && i.role in w.vaults
      && Consume(w.terms.config, w.books, w.vaults[i.role], w.gov.report.capacity, e.now, i.amount).Ok?
      && var (b, v) := Consume(w.terms.config, w.books, w.vaults[i.role], w.gov.report.capacity, e.now, i.amount).value;
      && w' == w.(lastActionAt := e.now, registry := w'.registry, books := b, vaults := w.vaults[i.role := v],
                  tokens := w'.tokens)
      && (forall a :: a in w.tokens ==> a in w'.tokens && w'.tokens[a].owner == w.tokens[a].owner)
  {
    hide Consume, AuthorizeRelease;
  }

  /* ---- Batches ---- */

  /** A release of the batch stays proper after another one. */
  lemma StaysProper(w: World, w': World, e: Event, period: u64)
    requires SameSetting(w, w') && Proper(w, e, period)
    ensures Proper(w', e, period)
  {
  }

  lemma BatchRest(w: World, w': World, events: seq<Event>, period: u64)
    requires events != [] && Batch(w, events, period) && SameSetting(w, w') && w'.lastActionAt == events[0].now
    ensures Batch(w', events[1..], period)
  {
    hide SameSetting, Proper;
    forall e | e in events[1..] ensures Proper(w', e, period) {
      StaysProper(w, w', e, period);
    }
  }

  lemma ProperDraws(w: World, events: seq<Event>, period: u64)
    requires Batch(w, events, period)
    ensures forall e | e in events :: e.Invoke? && e.instruction.Release?
    ensures |Draws(events)| == |events| && I.InPeriod(w.terms.config, Draws(events), period)
  {
    hide Suitable, CheckReport;
    DrawsOf(w.terms.config, events, period);
  }

  lemma {:induction false} DrawsOf(c: Config, events: seq<Event>, period: u64)
    requires forall e | e in events :: e.Invoke? && e.instruction.Release?
    requires forall e | e in events :: PeriodAt(c.t0, e.now) == Ok(period) && e.instruction.amount > 0
    ensures |Draws(events)| == |events| && I.InPeriod(c, Draws(events), period)
  {
    hide PeriodAt;
    if events != [] {
      DrawsOf(c, events[1..], period);
    }
  }

  /** What a batch does: the kernel's run of its draws, and the treasury's sum spent. */
  predicate Leaves(w: World, w': World, k: I.Kernel, period: u64, treasury: nat) {
    && Vaults(w') && KernelOf(w') == k && SpentBy(w.registry, w'.registry, period, treasury)
    && w'.terms == w.terms && w'.gov == w.gov && w'.phase == w.phase
  }

  predicate Succeeds(w: World, events: seq<Event>, period: u64)
    requires forall e | e in events :: e.Invoke? && e.instruction.Release?
  {
    && Vaults(w)
    && I.Run(w.terms.config, w.gov.report.capacity, KernelOf(w), Draws(events)).Ok?
    && I.Total(Draws(events), Treasury) <= NeedLeft(w.registry, period)
  }

  lemma FirstRelease(w: World, e: Event, period: u64)
    requires Inv(w) && w.phase == Active && Proper(w, e, period) && w.lastActionAt <= e.now
    ensures 0 <= NeedLeft(w.registry, period) && Vaults(w) && e.Invoke? && e.instruction.Release?
    ensures Apply(w, e).Ok? <==>
      (I.Next(w.terms.config, w.gov.report.capacity, KernelOf(w), DrawOf(e)).Ok?
       && TreasuryPart(e) <= NeedLeft(w.registry, period))
    ensures Apply(w, e).Ok? ==> Follows(w, e, period, Apply(w, e).value) && Inv(Apply(w, e).value)
  {
    hide Inv, Apply, Follows, I.Next;
    NeedRemains(w, period);
    IsRelease(w, e, period);
    ReleaseExact(w, e, period);
    KernelHolds(w);
    NextIsConsume(w, e);
    if Apply(w, e).Ok? {
      ReleaseFollows(w, e, period);
      ApplyKeeps(w, e);
    }
    hide Proper, NeedLeft;
  }

  lemma NextIsConsume(w: World, e: Event)
    requires e.Invoke? && e.instruction.Release? && Vaults(w) && e.instruction.role in w.vaults
    ensures var i, c := e.instruction, w.terms.config;
      I.Next(c, w.gov.report.capacity, KernelOf(w), DrawOf(e)).Ok?
      <==> Consume(c, w.books, w.vaults[i.role], w.gov.report.capacity, e.now, i.amount).Ok?
  {
    hide Consume;
    if e.instruction.role.Founder? {} else {}
  }

  lemma ApprovalsAreOk(t: Terms, reg: Registry, at: i64, p: u64)
    requires Tombstones.RegistryInv(t, reg, at) && p in reg.approvals
    ensures Tombstones.ApprovalOk(t, reg.keys, reg.approvals[p], p, at)
  {
    hide Tombstones.LaneInv, Tombstones.ApprovalOk;
  }

  lemma NeedRemains(w: World, period: u64)
    requires Inv(w)
    ensures 0 <= NeedLeft(w.registry, period)
  {
    hide LedgerInv, TermsOk, Control.ControlInv, Tombstones.RegistryInv;
    if period in w.registry.approvals {
      assert Tombstones.ApprovalOk(w.terms, w.registry.keys, w.registry.approvals[period], period, w.lastActionAt) by {
        hide Tombstones.LaneInv, Tombstones.ApprovalOk;
        assert Tombstones.RegistryInv(w.terms, w.registry, w.lastActionAt);
        ApprovalsAreOk(w.terms, w.registry, w.lastActionAt, period);
      }
    }
  }

  lemma DrawsSplit(c: Config, reportCapacity: u64, k: I.Kernel, events: seq<Event>)
    requires events != [] && forall e | e in events :: e.Invoke? && e.instruction.Release?
    ensures var first := I.Next(c, reportCapacity, k, DrawOf(events[0]));
      I.Run(c, reportCapacity, k, Draws(events))
      == if first.Err? then Err(first.error) else I.Run(c, reportCapacity, first.value, Draws(events[1..]))
    ensures I.Total(Draws(events), Treasury) == TreasuryPart(events[0]) + I.Total(Draws(events[1..]), Treasury)
  {
    assert Draws(events)[1..] == Draws(events[1..]);
    hide I.Next;
  }

  /** After the first release, the rest of a batch decides. */
  lemma FollowsThrough(w: World, events: seq<Event>, period: u64, w': World)
    requires events != [] && forall e | e in events :: e.Invoke? && e.instruction.Release?
    requires Follows(w, events[0], period, w')
    ensures w'.terms == w.terms && w'.phase == w.phase
    ensures Succeeds(w', events[1..], period) <==> Succeeds(w, events, period)
    ensures forall after: World ::
      Succeeds(w', events[1..], period) &&
      Leaves(w', after, I.Run(w.terms.config, w.gov.report.capacity, KernelOf(w'), Draws(events[1..])).value, period,
             I.Total(Draws(events[1..]), Treasury)) ==>
      Leaves(w, after, I.Run(w.terms.config, w.gov.report.capacity, KernelOf(w), Draws(events)).value, period,
             I.Total(Draws(events), Treasury))
  {
    hide I.Next, I.Run, I.Total, Draws;
    DrawsSplit(w.terms.config, w.gov.report.capacity, KernelOf(w), events);
    SpentTwice(w.registry, period, TreasuryPart(events[0]), I.Total(Draws(events[1..]), Treasury));
    hide NeedLeft, Spent;
  }

  /** A batch succeeds exactly when the kernel takes its draws and the treasury's sum is within its approval. */
  lemma {:induction false} ThroughIsRun(w: World, events: seq<Event>, period: u64)
    requires Inv(w) && w.phase == Active && Batch(w, events, period)
    ensures forall e | e in events :: e.Invoke? && e.instruction.Release?
    ensures Vaults(w)
    ensures Through(w, events).Ok? <==> Succeeds(w, events, period)
    ensures Through(w, events).Ok? ==>
      Leaves(w, Through(w, events).value,
             I.Run(w.terms.config, w.gov.report.capacity, KernelOf(w), Draws(events)).value, period,
             I.Total(Draws(events), Treasury))
    decreases |events|
  {
    ProperDraws(w, events, period);
    hide Inv, Apply, Proper, SameSetting, I.Next, NeedLeft, Spent, Draws, I.Total;
    KernelHolds(w);
    if events == [] {
      NothingThrough(w, period);
    } else {
      var e, rest := events[0], events[1..];
      FirstRelease(w, e, period);
      DrawsSplit(w.terms.config, w.gov.report.capacity, KernelOf(w), events);
      if Apply(w, e).Ok? {
        var w' := Apply(w, e).value;
        FollowsThrough(w, events, period, w');
        BatchRest(w, w', events, period);
        ThroughIsRun(w', rest, period);
      }
    }
  }

  lemma NothingThrough(w: World, period: u64)
    requires Inv(w) && w.phase == Active
    ensures Vaults(w) && Succeeds(w, [], period)
    ensures Leaves(w, w, I.Run(w.terms.config, w.gov.report.capacity, KernelOf(w), Draws([])).value, period,
        I.Total(Draws([]), Treasury))
  {
    hide Inv;
    KernelHolds(w);
    NeedRemains(w, period);
    SpentNothing(w.registry, period);
  }

  lemma SpentTwice(reg: Registry, period: u64, first: nat, more: nat)
    requires first <= NeedLeft(reg, period)
    ensures NeedLeft(Spent(reg, period, first), period) == NeedLeft(reg, period) - first
    ensures first + more <= NeedLeft(reg, period) ==>
      Spent(Spent(reg, period, first), period, more) == Spent(reg, period, first + more)
  {
  }

  /* ---- Main results ---- */

  /** A batch that succeeds leaves the world that the run of its events leaves. */
  lemma {:induction false} ThroughRuns(w: World, before: seq<Event>, events: seq<Event>)
    requires Through(Run(w, before), events).Ok?
    ensures Run(w, before + events) == Through(Run(w, before), events).value
    decreases |events|
  {
    hide Apply;
    if events == [] {
      assert before + events == before;
    } else {
      assert (before + [events[0]])[..|before|] == before;
      ThroughRuns(w, before + [events[0]], events[1..]);
      assert before + [events[0]] + events[1..] == before + events;
    }
  }

  /** An active state of a run, a batch of releases of one period, and the limits at its first time. */
  predicate Offered(w: World, events: seq<Event>, period: u64, now: time, l: Limits) {
    && w.phase == Active && Batch(w, events, period)
    && PeriodAt(w.terms.config.t0, now) == Ok(period) && w.lastActionAt <= now
    && WindowLimits(w.terms.config, w.books, w.gov.report.capacity, now) == Ok(l) && !l.correctionPause
  }

  /** What every batch of the same two sums leaves: neither order nor split shows. */
  predicate SameOutcome(w: World, w': World) {
    && w'.terms == w.terms && w'.gov == w.gov && w'.phase == w.phase
    && w'.books == w.books && w'.vaults == w.vaults && w'.registry == w.registry
  }

  lemma OfferedDraws(w: World, events: seq<Event>, period: u64, now: time, l: Limits)
    requires Inv(w) && Offered(w, events, period, now, l)
    ensures forall e | e in events :: e.Invoke? && e.instruction.Release?
    ensures Vaults(w) && ConfigOk(w.terms.config) && I.KernelInv(w.terms.config, KernelOf(w))
    ensures I.InPeriod(w.terms.config, Draws(events), period) && w.books.period <= period
  {
    hide Inv, Batch, WindowLimits;
    ProperDraws(w, events, period);
    KernelHolds(w);
    PeriodReached(w, period, now);
  }

  lemma PeriodReached(w: World, period: u64, now: time)
    requires Inv(w) && w.phase == Active && w.lastActionAt <= now
    requires PeriodAt(w.terms.config.t0, now) == Ok(period)
    ensures w.books.period <= period
  {
    hide Inv, Stands;
    InvStands(w, now);
    KernelExact(w, now, Founder, 0);
  }

  /**
   In every active state of every run, whatever its order and split, a batch of releases of one period under one
   report succeeds exactly when each pool's sum fits that pool's own quota and the treasury's its approval.
   */
  lemma BatchExact(w: World, before: seq<Event>, events: seq<Event>, period: u64, now: time, l: Limits)
    requires Genesis(w) && Offered(Run(w, before), events, period, now, l)
    ensures forall e | e in events :: e.Invoke? && e.instruction.Release?
    ensures Through(Run(w, before), events).Ok? <==>
      (I.Fits(l, Draws(events))
       && I.Total(Draws(events), Treasury) <= NeedLeft(Run(w, before).registry, period))
  {
    hide Inv, Genesis, Batch, I.Run, I.Fits, I.Total, NeedLeft, I.InPeriod, Leaves;
    assert before[..|before|] == before;
    Reached(w, before, |before|);
    var w' := Run(w, before);
    OfferedDraws(w', events, period, now, l);
    ThroughIsRun(w', events, period);
    I.RunExact(w'.terms.config, w'.gov.report.capacity, KernelOf(w'), Draws(events), period, now, l);
  }

  lemma SameKernelSameVaults(w: World, w': World)
    requires Vaults(w) && Vaults(w') && KernelOf(w) == KernelOf(w')
    ensures w.vaults == w'.vaults && w.books == w'.books
  {
    forall r: Role ensures r in w.vaults && r in w'.vaults && w.vaults[r] == w'.vaults[r] {
      if r.Founder? {} else {}
    }
  }

  lemma LeavesSame(w: World, one: World, other: World, k: I.Kernel, period: u64, treasury: nat)
    requires Leaves(w, one, k, period, treasury) && Leaves(w, other, k, period, treasury)
    ensures SameOutcome(one, other)
  {
    SameKernelSameVaults(one, other);
  }

  /** Two batches of the same sums succeed or fail alike, and leave the same books, vaults and approvals. */
  lemma OrderNeverMatters(w: World, before: seq<Event>, one: seq<Event>, other: seq<Event>, period: u64, now: time,
          l: Limits)
    requires Genesis(w)
    requires Offered(Run(w, before), one, period, now, l) && Offered(Run(w, before), other, period, now, l)
    requires forall e | e in one + other :: e.Invoke? && e.instruction.Release?
    requires I.Total(Draws(one), Founder) == I.Total(Draws(other), Founder)
    requires I.Total(Draws(one), Treasury) == I.Total(Draws(other), Treasury)
    ensures Through(Run(w, before), one).Ok? <==> Through(Run(w, before), other).Ok?
    ensures Through(Run(w, before), one).Ok? ==>
      SameOutcome(Through(Run(w, before), one).value, Through(Run(w, before), other).value)
  {
    hide Inv, Genesis, Run;
    assert before[..|before|] == before;
    Reached(w, before, |before|);
    SameTotals(Run(w, before), one, other, period, now, l);
  }

  lemma SameTotals(w: World, one: seq<Event>, other: seq<Event>, period: u64, now: time, l: Limits)
    requires Inv(w) && Offered(w, one, period, now, l) && Offered(w, other, period, now, l)
    requires forall e | e in one + other :: e.Invoke? && e.instruction.Release?
    requires I.Total(Draws(one), Founder) == I.Total(Draws(other), Founder)
    requires I.Total(Draws(one), Treasury) == I.Total(Draws(other), Treasury)
    ensures Through(w, one).Ok? <==> Through(w, other).Ok?
    ensures Through(w, one).Ok? ==> SameOutcome(Through(w, one).value, Through(w, other).value)
  {
    hide Inv, Batch, I.Run, I.Total, NeedLeft, Spent, I.InPeriod, I.KernelInv, ConfigOk, Leaves, SameOutcome, Through,
      Draws, WindowLimits;
    OfferedDraws(w, one, period, now, l);
    OfferedDraws(w, other, period, now, l);
    I.PathIndependence(w.terms.config, w.gov.report.capacity, KernelOf(w), Draws(one), Draws(other), period, now);
    ThroughIsRun(w, one, period);
    ThroughIsRun(w, other, period);
    if Through(w, one).Ok? {
      LeavesSame(w, Through(w, one).value, Through(w, other).value,
          I.Run(w.terms.config, w.gov.report.capacity, KernelOf(w), Draws(one)).value, period,
          I.Total(Draws(one), Treasury));
    }
  }

  /** The releases of one pool, in order. */
  function Only(events: seq<Event>, r: Role): seq<Event>
    requires forall e | e in events :: e.Invoke? && e.instruction.Release?
  {
    if events == [] then []
    else if events[0].instruction.role == r then [events[0]] + Only(events[1..], r)
    else Only(events[1..], r)
  }

  lemma OrderedEarlier(at: time, later: time, events: seq<Event>)
    requires Ordered(later, events) && at <= later
    ensures Ordered(at, events)
  {
  }

  lemma {:induction false} OnlyOrdered(at: time, events: seq<Event>, r: Role)
    requires Ordered(at, events) && forall e | e in events :: e.Invoke? && e.instruction.Release?
    ensures Ordered(at, Only(events, r))
    ensures forall e | e in Only(events, r) :: e in events
    ensures Draws(Only(events, r)) == I.Only(Draws(events), r)
    decreases |events|
  {
    if events != [] {
      OnlyOrdered(events[0].now, events[1..], r);
      OrderedEarlier(at, events[0].now, Only(events[1..], r));
      assert Draws(events)[1..] == Draws(events[1..]);
      assert events[0].instruction.role == r ==> Only(events, r)[1..] == Only(events[1..], r);
    }
  }

  lemma OnlyOffered(w: World, events: seq<Event>, period: u64, now: time, l: Limits, r: Role)
    requires Offered(w, events, period, now, l) && forall e | e in events :: e.Invoke? && e.instruction.Release?
    ensures Offered(w, Only(events, r), period, now, l)
    ensures Draws(Only(events, r)) == I.Only(Draws(events), r)
  {
    hide Proper, WindowLimits, Ordered;
    OnlyOrdered(w.lastActionAt, events, r);
  }

  /** Neither pool can starve the other: a batch succeeds exactly when each pool's releases do without the other's. */
  lemma NoPoolStarves(w: World, before: seq<Event>, events: seq<Event>, period: u64, now: time, l: Limits)
    requires Genesis(w) && Offered(Run(w, before), events, period, now, l)
    requires forall e | e in events :: e.Invoke? && e.instruction.Release?
    ensures Through(Run(w, before), events).Ok? <==>
      (Through(Run(w, before), Only(events, Founder)).Ok? && Through(Run(w, before), Only(events, Treasury)).Ok?)
  {
    var w' := Run(w, before);
    OnlyOffered(w', events, period, now, l, Founder);
    OnlyOffered(w', events, period, now, l, Treasury);
    hide Inv, Genesis, Offered, Through, Run;
    BatchExact(w, before, events, period, now, l);
    BatchExact(w, before, Only(events, Founder), period, now, l);
    BatchExact(w, before, Only(events, Treasury), period, now, l);
    I.OnlyTotals(Draws(events), Founder);
    I.OnlyTotals(Draws(events), Treasury);
  }
}
