/** What holds of every run of the launch vault from its admission, as far as authority is concerned. */
module Authority {
  import opened Basics
  import opened State
  import opened Tokens
  import opened Launch
  import opened Invariant
  import opened Preservation
  import opened Safety
  import Withdrawal
  import Tombstones
  import RegistryProofs
  import Control
  import Capacity

  /* ---- The keys a role ever had ---- */

  /** Every key that was ever current for a role, oldest first. */
  ghost function KeysOf(w: World, r: Role): seq<Key> {
    if Tombstones.Dense(w.registry.Lane(r).proposals, w.registry.Lane(r).state.sequence)
    then Tombstones.LaneFold(w.terms.Owner(r), w.registry.Lane(r)).history
    else []
  }

  predicate MovesLanes(e: Event) {
    e.Invoke? && (e.instruction.ProposeWithdrawal? || e.instruction.ExecuteWithdrawal?
                  || e.instruction.CancelWithdrawal? || e.instruction.ExpireWithdrawal?)
  }

  lemma ApproveKeepsLanes(t: Terms, reg: Registry, author: Key, period: u64, need: u64, epoch: u64, recipient: Addr,
          owner: Key, now: time)
    requires owner in reg.keys && Withdrawal.Approve(t, reg, author, period, need, epoch, recipient, owner, now).Ok?
    ensures var reg' := Withdrawal.Approve(t, reg, author, period, need, epoch, recipient, owner, now).value;
      reg'.founder == reg.founder && reg'.treasury == reg.treasury
  {
  }

  lemma LanesUntouched(w: World, e: Event, r: Role)
    requires Apply(w, e).Ok? && !MovesLanes(e)
    ensures Apply(w, e).value.registry.Lane(r) == w.registry.Lane(r)
  {
    hide Transfer, Capacity.Consume, Control.Propose, Control.Execute, Control.Cancel, Control.ReportCapacity,
      Withdrawal.Authenticate, Withdrawal.Approve, CheckReport, CheckFounder;
    if e.Invoke? {
      match e.instruction
      case ApproveTreasury(author, period, need, epoch, recipient) =>
        ApproveKeepsLanes(w.terms, w.registry, author, period, need, epoch, recipient, w.tokens[recipient].owner,
            e.now);
      case _ =>
    }
  }

  lemma EndedKeys(t: Terms, reg: Registry, ended: Role, status: Status, at: i64, now: time, r: Role)
    requires Tombstones.RegistryInv(t, reg, at) && at <= now && RegistryProofs.MayEnd(reg, ended, status, now)
    ensures var reg' := RegistryProofs.EndedRegistry(reg, ended, status, now);
      && Tombstones.Dense(reg.Lane(r).proposals, reg.Lane(r).state.sequence)
      && Tombstones.Dense(reg'.Lane(r).proposals, reg'.Lane(r).state.sequence)
      && Tombstones.LaneFold(t.Owner(r), reg.Lane(r)).history <= Tombstones.LaneFold(t.Owner(r), reg'.Lane(r)).history
  {
    assert Tombstones.LaneInv(t, reg, ended, at) && Tombstones.LaneInv(t, reg, r, at);
    RegistryProofs.EndLane(t, reg, ended, status, at, now);
    RegistryProofs.EndChanges(reg, ended, status, now);
    hide RegistryProofs.EndedRegistry, RegistryProofs.MayEnd, Tombstones.Accepted, Tombstones.IndexOk;
    assert r == ended || r == ended.Other();
  }

  lemma ProposedKeys(t: Terms, reg: Registry, i: Withdrawal.Intent, at: i64, now: time, r: Role)
    requires Tombstones.RegistryInv(t, reg, at) && at <= now && i.successor in reg.keys
    requires Withdrawal.Propose(t, reg, i, now).Ok?
    ensures var reg' := Withdrawal.Propose(t, reg, i, now).value;
      && Tombstones.Dense(reg.Lane(r).proposals, reg.Lane(r).state.sequence)
      && Tombstones.Dense(reg'.Lane(r).proposals, reg'.Lane(r).state.sequence)
      && Tombstones.LaneFold(t.Owner(r), reg.Lane(r)).history == Tombstones.LaneFold(t.Owner(r), reg'.Lane(r)).history
  {
    hide Withdrawal.EligibleSuccessor, Tombstones.Accepted, Tombstones.IndexOk, Tombstones.Replay,
      Tombstones.ApprovalsInv, Tombstones.LaneClear, Tombstones.LaneUnpaused;
    RegistryProofs.ProposeChanges(t, reg, i, now);
    var changed := RoleOf(i.role).value;
    assert Tombstones.LaneInv(t, reg, changed, at) && Tombstones.LaneInv(t, reg, r, at);
    RegistryProofs.SuccessorUnapproved(t, reg, at, i.successor, now);
    RegistryProofs.ProposeLane(t, reg, i, at, now, changed);
    hide Withdrawal.Propose;
    assert r == changed || r == changed.Other();
  }

  /** No event takes a key out of a role's history or reorders it. */
  lemma KeysGrow(w: World, e: Event, r: Role)
    requires Inv(w) && Apply(w, e).Ok?
    ensures KeysOf(w, r) <= KeysOf(Apply(w, e).value, r)
  {
    hide Inv, Tombstones.Dense, Tombstones.RegistryInv, Tombstones.LaneInv, RegistryProofs.EndedRegistry,
      RegistryProofs.MayEnd, Withdrawal.Propose, Withdrawal.Execute, Withdrawal.Cancel, Withdrawal.Expire, Step;
    TermsFixed(w, e);
    if MovesLanes(e) {
      MovedKeysGrow(w, e, r);
    } else {
      LanesUntouched(w, e, r);
    }
  }

  ghost predicate RegistryGrows(t: Terms, reg: Registry, reg': Registry, r: Role) {
    && Tombstones.Dense(reg.Lane(r).proposals, reg.Lane(r).state.sequence)
    && Tombstones.Dense(reg'.Lane(r).proposals, reg'.Lane(r).state.sequence)
    && Tombstones.LaneFold(t.Owner(r), reg.Lane(r)).history <= Tombstones.LaneFold(t.Owner(r), reg'.Lane(r)).history
  }

  lemma RegistryGrowsKeys(w: World, w': World, r: Role)
    requires RegistryGrows(w.terms, w.registry, w'.registry, r) && w'.terms == w.terms
    ensures KeysOf(w, r) <= KeysOf(w', r)
  {
    hide Tombstones.Dense;
  }

  lemma ProposeGrows(w: World, now: time, i: Withdrawal.Intent, r: Role)
    requires Inv(w) && Step(w, now, ProposeWithdrawal(i)).Ok?
    ensures RegistryGrows(w.terms, w.registry, Step(w, now, ProposeWithdrawal(i)).value.registry, r)
  {
    hide LedgerInv, TermsOk, Control.ControlInv, Tombstones.RegistryInv, Tombstones.Dense, Withdrawal.Propose;
    ProposedKeys(w.terms, w.registry, i, w.lastActionAt, now, r);
  }

  lemma ExecuteGrows(w: World, now: time, role: Role, nonce: u64, r: Role)
    requires Inv(w) && Step(w, now, ExecuteWithdrawal(role, nonce)).Ok?
    ensures RegistryGrows(w.terms, w.registry, Step(w, now, ExecuteWithdrawal(role, nonce)).value.registry, r)
  {
    hide LedgerInv, TermsOk, Control.ControlInv, Tombstones.RegistryInv, Tombstones.LaneInv, Tombstones.Dense,
      RegistryProofs.EndedRegistry, RegistryProofs.MayEnd, Withdrawal.Execute;
    RoleLane(w, role);
    RegistryProofs.ExecuteIsEnded(w.terms, w.registry, role, nonce, w.lastActionAt, now);
    EndedKeys(w.terms, w.registry, role, Executed, w.lastActionAt, now, r);
  }

  lemma CancelGrows(w: World, now: time, a: Signer, b: Signer, role: Role, nonce: u64, r: Role)
    requires Inv(w) && Step(w, now, CancelWithdrawal(a, b, role, nonce)).Ok?
    ensures RegistryGrows(w.terms, w.registry, Step(w, now, CancelWithdrawal(a, b, role, nonce)).value.registry, r)
  {
    hide LedgerInv, TermsOk, Control.ControlInv, Tombstones.RegistryInv, Tombstones.LaneInv, Tombstones.Dense,
      RegistryProofs.EndedRegistry, RegistryProofs.MayEnd, Withdrawal.Cancel;
    RoleLane(w, role);
    RegistryProofs.CancelIsEnded(w.terms, w.registry, role, nonce, a, b, w.lastActionAt, now);
    EndedKeys(w.terms, w.registry, role, Retracted, w.lastActionAt, now, r);
  }

  lemma ExpireGrows(w: World, now: time, role: Role, nonce: u64, r: Role)
    requires Inv(w) && Step(w, now, ExpireWithdrawal(role, nonce)).Ok?
    ensures RegistryGrows(w.terms, w.registry, Step(w, now, ExpireWithdrawal(role, nonce)).value.registry, r)
  {
    hide LedgerInv, TermsOk, Control.ControlInv, Tombstones.RegistryInv, Tombstones.LaneInv, Tombstones.Dense,
      RegistryProofs.EndedRegistry, RegistryProofs.MayEnd, Withdrawal.Expire;
    RoleLane(w, role);
    RegistryProofs.ExpireIsEnded(w.terms, w.registry, role, nonce, w.lastActionAt, now);
    EndedKeys(w.terms, w.registry, role, Expired, w.lastActionAt, now, r);
  }

  lemma RoleLane(w: World, r: Role)
    requires Inv(w)
    ensures Tombstones.RegistryInv(w.terms, w.registry, w.lastActionAt)
    ensures Tombstones.LaneInv(w.terms, w.registry, r, w.lastActionAt)
  {
    hide LedgerInv, TermsOk, Control.ControlInv, Tombstones.LaneInv, Tombstones.ApprovalsInv;
    if r.Founder? {} else {}
  }

  lemma MovedKeysGrow(w: World, e: Event, r: Role)
    requires Inv(w) && Apply(w, e).Ok? && MovesLanes(e)
    ensures KeysOf(w, r) <= KeysOf(Apply(w, e).value, r)
  {
    hide LedgerInv, TermsOk, Control.ControlInv, KeysOf, RegistryGrows, Tombstones.RegistryInv, Step;
    TermsFixed(w, e);
    assert RegistryGrows(w.terms, w.registry, Apply(w, e).value.registry, r) by {
      match e.instruction {
        case ProposeWithdrawal(i) => ProposeGrows(w, e.now, i, r);
        case ExecuteWithdrawal(role, nonce) => ExecuteGrows(w, e.now, role, nonce, r);
        case CancelWithdrawal(a, b, role, nonce) => CancelGrows(w, e.now, a, b, role, nonce, r);
        case ExpireWithdrawal(role, nonce) => ExpireGrows(w, e.now, role, nonce, r);
        case _ =>
      }
    }
    RegistryGrowsKeys(w, Apply(w, e).value, r);
  }

  lemma {:induction false} KeysGrowOverRun(w: World, events: seq<Event>, i: nat, j: nat, r: Role)
    requires Genesis(w) && i <= j <= |events|
    ensures KeysOf(At(w, events, i), r) <= KeysOf(At(w, events, j), r)
    decreases j
  {
    hide Inv, Genesis, Apply, KeysOf;
    if i < j {
      KeysGrowOverRun(w, events, i, j - 1, r);
      AtNext(w, events, j - 1);
      Reached(w, events, j - 1);
      if Committed(w, events, j - 1) {
        KeysGrow(At(w, events, j - 1), events[j - 1], r);
      }
    }
  }

  /** In every state of every run, a role's current key is the newest of its keys, all of them different. */
  lemma KeysDistinct(w: World, events: seq<Event>, i: nat, r: Role)
    requires Genesis(w) && i <= |events|
    ensures var keys := KeysOf(At(w, events, i), r);
      && keys != [] && Tombstones.Distinct(keys) && keys[0] == w.terms.Owner(r)
      && At(w, events, i).registry.Lane(r).state.current == keys[|keys| - 1]
      && At(w, events, i).registry.Lane(r).state.epoch == |keys| - 1
  {
    hide Inv, Genesis, KeysOf;
    Reached(w, events, i);
    LaneKeys(At(w, events, i), r);
  }

  lemma LaneKeys(w: World, r: Role)
    requires Inv(w)
    ensures var keys := KeysOf(w, r);
      && keys != [] && Tombstones.Distinct(keys) && keys[0] == w.terms.Owner(r)
      && w.registry.Lane(r).state.current == keys[|keys| - 1] && w.registry.Lane(r).state.epoch == |keys| - 1
  {
    hide Inv, Tombstones.RegistryInv, Tombstones.IndexOk, Tombstones.Accepted, Tombstones.Replay, Tombstones.Distinct,
      Tombstones.LaneClear, Tombstones.LaneUnpaused;
    RoleLane(w, r);
    RegistryProofs.LaneFacts(w.terms, r, w.registry.Lane(r), w.lastActionAt);
  }

  /** Once a key has been replaced it is never current again, and never authenticates, whatever its epoch claims. */
  lemma ReplacedNeverReturns(w: World, events: seq<Event>, i: nat, j: nat, later: nat, r: Role, k: Signer, epoch: u64)
    requires Genesis(w) && i <= j <= later <= |events|
    requires At(w, events, i).registry.Lane(r).state.current == k
    requires At(w, events, j).registry.Lane(r).state.current != k
    ensures At(w, events, later).registry.Lane(r).state.current != k
    ensures Withdrawal.Authenticate(At(w, events, later).registry, r, k, epoch).Fail?
  {
    hide KeysOf, Genesis, At;
    KeysGrowOverRun(w, events, i, j, r);
    KeysGrowOverRun(w, events, j, later, r);
    KeysDistinct(w, events, i, r);
    KeysDistinct(w, events, j, r);
    KeysDistinct(w, events, later, r);
    var before, after, last :=
      KeysOf(At(w, events, i), r), KeysOf(At(w, events, j), r), KeysOf(At(w, events, later), r);
    assert before[|before| - 1] == k == last[|before| - 1];
    assert |before| < |after| <= |last|;
  }

  /** An approved recipient is disjoint from every key either role ever had, awaits, or is guarded by. */
  lemma RecipientsOutsideAuthority(w: World, events: seq<Event>, p: u64, r: Role)
    requires Genesis(w) && p in Run(w, events).registry.approvals
    ensures var w', k := Run(w, events), Run(w, events).registry.approvals[p].recipientOwner;
      && k !in KeysOf(w', r) && !w.terms.config.Guardians(r).Has(k) && k in w'.registry.keys
      && (w'.registry.Lane(r).state.pending != 0 ==>
            var n := w'.registry.Lane(r).state.sequence;
            n in w'.registry.Lane(r).proposals && w'.registry.Lane(r).proposals[n].successor != k)
      && Withdrawal.EligibleRecipient(w.terms, k, w'.registry.keys[k])
  {
    assert events[..|events|] == events;
    Reached(w, events, |events|);
    RecipientOutside(Run(w, events), p, r);
  }

  lemma RecipientOutside(w: World, p: u64, r: Role)
    requires Inv(w) && p in w.registry.approvals
    ensures var k := w.registry.approvals[p].recipientOwner;
      && k !in KeysOf(w, r) && !w.terms.config.Guardians(r).Has(k) && k in w.registry.keys
      && (w.registry.Lane(r).state.pending != 0 ==>
            var n := w.registry.Lane(r).state.sequence;
            n in w.registry.Lane(r).proposals && w.registry.Lane(r).proposals[n].successor != k)
      && Withdrawal.EligibleRecipient(w.terms, k, w.registry.keys[k])
  {
    hide LedgerInv, TermsOk, Control.ControlInv;
    RegistryProofs.RecipientStaysEligible(w.terms, w.registry, w.lastActionAt, p);
    if w.registry.Lane(r).state.pending != 0 {
      assert Tombstones.LaneInv(w.terms, w.registry, r, w.lastActionAt);
      RegistryProofs.PendingSuccessor(w.terms, w.registry, r, w.lastActionAt);
      var qs := Tombstones.History(w.registry.Lane(r));
      assert Tombstones.RecipientClear(w.registry.approvals[p], qs[w.registry.Lane(r).state.sequence - 1]);
    }
    hide Tombstones.LaneInv, Tombstones.ApprovalsInv;
    if r.Founder? {} else {}
  }

  /* ---- Pending proposals ---- */

  /**
   In a policy that is not cancelled a pending withdrawal proposal is never stuck: at every time from its
   maturity on exactly one of execution and expiry succeeds.
   */
  lemma NeverStuck(w: World, events: seq<Event>, r: Role, now: time)
    requires Genesis(w)
    requires var w' := Run(w, events);
      && w'.phase != Cancelled && w'.registry.Lane(r).state.pending != 0 && w'.lastActionAt <= now
    ensures var w', n := Run(w, events), Run(w, events).registry.Lane(r).state.pending;
      && n in w'.registry.Lane(r).proposals
      && var q := w'.registry.Lane(r).proposals[n];
      && (Step(w', now, ExecuteWithdrawal(r, n)).Ok? <==>
          q.createdAt + CHANGE_NOTICE <= now < q.createdAt + CHANGE_NOTICE + EXECUTION_WINDOW)
      && (Step(w', now, ExpireWithdrawal(r, n)).Ok? <==> q.createdAt + CHANGE_NOTICE + EXECUTION_WINDOW <= now)
  {
    assert events[..|events|] == events;
    Reached(w, events, |events|);
    hide Inv, Genesis;
    NotStuck(Run(w, events), r, now);
  }

  lemma NotStuck(w: World, r: Role, now: time)
    requires Inv(w) && w.phase != Cancelled && w.registry.Lane(r).state.pending != 0 && w.lastActionAt <= now
    ensures var n := w.registry.Lane(r).state.pending;
      && n in w.registry.Lane(r).proposals
      && var q := w.registry.Lane(r).proposals[n];
      && (Step(w, now, ExecuteWithdrawal(r, n)).Ok? <==>
          q.createdAt + CHANGE_NOTICE <= now < q.createdAt + CHANGE_NOTICE + EXECUTION_WINDOW)
      && (Step(w, now, ExpireWithdrawal(r, n)).Ok? <==> q.createdAt + CHANGE_NOTICE + EXECUTION_WINDOW <= now)
  {
    hide LedgerInv, TermsOk, Control.ControlInv, Tombstones.RegistryInv, Withdrawal.Execute, Withdrawal.Expire;
    RegistryProofs.PendingNeverStuck(w.terms, w.registry, r, w.lastActionAt, now);
    PendingIsSequence(w, r);
  }

  lemma PendingIsSequence(w: World, r: Role)
    requires Inv(w) && w.registry.Lane(r).state.pending != 0
    ensures w.registry.Lane(r).state.pending == w.registry.Lane(r).state.sequence
  {
    hide LedgerInv, TermsOk, Control.ControlInv, Tombstones.IndexOk, Tombstones.ApprovalsInv, Tombstones.Accepted;
    if r.Founder? {} else {}
  }

  /* ---- Every executed key change was admitted, and waited ---- */

  /** The committed event that admitted a proposal. */
  predicate Admitted(w: World, events: seq<Event>, i: nat, r: Role, q: Proposal) {
    && i < |events| && Committed(w, events, i)
    && Admits(events[i], r, q)
  }

  predicate Admits(e: Event, r: Role, q: Proposal) {
    && e.Invoke? && e.instruction.ProposeWithdrawal? && e.now == q.createdAt
    && var i := e.instruction.intent;
    && RoleOf(i.role) == Some(r) && i.nonce == q.nonce && i.successor == q.successor && i.recovery == q.recovery
    && i.validFrom <= e.now <= i.validUntil
  }

  /**
   Who signed a proposal when it was admitted: for a recovery two different guardians of its role, otherwise the role's
   current key in both places.
   */
  predicate Signed(c: Config, reg: Registry, r: Role, e: Event) {
    && e.Invoke? && e.instruction.ProposeWithdrawal?
    && var i, keys := e.instruction.intent, c.Guardians(r);
    if i.recovery
    then i.initiator != i.cosigner && i.initiator in {keys.one, keys.two, keys.three}
         && i.cosigner in {keys.one, keys.two, keys.three}
    else i.initiator == reg.Lane(r).state.current && i.cosigner == reg.Lane(r).state.current
  }

  lemma ProposalSigned(w: World, e: Event, r: Role, q: Proposal)
    requires Apply(w, e).Ok? && Admits(e, r, q)
    ensures Signed(w.terms.config, w.registry, r, e)
  {
    hide Withdrawal.EligibleSuccessor, Withdrawal.ValidateAdmission;
  }

  /** A stored proposal was stored before, or this event admitted it. */
  lemma ProposalOrigin(w: World, e: Event, r: Role, n: u64)
    requires Apply(w, e).Ok? && n in Apply(w, e).value.registry.Lane(r).proposals
    ensures var q := Apply(w, e).value.registry.Lane(r).proposals[n];
      || (n in w.registry.Lane(r).proposals && SameTerms(w.registry.Lane(r).proposals[n], q))
      || Admits(e, r, q)
  {
    hide Step;
    if MovesLanes(e) {
      MovedOrigin(w, e, r, n);
    } else {
      LanesUntouched(w, e, r);
    }
  }

  /** The fields of a proposal that its outcome leaves alone. */
  predicate SameTerms(q: Proposal, q': Proposal) {
    q' == q.(status := q'.status, finishedAt := q'.finishedAt)
  }

  lemma ProposedOrigin(w: World, e: Event, r: Role, n: u64)
    requires Apply(w, e).Ok? && e.Invoke? && e.instruction.ProposeWithdrawal?
    requires n in Apply(w, e).value.registry.Lane(r).proposals
    ensures var q := Apply(w, e).value.registry.Lane(r).proposals[n];
      || (n in w.registry.Lane(r).proposals && SameTerms(w.registry.Lane(r).proposals[n], q))
      || Admits(e, r, q)
  {
    hide Withdrawal.EligibleSuccessor, Quorum;
    if r.Founder? {} else {}
  }

  lemma FinishedOrigin(reg: Registry, ended: Role, nonce: u64, status: Status, now: time, rs: RoleState,
          record: KeyRecord, r: Role, n: u64)
    requires Withdrawal.Bound(reg, ended, nonce)
    requires n in Withdrawal.Finish(reg, ended, nonce, status, now, rs, record).Lane(r).proposals
    ensures n in reg.Lane(r).proposals
    ensures SameTerms(reg.Lane(r).proposals[n],
        Withdrawal.Finish(reg, ended, nonce, status, now, rs, record).Lane(r).proposals[n])
  {
    if r.Founder? {} else {}
  }

  lemma EndedOrigin(w: World, e: Event, r: Role, n: u64)
    requires Apply(w, e).Ok? && MovesLanes(e) && !e.instruction.ProposeWithdrawal?
    requires n in Apply(w, e).value.registry.Lane(r).proposals
    ensures n in w.registry.Lane(r).proposals
      && SameTerms(w.registry.Lane(r).proposals[n], Apply(w, e).value.registry.Lane(r).proposals[n])
  {
    hide Withdrawal.EligibleSuccessor, MayRetract, Withdrawal.CheckPending, Withdrawal.Finish, SameTerms;
    var reg, now, i := w.registry, e.now, e.instruction;
    var q, rs := reg.Lane(i.role).proposals[i.nonce], reg.Lane(i.role).state;
    if i.ExecuteWithdrawal? {
      FinishedOrigin(reg, i.role, i.nonce, Executed, now, rs.(current := q.successor, epoch := rs.epoch + 1),
                     reg.keys[q.successor].(history := reg.keys[q.successor].history.With(i.role)), r, n);
    } else {
      FinishedOrigin(reg, i.role, i.nonce, if i.CancelWithdrawal? then Retracted else Expired, now, rs,
          reg.keys[q.successor], r, n);
    }
  }

  lemma MovedOrigin(w: World, e: Event, r: Role, n: u64)
    requires Apply(w, e).Ok? && MovesLanes(e) && n in Apply(w, e).value.registry.Lane(r).proposals
    ensures var q := Apply(w, e).value.registry.Lane(r).proposals[n];
      || (n in w.registry.Lane(r).proposals && SameTerms(w.registry.Lane(r).proposals[n], q))
      || Admits(e, r, q)
  {
    hide Withdrawal.EligibleSuccessor, MayRetract, Withdrawal.CheckPending, Withdrawal.Finish, Withdrawal.Propose,
      SameTerms;
    var reg, now, i := w.registry, e.now, e.instruction;
    if i.ProposeWithdrawal? {
      ProposedOrigin(w, e, r, n);
    } else {
      EndedOrigin(w, e, r, n);
    }
  }

  lemma {:induction false} ProposalsAdmitted(w: World, events: seq<Event>, j: nat, r: Role, n: u64) returns (i: nat)
    requires Genesis(w) && j <= |events| && n in At(w, events, j).registry.Lane(r).proposals
    ensures i < j && Admitted(w, events, i, r, At(w, events, j).registry.Lane(r).proposals[n])
    ensures Signed(w.terms.config, At(w, events, i).registry, r, events[i])
    decreases j
  {
    hide Genesis, Apply, Admits, Signed, Inv;
    if j == 0 {
      GenesisLanes(w, r);
    } else {
      AtNext(w, events, j - 1);
      var last, e := At(w, events, j - 1), events[j - 1];
      if Committed(w, events, j - 1) {
        ProposalOrigin(last, e, r, n);
        var q := At(w, events, j).registry.Lane(r).proposals[n];
        if Admits(e, r, q) {
          i := j - 1;
          Reached(w, events, i);
          ProposalSigned(last, e, r, q);
        } else {
          i := ProposalsAdmitted(w, events, j - 1, r, n);
          SameAdmission(events[i], r, last.registry.Lane(r).proposals[n], q);
        }
      } else {
        i := ProposalsAdmitted(w, events, j - 1, r, n);
      }
    }
  }

  lemma SameAdmission(e: Event, r: Role, q: Proposal, q': Proposal)
    requires Admits(e, r, q) && SameTerms(q, q')
    ensures Admits(e, r, q')
  {
  }

  lemma GenesisLanes(w: World, r: Role)
    requires Genesis(w)
    ensures w.registry.Lane(r).proposals == map[]
  {
    hide Validate;
    var p, consent, tokens, now :| Safety.Admits(p, consent, tokens, now, w);
  }

  /**
   An executed key change was admitted by an earlier event of the run, at least the full notice and less than
   the notice and the execution window before, and makes that event's successor current.
   */
  lemma FullNotice(w: World, events: seq<Event>, j: nat, r: Role, nonce: u64) returns (i: nat)
    requires Genesis(w) && j < |events| && Committed(w, events, j)
    requires events[j].Invoke? && events[j].instruction == ExecuteWithdrawal(r, nonce)
    ensures i < j && Committed(w, events, i)
    ensures events[i].Invoke? && events[i].instruction.ProposeWithdrawal?
    ensures RoleOf(events[i].instruction.intent.role) == Some(r) && events[i].instruction.intent.nonce == nonce
    ensures events[i].now + CHANGE_NOTICE <= events[j].now < events[i].now + CHANGE_NOTICE + EXECUTION_WINDOW
    ensures Signed(w.terms.config, At(w, events, i).registry, r, events[i])
    ensures At(w, events, j + 1).registry.Lane(r).state.current == events[i].instruction.intent.successor
  {
    hide Inv, Genesis, Signed;
    AtNext(w, events, j);
    Reached(w, events, j);
    var w' := At(w, events, j);
    ExecutedFacts(w', events[j].now, r, nonce);
    i := ProposalsAdmitted(w, events, j, r, nonce);
  }

  lemma ExecutedCurrent(t: Terms, reg: Registry, r: Role, nonce: u64, now: time)
    requires Withdrawal.Bound(reg, r, nonce) && Withdrawal.Execute(t, reg, r, nonce, now).Ok?
    ensures var q := reg.Lane(r).proposals[nonce];
      q.executeAfter <= now < q.expiresAt
        && Withdrawal.Execute(t, reg, r, nonce, now).value.Lane(r).state.current == q.successor
  {
    if r.Founder? {} else {}
  }

  lemma ExecutedFacts(w: World, now: time, r: Role, nonce: u64)
    requires Inv(w) && Step(w, now, ExecuteWithdrawal(r, nonce)).Ok?
    ensures nonce in w.registry.Lane(r).proposals
    ensures var q := w.registry.Lane(r).proposals[nonce];
      && q.nonce == nonce && q.createdAt + CHANGE_NOTICE <= now < q.createdAt + CHANGE_NOTICE + EXECUTION_WINDOW
      && Step(w, now, ExecuteWithdrawal(r, nonce)).value.registry.Lane(r).state.current == q.successor
  {
    hide LedgerInv, TermsOk, Control.ControlInv, Withdrawal.Execute, Tombstones.LaneInv, Tombstones.ApprovalsInv,
      Tombstones.Finished;
    assert Tombstones.LaneInv(w.terms, w.registry, r, w.lastActionAt) by {
      if r.Founder? {} else {}
    }
    RegistryProofs.StoredOutcome(w.terms, w.registry, r, nonce, w.lastActionAt);
    RegistryProofs.PendingExactly(w.terms, w.registry, r, nonce, w.lastActionAt);
    ExecutedCurrent(w.terms, w.registry, r, nonce, now);
  }

  /* ---- Reports ---- */

  /** The instruction that made a report. */
  predicate Makes(c: Config, e: Event, oracle: Key, r: Report) {
    && e.Invoke? && e.instruction.ReportCapacity? && e.instruction.oracle == oracle
    && e.instruction.capacity == r.capacity && e.instruction.observedAt == r.at
    && e.instruction.sequence == r.sequence && e.instruction.epoch == r.epoch
    && State.PeriodAt(c.t0, e.now) == Ok(r.period)
  }

  /** A stored report stays, valid only while its oracle does, unless this event made another. */
  predicate ReportStays(g: Governance, g': Governance) {
    && g'.report == g.report.(valid := g'.report.valid)
    && (g'.report.valid ==> g.report.valid && g'.oracle == g.oracle)
  }

  lemma ReportOrigin(w: World, e: Event)
    requires Apply(w, e).Ok?
    ensures var g, g' := w.gov, Apply(w, e).value.gov;
      ReportStays(g, g') || (g'.oracle == g.oracle && Makes(w.terms.config, e, g.oracle, g'.report))
  {
    hide Transfer, Capacity.Consume, AuthorizeRelease, Control.Propose, Control.Cancel, Control.Execute,
      Withdrawal.Authenticate, Withdrawal.Approve, Withdrawal.Propose, Withdrawal.Execute, Withdrawal.Cancel,
      Withdrawal.Expire;
    if e.Invoke? {
      match e.instruction
      case ProposeChange(a, b, successor, kind, recovery, nonce) =>
        ProposeKeepsReport(w.terms.config.recoveryKeys, w.gov, a, b, successor, kind, recovery, nonce, e.now);
      case CancelChange(a, b, nonce) => CancelKeepsReport(w.terms.config.recoveryKeys, w.gov, nonce, a, b);
      case ExecuteChange(nonce) => ExecuteKeepsReport(w.gov, nonce, e.now);
      case _ =>
    }
  }

  lemma ExecuteKeepsReport(g: Governance, nonce: u64, now: time)
    requires nonce in g.changes && Control.Execute(g, nonce, now).Ok?
    ensures ReportStays(g, Control.Execute(g, nonce, now).value)
  {
  }

  /** Every valid report was made by a committed event, signed by the oracle that is still current. */
  lemma {:induction false} ReportMade(w: World, events: seq<Event>, j: nat) returns (i: nat)
    requires Genesis(w) && j <= |events| && At(w, events, j).gov.report.valid
    ensures i < j && Committed(w, events, i) && At(w, events, i).gov.oracle == At(w, events, j).gov.oracle
    ensures Makes(w.terms.config, events[i], At(w, events, j).gov.oracle, At(w, events, j).gov.report)
    decreases j
  {
    hide Genesis, Apply, Makes, Inv;
    if j == 0 {
      GenesisReport(w);
    } else {
      AtNext(w, events, j - 1);
      Reached(w, events, j - 1);
      var last, e := At(w, events, j - 1), events[j - 1];
      if Committed(w, events, j - 1) {
        ReportOrigin(last, e);
        if ReportStays(last.gov, At(w, events, j).gov) {
          i := ReportMade(w, events, j - 1);
          assert At(w, events, j).gov.report == last.gov.report;
        } else {
          i := j - 1;
        }
      } else {
        i := ReportMade(w, events, j - 1);
      }
    }
  }

  lemma GenesisReport(w: World)
    requires Genesis(w)
    ensures w.gov.report == NO_REPORT
  {
    hide Validate;
    var p, consent, tokens, now :| Safety.Admits(p, consent, tokens, now, w);
  }

  /**
   Every release of every run rests on a report that an earlier event of the run made, signed by the oracle that is
   still current: made under its epoch, observed no earlier than its activation and inside the release's own period,
   and no older than the maximum age.
   */
  lemma ReleaseRestsOnReport(w: World, events: seq<Event>, i: nat) returns (j: nat)
    requires Genesis(w) && i < |events| && Committed(w, events, i)
    requires events[i].Invoke? && events[i].instruction.Release?
    ensures j < i && Committed(w, events, j) && events[j].Invoke? && events[j].instruction.ReportCapacity?
    ensures var g, now, c, report := At(w, events, i).gov, events[i].now, w.terms.config, events[j].instruction;
      && report.oracle == g.oracle == At(w, events, j).gov.oracle && report.epoch == g.oracleEpoch
      && report.capacity == g.report.capacity && report.sequence == g.report.sequence
      && report.observedAt == g.report.at && g.oracleActivatedAt <= report.observedAt <= now
      && now - report.observedAt <= c.maxReportAge
      && State.PeriodAt(c.t0, now).Ok? && State.PeriodAt(c.t0, report.observedAt) == State.PeriodAt(c.t0, now)
  {
    hide Inv, Genesis, ReleaseStep;
    Reached(w, events, i);
    var i', now := events[i].instruction, events[i].now;
    ReleaseReport(At(w, events, i), now, i'.authority, i'.role, i'.amount, i'.authorityEpoch, i'.destination,
        i'.approval, i'.recipientRecord);
    j := ReportMade(w, events, i);
  }

  lemma ReleaseReport(w: World, now: time, authority: Signer, r: Role, amount: u64, epoch: u64, destination: Addr,
          approval: Option<u64>, recipientRecord: Option<Key>)
    requires Inv(w) && ReleaseStep(w, now, authority, r, amount, epoch, destination, approval, recipientRecord).Ok?
    ensures var g, c := w.gov, w.terms.config;
      && g.report.valid && g.report.epoch == g.oracleEpoch && g.oracleActivatedAt <= g.report.at <= now
      && now - g.report.at <= c.maxReportAge
      && State.PeriodAt(c.t0, now).Ok? && State.PeriodAt(c.t0, g.report.at) == State.PeriodAt(c.t0, now)
  {
    hide Inv, ReleaseStep, Capacity.Consume, AuthorizeRelease, TermsOk;
    ReleasePassed(w, now, authority, r, amount, epoch, destination, approval, recipientRecord);
    TermsHold(w);
    ReportHolds(w);
    ReleaseAuthorized(w.(lastActionAt := now), now, authority, r, amount, epoch, destination, approval,
        recipientRecord);
    PeriodContains(w.terms.config.t0, w.gov.report.at, w.gov.report.period);
  }

  /** Report sequences never fall and observation times never go back, whatever happens to the oracle. */
  lemma ReportsAdvance(w: World, e: Event)
    requires Apply(w, e).Ok?
    ensures var g, g' := w.gov, Apply(w, e).value.gov;
      && g.report.sequence <= g'.report.sequence && g.report.at <= g'.report.at && g.oracleEpoch <= g'.oracleEpoch
      && (e.Invoke? && e.instruction.ReportCapacity? ==>
            (g.report.sequence < g'.report.sequence == e.instruction.sequence
                && g'.report.at == e.instruction.observedAt))
  {
    hide Transfer, Capacity.Consume, AuthorizeRelease, Control.Propose, Control.Cancel, Withdrawal.Authenticate,
      Withdrawal.Approve, Withdrawal.Propose, Withdrawal.Execute, Withdrawal.Cancel, Withdrawal.Expire;
    if e.Invoke? {
      match e.instruction
      case ProposeChange(a, b, successor, kind, recovery, nonce) =>
        ProposeKeepsReport(w.terms.config.recoveryKeys, w.gov, a, b, successor, kind, recovery, nonce, e.now);
      case CancelChange(a, b, nonce) => CancelKeepsReport(w.terms.config.recoveryKeys, w.gov, nonce, a, b);
      case _ =>
    }
  }

  lemma ProposeKeepsReport(keys: Committee, g: Governance, a: Key, b: Key, successor: Key, kind: u8, recovery: bool,
          nonce: u64, now: time)
    requires Control.Propose(keys, g, a, b, successor, kind, recovery, nonce, now).Ok?
    ensures var g' := Control.Propose(keys, g, a, b, successor, kind, recovery, nonce, now).value;
      g'.report == g.report && g'.oracleEpoch == g.oracleEpoch && g'.oracle == g.oracle
  {
  }

  lemma CancelKeepsReport(keys: Committee, g: Governance, nonce: u64, a: Key, b: Key)
    requires nonce in g.changes && Control.Cancel(keys, g, nonce, a, b).Ok?
    ensures var g' := Control.Cancel(keys, g, nonce, a, b).value;
      g'.report == g.report && g'.oracleEpoch == g.oracleEpoch && g'.oracle == g.oracle
  {
  }

  lemma {:induction false} ReportsAdvanceOverRun(w: World, events: seq<Event>, i: nat, j: nat)
    requires i <= j <= |events|
    ensures At(w, events, i).gov.report.sequence <= At(w, events, j).gov.report.sequence
    ensures At(w, events, i).gov.report.at <= At(w, events, j).gov.report.at
    decreases j
  {
    hide Apply;
    if i < j {
      ReportsAdvanceOverRun(w, events, i, j - 1);
      AtNext(w, events, j - 1);
      if Committed(w, events, j - 1) {
        ReportsAdvance(At(w, events, j - 1), events[j - 1]);
      }
    }
  }

  predicate Reports(w: World, events: seq<Event>, i: nat) {
    i < |events| && Committed(w, events, i) && events[i].Invoke? && events[i].instruction.ReportCapacity?
  }

  /**
   Of two reports of a run the later has a strictly higher sequence and no earlier observation, across oracle changes
   too.
   */
  lemma ReportsOrdered(w: World, events: seq<Event>, i: nat, j: nat)
    requires i < j && Reports(w, events, i) && Reports(w, events, j)
    ensures events[i].instruction.sequence < events[j].instruction.sequence
    ensures events[i].instruction.observedAt <= events[j].instruction.observedAt
  {
    AtNext(w, events, i);
    AtNext(w, events, j);
    hide Apply;
    ReportsAdvance(At(w, events, i), events[i]);
    ReportsAdvance(At(w, events, j), events[j]);
    ReportsAdvanceOverRun(w, events, i + 1, j);
    ReportsAdvanceOverRun(w, events, j, j + 1);
  }
}
