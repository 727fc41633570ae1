/** Every run of the launch vault, step for step, is a run of the history-list model of withdrawal authority. */
module SimulationRuns {
  import opened Basics
  import opened State
  import opened Launch
  import opened Invariant
  import opened Safety
  import opened Simulation
  import Withdrawal
  import Tombstones
  import RegistryProofs
  import Capacity
  import Control
  import Tokens
  import H = HistoryModel

  /** The digest of a stored proposal. */
  function DigestAt(w: World, r: Role, nonce: u64): Option<H.Digest> {
    if nonce in w.registry.Lane(r).proposals && 0 <= w.registry.Lane(r).proposals[nonce].createdAt
    then Some(H.DigestOf(PlanOf(w.registry.Lane(r).proposals[nonce]))) else None
  }

  /** The model's call for a committed event: one for each withdrawal operation and release, none otherwise. */
  function CallFor(w: World, e: Event): Option<H.Call> {
    if Apply(w, e).Err? || !e.Invoke? then None
    else
      match e.instruction
      case ProposeWithdrawal(i) =>
        (match RoleOf(i.role)
         case Some(r) => Some(H.CallPropose(r, i.successor, i.recovery, i.nonce, i.epoch,
             {i.initiator, i.cosigner, i.successor}, e.now))
         case None => None)
      case ExecuteWithdrawal(r, nonce) =>
        (match DigestAt(w, r, nonce) case Some(d) => Some(H.CallExecute(r, d, e.now)) case None => None)
      case CancelWithdrawal(one, two, r, nonce) =>
        (match DigestAt(w, r, nonce) case Some(d) => Some(H.CallCancel(r, d, {one, two}, e.now)) case None => None)
      case ExpireWithdrawal(r, nonce) =>
        (match DigestAt(w, r, nonce) case Some(d) => Some(H.CallExpire(r, d, e.now)) case None => None)
      case ApproveTreasury(author, period, need, epoch, recipient) =>
        if recipient in w.tokens
        then Some(H.CallApprove(author, epoch, period, recipient, w.tokens[recipient].owner, need, e.now))
        else None
      case Release(authority, r, amount, epoch, destination, approval, _) =>
        if destination in w.tokens
        then Some(H.CallAuthorize(r, authority, epoch, destination, w.tokens[destination].owner, e.now, approval))
        else None
      case _ => None
  }

  predicate Withdraws(e: Event) {
    e.Invoke? && (e.instruction.ProposeWithdrawal? || e.instruction.ExecuteWithdrawal?
                  || e.instruction.CancelWithdrawal? || e.instruction.ExpireWithdrawal?
                  || e.instruction.ApproveTreasury? || e.instruction.Release?)
  }

  /** Related before, the call succeeds and the books stay related. */
  ghost predicate Simulates(w: World, e: Event, b: H.Book)
    requires Apply(w, e).Ok?
  {
    var w' := Apply(w, e).value;
    match CallFor(w, e)
    case None => Related(w'.terms, w'.registry, w'.lastActionAt, b)
    case Some(c) => H.Do(b, c).Some? && Related(w'.terms, w'.registry, w'.lastActionAt, H.Do(b, c).value)
  }

  lemma ProposeEvent(w: World, e: Event, b: H.Book)
    requires Inv(w) && Apply(w, e).Ok? && e.Invoke? && e.instruction.ProposeWithdrawal?
    requires Related(w.terms, w.registry, w.lastActionAt, b)
    ensures CallFor(w, e).Some? && Simulates(w, e, b)
  {
    hide Inv, Related, H.Propose, Withdrawal.Propose, Tombstones.RegistryInv;
    ReleaseParts(w);
    ProposeSimulates(w.terms, w.registry, w.lastActionAt, b, e.instruction.intent, e.now);
  }

  lemma StoredCreated(w: World, r: Role, nonce: u64)
    requires Inv(w) && Withdrawal.Bound(w.registry, r, nonce)
    ensures 0 <= w.registry.Lane(r).proposals[nonce].createdAt
  {
    hide LedgerInv, TermsOk, Control.ControlInv, Tombstones.LaneInv, Tombstones.ApprovalsInv;
    assert Tombstones.LaneInv(w.terms, w.registry, r, w.lastActionAt) by {
      if r.Founder? {} else {}
    }
    RegistryProofs.StoredOutcome(w.terms, w.registry, r, nonce, w.lastActionAt);
  }

  lemma ExecuteEvent(w: World, e: Event, b: H.Book)
    requires Inv(w) && Apply(w, e).Ok? && e.Invoke? && e.instruction.ExecuteWithdrawal?
    requires Related(w.terms, w.registry, w.lastActionAt, b)
    ensures CallFor(w, e).Some? && Simulates(w, e, b)
  {
    hide Inv, Related, H.Execute, Withdrawal.Execute, Tombstones.RegistryInv;
    ReleaseParts(w);
    StoredCreated(w, e.instruction.role, e.instruction.nonce);
    ExecuteSimulates(w.terms, w.registry, w.lastActionAt, b, e.instruction.role, e.instruction.nonce, e.now);
  }

  lemma CancelEvent(w: World, e: Event, b: H.Book)
    requires Inv(w) && Apply(w, e).Ok? && e.Invoke? && e.instruction.CancelWithdrawal?
    requires Related(w.terms, w.registry, w.lastActionAt, b)
    ensures CallFor(w, e).Some? && Simulates(w, e, b)
  {
    hide Inv, Related, H.Cancel, Withdrawal.Cancel, Tombstones.RegistryInv;
    ReleaseParts(w);
    var i := e.instruction;
    StoredCreated(w, i.role, i.nonce);
    CancelSimulates(w.terms, w.registry, w.lastActionAt, b, i.role, i.nonce, i.initiator, i.cosigner, e.now);
  }

  lemma ExpireEvent(w: World, e: Event, b: H.Book)
    requires Inv(w) && Apply(w, e).Ok? && e.Invoke? && e.instruction.ExpireWithdrawal?
    requires Related(w.terms, w.registry, w.lastActionAt, b)
    ensures CallFor(w, e).Some? && Simulates(w, e, b)
  {
    hide Inv, Related, H.Expire, Withdrawal.Expire, Tombstones.RegistryInv;
    ReleaseParts(w);
    StoredCreated(w, e.instruction.role, e.instruction.nonce);
    ExpireSimulates(w.terms, w.registry, w.lastActionAt, b, e.instruction.role, e.instruction.nonce, e.now);
  }

  lemma ApproveEvent(w: World, e: Event, b: H.Book)
    requires Inv(w) && Apply(w, e).Ok? && e.Invoke? && e.instruction.ApproveTreasury?
    requires Related(w.terms, w.registry, w.lastActionAt, b)
    ensures CallFor(w, e).Some? && Simulates(w, e, b)
  {
    hide Inv, Related, H.Approve, Withdrawal.Approve, Tombstones.RegistryInv, TermsOk;
    ReleaseParts(w);
    StartNonNegative(w.terms);
    var i := e.instruction;
    DefaultHasNoRecord(w.terms, w.registry, w.lastActionAt);
    ApproveSimulates(w.terms, w.registry, w.lastActionAt, b, i.author, i.period, i.need, i.authorityEpoch, i.recipient,
                     w.tokens[i.recipient].owner, e.now);
  }

  lemma DefaultHasNoRecord(t: Terms, reg: Registry, at: i64)
    requires Tombstones.RegistryInv(t, reg, at)
    ensures Default !in reg.keys
  {
    hide Tombstones.LaneInv, Tombstones.ApprovalsOk;
  }

  lemma StartNonNegative(t: Terms)
    requires TermsOk(t)
    ensures 0 <= t.config.t0
  {
  }

  /** A release spends its approval and leaves every lane and approval otherwise as it was. */
  lemma ReleaseFrame(w: World, e: Event)
    requires Inv(w) && Apply(w, e).Ok? && e.Invoke? && e.instruction.Release?
    ensures var w' := Apply(w, e).value;
      && w'.terms == w.terms && w'.lastActionAt == e.now >= w.lastActionAt
      && w'.registry.founder == w.registry.founder && w'.registry.treasury == w.registry.treasury
      && RegistryProofs.SameButSpent(w.registry.approvals, w'.registry.approvals)
  {
    hide Tombstones.RegistryInv, LedgerInv, Control.ControlInv, AuthorizeRelease, Capacity.Consume, Tokens.Transfer;
    var i := e.instruction;
    ReleaseAuthorized(Tick(w, e.now).value, e.now, i.authority, i.role, i.amount, i.authorityEpoch, i.destination,
        i.approval, i.recipientRecord);
    ApprovalsCapped(w);
    hide Inv;
  }

  lemma ApprovalsCapped(w: World)
    requires Inv(w)
    ensures forall p :: p in w.registry.approvals ==> w.registry.approvals[p].consumed <= w.registry.approvals[p].need
  {
    hide Tombstones.LaneInv, LedgerInv, Control.ControlInv;
    forall p | p in w.registry.approvals ensures w.registry.approvals[p].consumed <= w.registry.approvals[p].need {
      assert Tombstones.ApprovalOk(w.terms, w.registry.keys, w.registry.approvals[p], p, w.lastActionAt);
    }
  }

  lemma RelatedFrame(t: Terms, reg: Registry, reg': Registry, at: time, later: time, b: H.Book)
    requires Related(t, reg, at, b) && at <= later
    requires reg'.founder == reg.founder && reg'.treasury == reg.treasury
      && RegistryProofs.SameButSpent(reg.approvals, reg'.approvals)
    ensures Related(t, reg', later, b)
  {
    hide MemberOf;
  }

  lemma ReleaseEvent(w: World, e: Event, b: H.Book)
    requires Inv(w) && Apply(w, e).Ok? && e.Invoke? && e.instruction.Release?
    requires Related(w.terms, w.registry, w.lastActionAt, b)
    ensures CallFor(w, e).Some? && Simulates(w, e, b)
  {
    hide Inv, Related, H.AuthorizesRelease, ReleaseStep, RegistryProofs.SameButSpent;
    var i := e.instruction;
    ReleaseSimulates(w, b, e.now, i.authority, i.role, i.amount, i.authorityEpoch, i.destination, i.approval,
        i.recipientRecord);
    ReleaseFrame(w, e);
    RelatedFrame(w.terms, w.registry, Apply(w, e).value.registry, w.lastActionAt, e.now, b);
  }

  lemma DepositFrame(w: World, e: Event)
    requires Apply(w, e).Ok? && e.Invoke? && e.instruction.Deposit?
    ensures var w' := Apply(w, e).value;
      w'.terms == w.terms && w'.lastActionAt >= w.lastActionAt && w'.registry == w.registry
  {
    hide Tokens.Transfer, Withdrawal.Authenticate;
  }

  /** Every other event leaves lanes and approvals alone. */
  lemma QuietFrame(w: World, e: Event)
    requires Apply(w, e).Ok? && !Withdraws(e)
    ensures var w' := Apply(w, e).value;
      && w'.terms == w.terms && w'.lastActionAt >= w.lastActionAt
      && w'.registry.founder == w.registry.founder && w'.registry.treasury == w.registry.treasury
      && w'.registry.approvals == w.registry.approvals
  {
    hide Tokens.Transfer, Control.Propose, Control.Execute, Control.Cancel, Control.ReportCapacity,
      Withdrawal.Authenticate;
    if e.Invoke? {
      match e.instruction
      case Deposit(_, _, _, _, _, _) => DepositFrame(w, e);
      case Arm(_) =>
      case Activate =>
      case CancelPolicy(_, _, _) =>
      case ExpireUnarmed =>
      case Refund(_, _, _) =>
      case ReportCapacity(_, _, _, _, _) =>
      case PrepareWithdrawalKey(_) =>
      case ProposeChange(_, _, _, _, _, _) =>
      case CancelChange(_, _, _) =>
      case ExecuteChange(_) =>
    }
  }

  lemma QuietEvent(w: World, e: Event, b: H.Book)
    requires Inv(w) && Apply(w, e).Ok? && !Withdraws(e)
    requires Related(w.terms, w.registry, w.lastActionAt, b)
    ensures CallFor(w, e).None? && Simulates(w, e, b)
  {
    hide Inv, Related, Step, RegistryProofs.SameButSpent;
    QuietFrame(w, e);
    SameIsSpent(w);
    RelatedFrame(w.terms, w.registry, Apply(w, e).value.registry, w.lastActionAt, Apply(w, e).value.lastActionAt, b);
  }

  lemma SameIsSpent(w: World)
    requires Inv(w)
    ensures RegistryProofs.SameButSpent(w.registry.approvals, w.registry.approvals)
  {
    hide Inv;
    ApprovalsCapped(w);
  }

  /** Every committed event is a successful call of the model, or none, and keeps the books related. */
  lemma EventSimulates(w: World, e: Event, b: H.Book)
    requires Inv(w) && Apply(w, e).Ok? && Related(w.terms, w.registry, w.lastActionAt, b)
    ensures CallFor(w, e).Some? == Withdraws(e) && Simulates(w, e, b)
  {
    hide Inv, Related, Apply, Simulates, CallFor;
    if !Withdraws(e) {
      QuietEvent(w, e, b);
    } else {
      match e.instruction {
        case ProposeWithdrawal(_) => ProposeEvent(w, e, b);
        case ExecuteWithdrawal(_, _) => ExecuteEvent(w, e, b);
        case CancelWithdrawal(_, _, _, _) => CancelEvent(w, e, b);
        case ExpireWithdrawal(_, _) => ExpireEvent(w, e, b);
        case ApproveTreasury(_, _, _, _, _) => ApproveEvent(w, e, b);
        case _ => ReleaseEvent(w, e, b);
      }
    }
  }

  /* ---- Runs ---- */

  /** The model's calls for a run, in order. */
  function Calls(w: World, events: seq<Event>): seq<H.Call>
    decreases |events|
  {
    if events == [] then []
    else
      var before := Calls(w, events[..|events| - 1]);
      match CallFor(Run(w, events[..|events| - 1]), events[|events| - 1])
      case Some(c) => before + [c]
      case None => before
  }

  function Registered(t: Terms): Option<H.Book>
    requires 0 <= t.config.t0
  {
    H.Register(POLICY, t.config.t0, t.founder, t.treasury, t.config.founderGuardians, t.config.treasuryGuardians,
        {t.founder, t.treasury})
  }

  lemma CommitteeSize(c: Committee)
    requires ValidCommittee(c)
    ensures |c.Members()| == 3
  {
  }

  lemma GenesisTerms(w: World)
    requires Inv(w)
    ensures TermsOk(w.terms)
  {
  }

  lemma StartRelated(t: Terms, at: time)
    requires TermsOk(t)
    ensures 0 <= t.config.t0 && Registered(t).Some?
    ensures Related(t, Withdrawal.FreshRegistry(t), at, Registered(t).value)
  {
    hide Capacity.RulesOk;
    CommitteeSize(t.config.founderGuardians);
    CommitteeSize(t.config.treasuryGuardians);
  }

  lemma GenesisRelated(w: World)
    requires Genesis(w)
    ensures 0 <= w.terms.config.t0 && Registered(w.terms).Some?
    ensures Related(w.terms, w.registry, w.lastActionAt, Registered(w.terms).value)
  {
    hide Genesis, Inv, Related, LedgerInv, AuthorityInv;
    GenesisInv(w);
    GenesisRegistry(w);
    GenesisTerms(w);
    StartRelated(w.terms, w.lastActionAt);
  }

  lemma GenesisRegistry(w: World)
    requires Genesis(w)
    ensures w.registry == Withdrawal.FreshRegistry(w.terms)
  {
    hide Validate;
    var p, consent, tokens, now :| Safety.Admits(p, consent, tokens, now, w);
  }

  lemma CallAppends(b: H.Book, calls: seq<H.Call>, c: H.Call)
    requires H.DoAll(b, calls).Some?
    ensures H.DoAll(b, calls + [c]) == H.Do(H.DoAll(b, calls).value, c)
  {
    assert (calls + [c])[..|calls|] == calls;
  }

  /**
   Over any run, making the model's call for every committed withdrawal operation, approval and release, in order,
   succeeds throughout and ends in books that list exactly the keys, proposals and approvals that are on chain.
   */
  lemma {:induction false} RunSimulates(w: World, events: seq<Event>)
    requires Genesis(w)
    ensures 0 <= w.terms.config.t0 && Registered(w.terms).Some?
    ensures var b, w' := H.DoAll(Registered(w.terms).value, Calls(w, events)), Run(w, events);
      b.Some? && Related(w'.terms, w'.registry, w'.lastActionAt, b.value)
    decreases |events|
  {
    hide Inv, Related, Genesis, CallFor, Registered, H.Do, Apply;
    GenesisRelated(w);
    if events != [] {
      var last, e := Run(w, events[..|events| - 1]), events[|events| - 1];
      RunSimulates(w, events[..|events| - 1]);
      assert Inv(last) by { Reached(w, events, |events| - 1); }
      var b := H.DoAll(Registered(w.terms).value, Calls(w, events[..|events| - 1])).value;
      if Apply(last, e).Ok? {
        EventSimulates(last, e, b);
        if CallFor(last, e).Some? {
          CallAppends(Registered(w.terms).value, Calls(w, events[..|events| - 1]), CallFor(last, e).value);
        }
      } else {
        RefusedHasNoCall(last, e);
      }
    }
  }

  lemma RefusedHasNoCall(w: World, e: Event)
    requires Apply(w, e).Err?
    ensures CallFor(w, e).None?
  {
    hide Apply;
  }
}
