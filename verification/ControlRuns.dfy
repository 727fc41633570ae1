/** What holds of every run of the launch vault as far as changes of the oracle and the controller are concerned. */
module ControlRuns {
  import opened Basics
  import opened State
  import opened Launch
  import opened Invariant
  import opened Safety
  import Tokens
  import Capacity
  import Tombstones
  import Withdrawal
  import Control

  /** The instruction that put a change forward, when it was created. */
  predicate Admits(e: Event, q: Change) {
    && e.Invoke? && e.instruction.ProposeChange? && e.now == q.createdAt
    && e.instruction.nonce == q.nonce && e.instruction.successor == q.successor && e.instruction.recovery == q.recovery
    && Control.KindOf(e.instruction.kind) == Some(q.kind)
  }

  /**
   Who signed a change when it was put forward: for a recovery two different keys of the three recovery keys, otherwise
   the controller of that moment in both places.
   */
  predicate Signed(c: Config, g: Governance, e: Event) {
    && e.Invoke? && e.instruction.ProposeChange?
    && var a, b, keys := e.instruction.initiator, e.instruction.cosigner, c.recoveryKeys;
    if e.instruction.recovery
    then a != b && a in {keys.one, keys.two, keys.three} && b in {keys.one, keys.two, keys.three}
    else a == g.controller && b == g.controller
  }

  lemma ProposalSigned(w: World, e: Event)
    requires Apply(w, e).Ok? && e.Invoke? && e.instruction.ProposeChange?
    ensures Signed(w.terms.config, w.gov, e)
  {
  }

  /** A change as it was, but for how it ended. */
  predicate SameTerms(q: Change, q': Change) { q' == q.(status := q'.status) }

  predicate MovesChanges(e: Event) {
    e.Invoke? && (e.instruction.ProposeChange? || e.instruction.CancelChange? || e.instruction.ExecuteChange?)
  }

  lemma ChangesUntouched(w: World, e: Event)
    requires Apply(w, e).Ok? && !MovesChanges(e)
    ensures Apply(w, e).value.gov.changes == w.gov.changes
  {
    hide Tokens.Transfer, Capacity.Consume, AuthorizeRelease, Withdrawal.Authenticate, Withdrawal.Approve,
      Withdrawal.Propose, Withdrawal.Execute, Withdrawal.Cancel, Withdrawal.Expire;
    if e.Invoke? {
      match e.instruction case _ =>
    }
  }

  lemma MovedOrigin(w: World, e: Event, n: u64)
    requires Apply(w, e).Ok? && MovesChanges(e) && n in Apply(w, e).value.gov.changes
    ensures var q := Apply(w, e).value.gov.changes[n];
      (n in w.gov.changes && SameTerms(w.gov.changes[n], q)) || Admits(e, q)
  {
    hide Control.Propose, Control.Cancel, Control.Execute;
    var g, keys := w.gov, w.terms.config.recoveryKeys;
    match e.instruction {
      case ProposeChange(a, b, successor, kind, recovery, nonce) =>
        ProposeWrites(keys, g, a, b, successor, kind, recovery, nonce, e.now);
      case CancelChange(a, b, nonce) => CancelWrites(keys, g, nonce, a, b);
      case ExecuteChange(nonce) => ExecuteWrites(g, nonce, e.now);
      case _ =>
    }
  }

  lemma ProposeWrites(keys: Committee, g: Governance, a: Key, b: Key, successor: Key, kind: u8, recovery: bool,
          nonce: u64, now: time)
    requires Control.Propose(keys, g, a, b, successor, kind, recovery, nonce, now).Ok?
    ensures var changes := Control.Propose(keys, g, a, b, successor, kind, recovery, nonce, now).value.changes;
      && nonce in changes && changes == g.changes[nonce := changes[nonce]] && changes[nonce].nonce == nonce
      && changes[nonce].createdAt == now && changes[nonce].successor == successor
      && changes[nonce].recovery == recovery && Control.KindOf(kind) == Some(changes[nonce].kind)
  {
    hide Quorum;
  }

  lemma CancelWrites(keys: Committee, g: Governance, nonce: u64, a: Key, b: Key)
    requires nonce in g.changes && Control.Cancel(keys, g, nonce, a, b).Ok?
    ensures Control.Cancel(keys, g, nonce, a, b).value.changes
      == g.changes[nonce := g.changes[nonce].(status := Retracted)]
  {
    hide MayRetract;
  }

  lemma ExecuteWrites(g: Governance, nonce: u64, now: time)
    requires nonce in g.changes && Control.Execute(g, nonce, now).Ok?
    ensures Control.Execute(g, nonce, now).value.changes == g.changes[nonce := g.changes[nonce].(status := Executed)]
  {
  }

  /** A stored change was stored before, or this event put it forward. */
  lemma ChangeOrigin(w: World, e: Event, n: u64)
    requires Apply(w, e).Ok? && n in Apply(w, e).value.gov.changes
    ensures var q := Apply(w, e).value.gov.changes[n];
      (n in w.gov.changes && SameTerms(w.gov.changes[n], q)) || Admits(e, q)
  {
    hide Step;
    if MovesChanges(e) {
      MovedOrigin(w, e, n);
    } else {
      ChangesUntouched(w, e);
    }
  }

  lemma GenesisChanges(w: World)
    requires Genesis(w)
    ensures w.gov.changes == map[]
  {
    hide Validate;
    var p, consent, tokens, now :| Safety.Admits(p, consent, tokens, now, w);
  }

  lemma SameAdmission(e: Event, q: Change, q': Change)
    requires Admits(e, q) && SameTerms(q, q')
    ensures Admits(e, q')
  {
  }

  lemma AdmitsProposal(e: Event, q: Change)
    requires Admits(e, q)
    ensures e.Invoke? && e.instruction.ProposeChange?
  {
  }

  /** Every stored change was put forward by a committed event of the run, when it was created, signed as it must be. */
  lemma {:induction false} ChangesAdmitted(w: World, events: seq<Event>, j: nat, n: u64) returns (i: nat)
    requires Genesis(w) && j <= |events| && n in At(w, events, j).gov.changes
    ensures i < j && Committed(w, events, i) && Admits(events[i], At(w, events, j).gov.changes[n])
    ensures Signed(w.terms.config, At(w, events, i).gov, events[i])
    decreases j
  {
    hide Genesis, Apply, Admits, Signed, Inv;
    if j == 0 {
      GenesisChanges(w);
    } else {
      AtNext(w, events, j - 1);
      var last, e := At(w, events, j - 1), events[j - 1];
      if Committed(w, events, j - 1) {
        ChangeOrigin(last, e, n);
        var q := At(w, events, j).gov.changes[n];
        if Admits(e, q) {
          i := j - 1;
          Reached(w, events, i);
          AdmitsProposal(e, q);
          ProposalSigned(last, e);
        } else {
          i := ChangesAdmitted(w, events, j - 1, n);
          SameAdmission(events[i], last.gov.changes[n], q);
        }
      } else {
        i := ChangesAdmitted(w, events, j - 1, n);
      }
    }
  }

  function Holder(g: Governance, kind: ChangeKind): Key { if kind.ChangeOracle? then g.oracle else g.controller }

  lemma ExecutedFacts(w: World, now: time, nonce: u64)
    requires Inv(w) && Step(w, now, ExecuteChange(nonce)).Ok?
    ensures nonce in w.gov.changes
    ensures var q, g := w.gov.changes[nonce], Step(w, now, ExecuteChange(nonce)).value.gov;
      && q.nonce == nonce && q.createdAt + CHANGE_NOTICE <= now && Holder(g, q.kind) == q.successor
      && (q.kind.ChangeOracle? ==> g.controller == w.gov.controller && !g.report.valid && g.oracleActivatedAt == now)
      && (q.kind.ChangeController? ==> g.oracle == w.gov.oracle && g.report == w.gov.report)
  {
    hide LedgerInv, TermsOk, Control.ReportOk, Control.Accepted, Control.ControlMatches;
    Control.PendingExactly(w.terms, w.gov, nonce, w.lastActionAt);
  }

  /**
   An executed change was put forward by an earlier event of the run, at least the full notice before, and makes
   that event's successor the oracle or the controller; the other one stays, and a new oracle starts without a report.
   */
  lemma FullChangeNotice(w: World, events: seq<Event>, j: nat, nonce: u64) returns (i: nat)
    requires Genesis(w) && j < |events| && Committed(w, events, j)
    requires events[j].Invoke? && events[j].instruction == ExecuteChange(nonce)
    ensures i < j && Committed(w, events, i) && events[i].Invoke? && events[i].instruction.ProposeChange?
    ensures events[i].instruction.nonce == nonce && Control.KindOf(events[i].instruction.kind).Some?
    ensures events[i].now + CHANGE_NOTICE <= events[j].now && Signed(w.terms.config, At(w, events, i).gov, events[i])
    ensures var before, after, change := At(w, events, j).gov, At(w, events, j + 1).gov, events[i].instruction;
      var kind := Control.KindOf(change.kind).value;
      && Holder(after, kind) == change.successor
      && (kind.ChangeOracle? ==>
            after.controller == before.controller && !after.report.valid && after.oracleActivatedAt == events[j].now)
      && (kind.ChangeController? ==> after.oracle == before.oracle && after.report == before.report)
  {
    hide Inv, Genesis, Signed;
    AtNext(w, events, j);
    Reached(w, events, j);
    ExecutedFacts(At(w, events, j), events[j].now, nonce);
    i := ChangesAdmitted(w, events, j, nonce);
  }

  /** In a policy that is not cancelled the pending change executes at every time from the end of its notice on. */
  lemma NeverStuck(w: World, events: seq<Event>, now: time)
    requires Genesis(w)
    requires var w' := Run(w, events); w'.phase != Cancelled && w'.gov.pendingChange != 0 && w'.lastActionAt <= now
    ensures var w', n := Run(w, events), Run(w, events).gov.pendingChange;
      && n in w'.gov.changes
      && (Step(w', now, ExecuteChange(n)).Ok? <==> w'.gov.changes[n].createdAt + CHANGE_NOTICE <= now)
  {
    hide Inv, Genesis, Step;
    assert events[..|events|] == events;
    Reached(w, events, |events|);
    NotStuck(Run(w, events), now);
  }

  lemma NotStuck(w: World, now: time)
    requires Inv(w) && w.phase != Cancelled && w.gov.pendingChange != 0 && w.lastActionAt <= now
    ensures var n := w.gov.pendingChange;
      && n in w.gov.changes
      && (Step(w, now, ExecuteChange(n)).Ok? <==> w.gov.changes[n].createdAt + CHANGE_NOTICE <= now)
  {
    hide LedgerInv, TermsOk, Tombstones.RegistryInv, Control.ControlInv, Control.Execute;
    Control.ChangeNeverStuck(w.terms, w.gov, w.lastActionAt, now);
  }
}
