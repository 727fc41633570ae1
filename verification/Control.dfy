/**
 Control of the policy: changes of the oracle and of the controller, each on 90 days' notice, and the
 capacity reports of the current oracle. Replaying the changes rebuilds the current control.
 */
module Control {
  import opened Basics
  import opened State

  function FreshGovernance(creator: Key, oracle: Key, now: time): Governance {
    Governance(oracle, creator, 0, 0, now, 0, 0, map[], NO_REPORT)
  }

  function KindOf(n: u8): Option<ChangeKind> {
    if n == 0 then Some(ChangeOracle) else if n == 1 then Some(ChangeController) else None
  }

  function Propose(keys: Committee, g: Governance, initiator: Key, cosigner: Key, successor: Key, kind: u8,
          recovery: bool, nonce: u64, now: time): Result<Governance>
  {
    if g.pendingChange != 0 then Err(InvalidChange) else
    var next :- CheckedAdd(g.changeSequence, 1, Overflow);
    :- Require(nonce == next, InvalidChange);
    :- if recovery then Require(Quorum(keys, initiator, cosigner), RecoveryQuorum)
       else Require(initiator == g.controller && cosigner == g.controller, Unauthorized);
    :- Require(KindOf(kind).Some?, InvalidChange);
    var current := if KindOf(kind).value.ChangeOracle? then g.oracle else g.controller;
    :- Require(successor != Default && successor != current, InvalidChange);
    var executeAfter :- CheckedAddTime(now, CHANGE_NOTICE);
    var q := Change(nonce, KindOf(kind).value, recovery, successor, g.controllerEpoch, g.oracleEpoch, now,
        executeAfter, Pending);
    Ok(g.(changes := g.changes[nonce := q], changeSequence := nonce, pendingChange := nonce))
  }

  function CheckPending(g: Governance, q: Change): Check {
    Require(q.status == Pending && g.pendingChange == q.nonce && g.changeSequence == q.nonce
            && g.controllerEpoch == q.controllerEpoch && g.oracleEpoch == q.oracleEpoch, InvalidChange)
  }

  function Cancel(keys: Committee, g: Governance, nonce: u64, a: Key, b: Key): Result<Governance>
    requires nonce in g.changes
  {
    var q := g.changes[nonce];
    :- CheckPending(g, q);
    :- Require(MayRetract(keys, g.controller, q.successor, q.recovery, a, b), Unauthorized);
    Ok(g.(changes := g.changes[nonce := q.(status := Retracted)], pendingChange := 0))
  }

  function Execute(g: Governance, nonce: u64, now: time): Result<Governance>
    requires nonce in g.changes
  {
    var q := g.changes[nonce];
    :- CheckPending(g, q);
    :- Require(now >= q.executeAfter, Error.ChangeNotice);
    var epoch :- CheckedAdd(if q.kind.ChangeOracle? then g.oracleEpoch else g.controllerEpoch, 1, Overflow);
    var done := g.(changes := g.changes[nonce := q.(status := Executed)], pendingChange := 0);
    Ok(match q.kind
       case ChangeOracle =>
         done.(oracle := q.successor, oracleEpoch := epoch, oracleActivatedAt := now, report :=
             g.report.(valid := false))
       case ChangeController => done.(controller := q.successor, controllerEpoch := epoch))
  }

  function ReportCapacity(c: Config, g: Governance, capacity: u64, observedAt: i64, sequence: u64, epoch: u64,
          now: time): Result<Governance>
  {
    var period :- PeriodAt(c.t0, now);
    var start := PeriodStart(c.t0, period);
    :- Require(epoch == g.oracleEpoch && observedAt >= g.oracleActivatedAt && sequence > g.report.sequence
               && observedAt >= g.report.at, InvalidReport);
    var first :- start;
    :- Require(observedAt >= first && observedAt <= now, InvalidReport);
    :- Require(now - observedAt <= I64_MAX, Overflow);
    :- Require(now - observedAt <= c.maxReportAge, InvalidReport);
    Ok(g.(report := Report(period, capacity, observedAt, sequence, epoch, true)))
  }

  /* ---- The invariant: replaying the changes rebuilds control ---- */

  datatype Fold = Fold(oracle: Key, controller: Key, oracleEpoch: nat, controllerEpoch: nat, earliest: i64,
      maturity: Option<i64>, pending: bool)

  function FoldStep(f: Fold, q: Change): Fold {
    match q.status
    case Pending => f.(earliest := q.createdAt, pending := true)
    case Executed =>
      if q.kind.ChangeOracle?
      then f.(oracle := q.successor, oracleEpoch := f.oracleEpoch + 1, earliest := q.executeAfter,
          maturity := Some(q.executeAfter), pending := false)
      else f.(controller := q.successor, controllerEpoch := f.controllerEpoch + 1, earliest :=
          q.executeAfter, pending := false)
    case _ => f.(earliest := q.createdAt, pending := false)
  }

  function Replay(oracle: Key, creator: Key, qs: seq<Change>): Fold {
    if qs == [] then Fold(oracle, creator, 0, 0, I64_MIN, None, false)
    else FoldStep(Replay(oracle, creator, qs[..|qs| - 1]), qs[|qs| - 1])
  }

  predicate Admissible(f: Fold, q: Change, nonce: nat, at: i64) {
    && q.nonce == nonce && !q.status.Expired?
    && q.oracleEpoch == f.oracleEpoch && q.controllerEpoch == f.controllerEpoch
    && q.successor != Default && q.successor != (if q.kind.ChangeOracle? then f.oracle else f.controller)
    && f.earliest <= q.createdAt <= at && q.executeAfter == q.createdAt + CHANGE_NOTICE
    && (q.status.Executed? ==> q.executeAfter <= at)
  }

  predicate Accepted(oracle: Key, creator: Key, qs: seq<Change>, at: i64) {
    qs == [] ||
    var before, q := qs[..|qs| - 1], qs[|qs| - 1];
    && Accepted(oracle, creator, before, at)
    && !Replay(oracle, creator, before).pending
    && Admissible(Replay(oracle, creator, before), q, |qs|, at)
  }

  ghost predicate Dense(changes: map<u64, Change>, n: nat) {
    && (forall i :: 1 <= i <= n ==> i in changes)
    && (forall i :: i in changes ==> 1 <= i <= n)
  }

  ghost function Tombstones(changes: map<u64, Change>, n: nat): (qs: seq<Change>)
    requires forall i :: 1 <= i <= n ==> i in changes
    ensures |qs| == n
  {
    if n == 0 then [] else Tombstones(changes, n - 1) + [changes[n]]
  }

  ghost function History(g: Governance): seq<Change>
    requires Dense(g.changes, g.changeSequence)
  {
    Tombstones(g.changes, g.changeSequence)
  }

  /** A report belongs to an oracle that was current and active when it was observed. */
  predicate ReportOk(c: Config, g: Governance, at: i64) {
    var r := g.report;
    && r.epoch <= g.oracleEpoch
    && (r.valid ==> r.sequence > 0 && r.epoch == g.oracleEpoch && g.oracleActivatedAt <= r.at)
    && (!r.valid && r.sequence > 0 ==> r.epoch < g.oracleEpoch)
    && (r.sequence == 0 ==> r == NO_REPORT)
    && (r.sequence > 0 ==> r.at <= at && c.t0 + r.period * PERIOD <= r.at < c.t0 + (r.period + 1) * PERIOD)
  }

  predicate ControlMatches(c: Config, g: Governance, f: Fold, at: i64) {
    && g.oracle == f.oracle && g.controller == f.controller
    && g.oracleEpoch == f.oracleEpoch && g.controllerEpoch == f.controllerEpoch
    && g.pendingChange == (if f.pending then g.changeSequence else 0)
    && g.oracleActivatedAt <= at
    && (match f.maturity case Some(m) => m <= g.oracleActivatedAt case None => g.oracleActivatedAt < c.t0)
  }

  ghost predicate ControlInv(t: Terms, g: Governance, at: i64) {
    && Dense(g.changes, g.changeSequence)
    && Accepted(t.oracle, t.creator, History(g), at)
    && ControlMatches(t.config, g, Replay(t.oracle, t.creator, History(g)), at)
    && ReportOk(t.config, g, at)
  }

  /* ---- Proofs ---- */

  lemma {:induction false} AcceptedLater(oracle: Key, creator: Key, qs: seq<Change>, at: i64, later: i64)
    requires Accepted(oracle, creator, qs, at) && at <= later
    ensures Accepted(oracle, creator, qs, later)
  {
    if qs != [] {
      AcceptedLater(oracle, creator, qs[..|qs| - 1], at, later);
    }
  }

  lemma {:induction false} EarliestPassed(oracle: Key, creator: Key, qs: seq<Change>, at: i64)
    requires Accepted(oracle, creator, qs, at)
    ensures Replay(oracle, creator, qs).earliest <= at
  {
    if qs != [] {
      EarliestPassed(oracle, creator, qs[..|qs| - 1], at);
    }
  }

  lemma {:induction false} TombstonesFrame(ps: map<u64, Change>, ps': map<u64, Change>, n: nat)
    requires forall i :: 1 <= i <= n ==> i in ps && i in ps' && ps[i] == ps'[i]
    ensures Tombstones(ps, n) == Tombstones(ps', n)
  {
    if n > 0 {
      TombstonesFrame(ps, ps', n - 1);
    }
  }

  lemma {:induction false} TombstoneAt(ps: map<u64, Change>, n: nat, i: nat)
    requires (forall j :: 1 <= j <= n ==> j in ps) && i < n
    ensures Tombstones(ps, n)[i] == ps[i + 1]
  {
    if i < n - 1 {
      TombstoneAt(ps, n - 1, i);
    }
  }

  /** A change of an accepted history carries its own nonce, and only the last can be pending. */
  lemma {:induction false} ChangeOf(oracle: Key, creator: Key, qs: seq<Change>, at: i64, i: nat)
    requires Accepted(oracle, creator, qs, at) && i < |qs|
    ensures qs[i].nonce == i + 1 && qs[i].executeAfter == qs[i].createdAt + CHANGE_NOTICE
    ensures qs[i].status.Pending? ==> i == |qs| - 1 && Replay(oracle, creator, qs).pending
  {
    if i < |qs| - 1 {
      ChangeOf(oracle, creator, qs[..|qs| - 1], at, i);
      assert qs[..|qs| - 1][i] == qs[i];
    }
  }

  lemma FreshOk(t: Terms, now: time)
    requires now < t.config.t0
    ensures ControlInv(t, FreshGovernance(t.creator, t.oracle, now), now)
  {
  }

  lemma ControlLater(t: Terms, g: Governance, at: i64, now: i64)
    requires ControlInv(t, g, at) && at <= now
    ensures ControlInv(t, g, now)
  {
    AcceptedLater(t.oracle, t.creator, History(g), at, now);
  }

  lemma Append(oracle: Key, creator: Key, qs: seq<Change>, q: Change, at: i64, now: i64)
    requires Accepted(oracle, creator, qs, at) && at <= now && !Replay(oracle, creator, qs).pending
    requires Admissible(Replay(oracle, creator, qs), q, |qs| + 1, now)
    ensures Accepted(oracle, creator, qs + [q], now)
    ensures Replay(oracle, creator, qs + [q]) == FoldStep(Replay(oracle, creator, qs), q)
  {
    assert (qs + [q])[..|qs|] == qs;
    AcceptedLater(oracle, creator, qs, at, now);
  }

  lemma {:induction false} DenseAppends(ps: map<u64, Change>, n: u64, q: Change)
    requires n > 0 && Dense(ps, n - 1)
    ensures Dense(ps[n := q], n) && Tombstones(ps[n := q], n) == Tombstones(ps, n - 1) + [q] && n !in ps
  {
    var ps' := ps[n := q];
    assert Dense(ps', n);
    assert Tombstones(ps', n - 1) == Tombstones(ps, n - 1) by {
      TombstonesFrame(ps, ps', n - 1);
    }
    hide Dense;
  }

  lemma ReportLater(c: Config, g: Governance, g': Governance, at: i64, now: i64)
    requires ReportOk(c, g, at) && at <= now
    requires g'.report == g.report && g'.oracleEpoch == g.oracleEpoch && g'.oracleActivatedAt == g.oracleActivatedAt
    ensures ReportOk(c, g', now)
  {
  }

  lemma ProposedAdmissible(t: Terms, g: Governance, initiator: Key, cosigner: Key, successor: Key, kind: u8,
          recovery: bool, nonce: u64, at: i64, now: time)
    requires ControlInv(t, g, at) && at <= now
    requires Propose(t.config.recoveryKeys, g, initiator, cosigner, successor, kind, recovery, nonce, now).Ok?
    ensures var g' := Propose(t.config.recoveryKeys, g, initiator, cosigner, successor, kind, recovery, nonce,
        now).value;
      && nonce == g.changeSequence + 1 && g.pendingChange == 0
      && g' == g.(changes := g.changes[nonce := g'.changes[nonce]], changeSequence := nonce, pendingChange := nonce)
      && g'.changes[nonce].status == Pending && g'.changes[nonce].createdAt <= now
      && Admissible(Replay(t.oracle, t.creator, History(g)), g'.changes[nonce], nonce, now)
  {
    hide Accepted, Replay, ReportOk, Tombstones, Quorum;
    EarliestPassed(t.oracle, t.creator, History(g), at);
  }

  lemma PendingStep(f: Fold, q: Change)
    requires q.status == Pending
    ensures FoldStep(f, q) == f.(earliest := q.createdAt, pending := true)
  {
  }

  lemma ProposeKeeps(t: Terms, g: Governance, initiator: Key, cosigner: Key, successor: Key, kind: u8, recovery: bool,
          nonce: u64, at: i64, now: time)
    requires ControlInv(t, g, at) && at <= now
    requires Propose(t.config.recoveryKeys, g, initiator, cosigner, successor, kind, recovery, nonce, now).Ok?
    ensures ControlInv(t, Propose(t.config.recoveryKeys, g, initiator, cosigner, successor, kind, recovery, nonce,
        now).value, now)
    ensures nonce !in g.changes
  {
    hide Accepted, Replay, ReportOk, Tombstones, Admissible;
    var g' := Propose(t.config.recoveryKeys, g, initiator, cosigner, successor, kind, recovery, nonce, now).value;
    NotPending(t, g, at);
    ProposedAdmissible(t, g, initiator, cosigner, successor, kind, recovery, nonce, at, now);
    DenseAppends(g.changes, nonce, g'.changes[nonce]);
    Append(t.oracle, t.creator, History(g), g'.changes[nonce], at, now);
    PendingStep(Replay(t.oracle, t.creator, History(g)), g'.changes[nonce]);
    hide FoldStep;
    ReportLater(t.config, g, g', at, now);
  }

  lemma NotPending(t: Terms, g: Governance, at: i64)
    requires ControlInv(t, g, at)
    ensures g.pendingChange == 0 <==> !Replay(t.oracle, t.creator, History(g)).pending
  {
  }

  /** Replacing the pending change by its outcome. */
  lemma ReplaceLast(oracle: Key, creator: Key, qs: seq<Change>, q': Change, at: i64, now: i64)
    requires qs != [] && Accepted(oracle, creator, qs, at) && at <= now && qs[|qs| - 1].status == Pending
    requires q' == qs[|qs| - 1].(status := q'.status)
    requires (q'.status == Retracted || (q'.status == Executed && q'.executeAfter <= now))
    ensures var f := Replay(oracle, creator, qs[..|qs| - 1]);
      && Accepted(oracle, creator, qs[..|qs| - 1] + [q'], now)
      && Replay(oracle, creator, qs[..|qs| - 1] + [q']) == FoldStep(f, q')
      && Replay(oracle, creator, qs) == f.(earliest := q'.createdAt, pending := true)
  {
    Append(oracle, creator, qs[..|qs| - 1], q', at, now);
  }

  /** Under the invariant a change may end exactly when it is pending. */
  lemma PendingExactly(t: Terms, g: Governance, nonce: u64, at: i64)
    requires ControlInv(t, g, at) && nonce in g.changes
    ensures var q := g.changes[nonce];
      && q.nonce == nonce && q.executeAfter == q.createdAt + CHANGE_NOTICE && History(g)[nonce - 1] == q
      && (CheckPending(g, q).Pass? <==> q.status == Pending)
      && (q.status == Pending ==> nonce == g.changeSequence)
  {
    TombstoneAt(g.changes, g.changeSequence, nonce - 1);
    ChangeOf(t.oracle, t.creator, History(g), at, nonce - 1);
  }

  /** The history after the pending change took another status. */
  lemma EndHistory(t: Terms, g: Governance, nonce: u64, status: Status, at: i64, now: i64)
    requires ControlInv(t, g, at) && at <= now && nonce in g.changes && g.changes[nonce].status == Pending
    requires status == Retracted || (status == Executed && g.changes[nonce].executeAfter <= now)
    ensures nonce == g.changeSequence
    ensures var changes', q' :=
      g.changes[nonce := g.changes[nonce].(status := status)], g.changes[nonce].(status := status);
      var qs', f := Tombstones(changes', g.changeSequence), Replay(t.oracle, t.creator, History(g));
      && Dense(changes', g.changeSequence)
      && Accepted(t.oracle, t.creator, qs', now)
      && var f' := Replay(t.oracle, t.creator, qs');
      && f'.pending == false
      && (status == Retracted ==> f' == f.(pending := false))
      && (status == Executed ==> f' == FoldStep(f, q'))
  {
    PendingExactly(t, g, nonce, at);
    var changes', q' := g.changes[nonce := g.changes[nonce].(status := status)], g.changes[nonce].(status := status);
    TombstonesFrame(g.changes, changes', g.changeSequence - 1);
    ReplaceLast(t.oracle, t.creator, History(g), q', at, now);
    assert History(g)[..g.changeSequence - 1] == Tombstones(g.changes, g.changeSequence - 1);
  }

  lemma CancelKeeps(t: Terms, g: Governance, nonce: u64, a: Key, b: Key, at: i64, now: time)
    requires ControlInv(t, g, at) && at <= now && nonce in g.changes
    requires Cancel(t.config.recoveryKeys, g, nonce, a, b).Ok?
    ensures ControlInv(t, Cancel(t.config.recoveryKeys, g, nonce, a, b).value, now)
  {
    hide Accepted, Replay, Tombstones, MayRetract;
    EndHistory(t, g, nonce, Retracted, at, now);
  }

  lemma ExecuteKeeps(t: Terms, g: Governance, nonce: u64, at: i64, now: time)
    requires ControlInv(t, g, at) && at <= now && nonce in g.changes && Execute(g, nonce, now).Ok?
    ensures ControlInv(t, Execute(g, nonce, now).value, now)
  {
    hide Accepted, Replay, Tombstones;
    EndHistory(t, g, nonce, Executed, at, now);
  }

  lemma ReportKeeps(t: Terms, g: Governance, capacity: u64, observedAt: i64, sequence: u64, epoch: u64, at: i64,
          now: time)
    requires ControlInv(t, g, at) && at <= now && 0 <= t.config.t0
    requires ReportCapacity(t.config, g, capacity, observedAt, sequence, epoch, now).Ok?
    ensures ControlInv(t, ReportCapacity(t.config, g, capacity, observedAt, sequence, epoch, now).value, now)
  {
    ControlLater(t, g, at, now);
    PeriodContains(t.config.t0, now, PeriodAt(t.config.t0, now).value);
  }

  /** Every executed change raised one epoch by one, so epochs stay below the number of changes. */
  lemma {:induction false} EpochsBelow(oracle: Key, creator: Key, qs: seq<Change>, at: i64)
    requires Accepted(oracle, creator, qs, at)
    ensures var f := Replay(oracle, creator, qs);
      f.oracleEpoch + f.controllerEpoch + (if f.pending then 1 else 0) <= |qs|
  {
    if qs != [] {
      EpochsBelow(oracle, creator, qs[..|qs| - 1], at);
    }
  }

  /** A pending change is never stuck: it executes at every time from the end of its notice on, and at none before. */
  lemma ChangeNeverStuck(t: Terms, g: Governance, at: i64, now: time)
    requires ControlInv(t, g, at) && at <= now && g.pendingChange != 0
    ensures g.pendingChange in g.changes
    ensures Execute(g, g.pendingChange, now).Ok? <==> g.changes[g.pendingChange].createdAt + CHANGE_NOTICE <= now
  {
    hide Replay, Tombstones, ReportOk;
    var n := g.changeSequence;
    EpochsBelow(t.oracle, t.creator, History(g), at);
    PendingExactly(t, g, n, at);
    ChangeOf(t.oracle, t.creator, History(g), at, n - 1);
    LastPending(t.oracle, t.creator, History(g), at);
    hide Accepted;
  }

  lemma LastPending(oracle: Key, creator: Key, qs: seq<Change>, at: i64)
    requires Accepted(oracle, creator, qs, at)
    ensures Replay(oracle, creator, qs).pending ==> qs != [] && qs[|qs| - 1].status == Pending
  {
  }
}
