/** The offline verifier's replay of the change history: the current oracle and controller, and what they rest on. */
module ControlReview {
  import opened Basics
  import opened State
  import opened Control
  import Launch

  predicate ReportGenerationPasses(g: Governance) {
    && g.report.epoch <= g.oracleEpoch
    && (if g.report.valid
        then g.report.sequence > 0 && g.report.epoch == g.oracleEpoch && g.oracleActivatedAt <= g.report.at
        else if g.report.sequence != 0 then g.report.epoch < g.oracleEpoch
        else g.report.epoch == 0)
  }

  /** The stored control is what the changes replay to. */
  predicate ControlReplays(c: Config, g: Governance, f: Fold) {
    && g.pendingChange == (if f.pending then g.changeSequence else 0)
    && g.oracle == f.oracle && g.controller == f.controller
    && g.oracleEpoch == f.oracleEpoch && g.controllerEpoch == f.controllerEpoch
    && (match f.maturity case Some(m) => m <= g.oracleActivatedAt case None => g.oracleActivatedAt < c.t0)
  }

  predicate Complete(g: Governance) { forall n :: n in g.changes ==> 1 <= n <= g.changeSequence }

  ghost predicate ChangesVerify(oracle: Key, creator: Key, g: Governance, at: i64, now: time) {
    && (forall i :: 1 <= i <= g.changeSequence ==> i in g.changes)
    && Accepted(oracle, creator, Tombstones(g.changes, g.changeSequence), at)
    && (g.changeSequence > 0 ==> at <= now)
  }

  ghost predicate GovernanceVerifies(t: Terms, g: Governance, at: i64, now: time) {
    && Launch.ValidCommittee(t.config.recoveryKeys) && g.oracleActivatedAt <= at && ReportGenerationPasses(g)
    && Complete(g) && ChangesVerify(t.oracle, t.creator, g, at, now)
    && ControlReplays(t.config, g, Replay(t.oracle, t.creator, Tombstones(g.changes, g.changeSequence)))
  }

  predicate ChangePasses(f: Fold, q: Change, n: u64, last: u64, at: i64) {
    Admissible(f, q, n, at) && (q.status.Pending? ==> n == last)
  }

  lemma {:induction false} AcceptedPrefix(oracle: Key, creator: Key, qs: map<u64, Change>, n: nat, k: nat, at: i64)
    requires k <= n && forall i :: 1 <= i <= n ==> i in qs
    requires Accepted(oracle, creator, Tombstones(qs, n), at)
    ensures Accepted(oracle, creator, Tombstones(qs, k), at)
    ensures k < n ==> !Replay(oracle, creator, Tombstones(qs, k)).pending
    decreases n
  {
    if k < n {
      assert Tombstones(qs, n)[..n - 1] == Tombstones(qs, n - 1);
      AcceptedPrefix(oracle, creator, qs, n - 1, k, at);
    }
  }

  /** Where the replay of `n` changes stands. */
  ghost predicate Replayed(oracle: Key, creator: Key, g: Governance, at: i64, now: time, n: u64, f: Fold) {
    && n <= g.changeSequence && (forall i :: 1 <= i <= n ==> i in g.changes)
    && Accepted(oracle, creator, Tombstones(g.changes, n), at) && (n > 0 ==> at <= now)
    && f == Replay(oracle, creator, Tombstones(g.changes, n)) && (f.pending ==> n == g.changeSequence)
  }

  lemma ChangesPrefix(oracle: Key, creator: Key, g: Governance, at: i64, now: time, n: u64)
    requires ChangesVerify(oracle, creator, g, at, now) && n < g.changeSequence
    ensures n + 1 in g.changes && at <= now && forall i :: 1 <= i <= n ==> i in g.changes
    ensures ChangePasses(Replay(oracle, creator, Tombstones(g.changes, n)), g.changes[n + 1], n + 1, g.changeSequence,
        at)
  {
    AcceptedPrefix(oracle, creator, g.changes, g.changeSequence, n + 1, at);
    assert Tombstones(g.changes, n + 1)[..n] == Tombstones(g.changes, n);
  }

  lemma {:induction false} TombstonesExtend(changes: map<u64, Change>, n: nat)
    requires forall i :: 1 <= i <= n + 1 ==> i in changes
    ensures Tombstones(changes, n + 1) == Tombstones(changes, n) + [changes[n + 1]]
  {
  }

  lemma ChangesExtend(oracle: Key, creator: Key, g: Governance, at: i64, now: time, n: u64, f: Fold)
    requires Replayed(oracle, creator, g, at, now, n, f) && n < g.changeSequence
    requires n + 1 in g.changes && at <= now && ChangePasses(f, g.changes[n + 1], n + 1, g.changeSequence, at)
    ensures Replayed(oracle, creator, g, at, now, n + 1, FoldStep(f, g.changes[n + 1]))
  {
    TombstonesExtend(g.changes, n);
    hide Tombstones, Accepted, Replay;
    Append(oracle, creator, Tombstones(g.changes, n), g.changes[n + 1], at, at);
  }

  lemma ReplayedNext(oracle: Key, creator: Key, g: Governance, at: i64, now: time, n: u64, f: Fold)
    requires Replayed(oracle, creator, g, at, now, n, f) && n < g.changeSequence
    ensures if n + 1 in g.changes && at <= now && ChangePasses(f, g.changes[n + 1], n + 1, g.changeSequence, at)
            then Replayed(oracle, creator, g, at, now, n + 1, FoldStep(f, g.changes[n + 1]))
            else !ChangesVerify(oracle, creator, g, at, now)
  {
    hide Tombstones, Accepted, Replay, ChangePasses, FoldStep, ChangesVerify;
    if n + 1 in g.changes && at <= now && ChangePasses(f, g.changes[n + 1], n + 1, g.changeSequence, at) {
      ChangesExtend(oracle, creator, g, at, now, n, f);
    } else if ChangesVerify(oracle, creator, g, at, now) {
      ChangesPrefix(oracle, creator, g, at, now, n);
    }
  }

  /** Replays the changes in nonce order. */
  method VerifyGovernance(t: Terms, g: Governance, at: i64, now: time) returns (ok: bool)
    ensures ok <==> GovernanceVerifies(t, g, at, now)
  {
    if !Launch.ValidCommittee(t.config.recoveryKeys) || g.oracleActivatedAt > at || !ReportGenerationPasses(g) {
      return false;
    }
    if !Complete(g) { return false; }
    var f := Fold(t.oracle, t.creator, 0, 0, I64_MIN, None, false);
    var n: u64 := 0;
    while n < g.changeSequence
      invariant n <= g.changeSequence
      invariant Replayed(t.oracle, t.creator, g, at, now, n, f)
    {
      hide Replayed, ChangesVerify, Replay, Accepted, ControlReplays;
      ReplayedNext(t.oracle, t.creator, g, at, now, n, f);
      n := n + 1;
      if n !in g.changes || at > now { return false; }
      var q := g.changes[n];
      if !ChangePasses(f, q, n, g.changeSequence, at) { return false; }
      f := f.(earliest := q.createdAt, pending := q.status.Pending?);
      if q.status.Executed? {
        f := f.(earliest := q.executeAfter);
        if q.kind.ChangeOracle? {
          f := f.(oracle := q.successor, oracleEpoch := f.oracleEpoch + 1, maturity := Some(q.executeAfter));
        } else {
          f := f.(controller := q.successor, controllerEpoch := f.controllerEpoch + 1);
        }
      }
    }
    ok := ControlReplays(t.config, g, f);
  }

  /** Every control state that the launch vault can reach verifies, at every later time. */
  lemma ReachableGovernanceVerifies(t: Terms, g: Governance, at: i64, now: time)
    requires ControlInv(t, g, at) && at <= now && Launch.ValidCommittee(t.config.recoveryKeys)
    ensures GovernanceVerifies(t, g, at, now)
  {
    hide Replay, Accepted;
  }
}
