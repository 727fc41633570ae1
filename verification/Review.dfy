/**
 The offline verifier: it replays the permanent histories of a snapshot, rebuilding every key, epoch, pending
 link and key record, checks the accounting, and reports release ceilings.
 */
module Review {
  import opened Basics
  import opened State
  import opened Tombstones
  import opened Launch
  import Withdrawal

  /* ---- What a replay expects of the key records ---- */

  datatype Marks = Marks(history: Mask, pending: Mask)

  const NO_MARKS := Marks(EMPTY_MASK, EMPTY_MASK)

  function MarksOf(marks: map<Key, Marks>, k: Key): Marks { if k in marks then marks[k] else NO_MARKS }

  function MarkStep(marks: map<Key, Marks>, r: Role, q: Proposal): map<Key, Marks> {
    var was := MarksOf(marks, q.successor);
    marks[q.successor :=
      if q.status.Pending? then was.(pending := was.pending.With(r))
      else if q.status.Executed? then was.(history := was.history.With(r))
      else was]
  }

  function MarkAll(marks: map<Key, Marks>, r: Role, qs: seq<Proposal>): map<Key, Marks> {
    if qs == [] then marks else MarkStep(MarkAll(marks, r, qs[..|qs| - 1]), r, qs[|qs| - 1])
  }

  function Successors(qs: seq<Proposal>): set<Key> { set q | q in qs :: q.successor }

  /** One proposal moves only its own role's marks of its own successor. */
  lemma MarkStepMoves(marks: map<Key, Marks>, r: Role, q: Proposal, k: Key)
    ensures var was, m := MarksOf(marks, k), MarksOf(MarkStep(marks, r, q), k);
      && m.history.Has(r) == (was.history.Has(r) || (k == q.successor && q.status.Executed?))
      && m.pending.Has(r) == (was.pending.Has(r) || (k == q.successor && q.status.Pending?))
      && m.history.Has(r.Other()) == was.history.Has(r.Other())
      && m.pending.Has(r.Other()) == was.pending.Has(r.Other())
  {
    if r.Founder? {} else {}
  }

  /** The marks that an accepted history leaves are exactly those of its replay, and nothing else moves. */
  lemma {:induction false} MarksMatchReplay(marks: map<Key, Marks>, owner: Key, guardians: Committee, r: Role,
          qs: seq<Proposal>, at: i64, k: Key)
    requires Accepted(owner, guardians, r, qs, at)
    requires !MarksOf(marks, k).history.Has(r) && !MarksOf(marks, k).pending.Has(r)
    ensures var m, f := MarksOf(MarkAll(marks, r, qs), k), Replay(owner, qs);
      && (m.history.Has(r) <==> k in f.history[1..])
      && (m.pending.Has(r) <==> f.pending == Some(k))
      && m.history.Has(r.Other()) == MarksOf(marks, k).history.Has(r.Other())
      && m.pending.Has(r.Other()) == MarksOf(marks, k).pending.Has(r.Other())
  {
    if qs != [] {
      var before, q := qs[..|qs| - 1], qs[|qs| - 1];
      hide MarkStep;
      MarksMatchReplay(marks, owner, guardians, r, before, at, k);
      MarkStepMoves(MarkAll(marks, r, before), r, q, k);
      var f := Replay(owner, before);
      assert (f.history + [q.successor])[1..] == f.history[1..] + [q.successor];
    }
  }

  /* ---- Withdrawal histories ---- */

  /** What the verifier establishes of one role's proposals and state. */
  ghost predicate LaneVerifies(owner: Key, guardians: Committee, r: Role, lane: Lane, at: i64, now: time) {
    && (forall i :: 1 <= i <= lane.state.sequence ==> i in lane.proposals)
    && var qs := Tombstones.Tombstones(lane.proposals, lane.state.sequence);
    var f := Replay(owner, qs);
    && Accepted(owner, guardians, r, qs, at) && (qs != [] ==> at <= now)
    && lane.state.current == f.Current() && lane.state.epoch == f.Epoch()
    && lane.state.pending == (if f.pending.Some? then lane.state.sequence else 0)
  }

  lemma {:induction false} AcceptedPrefix(owner: Key, guardians: Committee, r: Role, ps: map<u64, Proposal>, n: nat,
          k: nat, at: i64)
    requires k <= n && forall i :: 1 <= i <= n ==> i in ps
    requires Accepted(owner, guardians, r, Tombstones.Tombstones(ps, n), at)
    ensures Accepted(owner, guardians, r, Tombstones.Tombstones(ps, k), at)
    ensures k < n ==> Replay(owner, Tombstones.Tombstones(ps, k)).pending == None
    decreases n
  {
    if k < n {
      assert Tombstones.Tombstones(ps, n)[..n - 1] == Tombstones.Tombstones(ps, n - 1);
      AcceptedPrefix(owner, guardians, r, ps, n - 1, k, at);
    }
  }

  /** What the replay of one more proposal checks of it. */
  predicate ProposalPasses(guardians: Committee, r: Role, f: Fold, q: Proposal, nonce: nat, last: nat, at: i64)
    requires |f.history| > 0
  {
    Admissible(guardians, r, f, q, nonce, at) && Finished(q, at) && (q.status.Pending? ==> nonce == last)
  }

  /** A history verifies only if each of its proposals passes in turn. */
  lemma LanePrefix(owner: Key, guardians: Committee, r: Role, lane: Lane, at: i64, now: time, n: u64)
    requires LaneVerifies(owner, guardians, r, lane, at, now) && 0 < n <= lane.state.sequence
    ensures n in lane.proposals && at <= now && forall i :: 1 <= i < n ==> i in lane.proposals
    ensures ProposalPasses(guardians, r, Replay(owner, Tombstones.Tombstones(lane.proposals, n - 1)),
        lane.proposals[n], n, lane.state.sequence, at)
  {
    var ps := lane.proposals;
    AcceptedPrefix(owner, guardians, r, ps, lane.state.sequence, n, at);
    assert Tombstones.Tombstones(ps, n)[..n - 1] == Tombstones.Tombstones(ps, n - 1);
  }

  lemma LaneExtends(owner: Key, guardians: Committee, r: Role, ps: map<u64, Proposal>, n: u64, last: nat, at: i64)
    requires 0 < n && forall i :: 1 <= i <= n ==> i in ps
    requires Accepted(owner, guardians, r, Tombstones.Tombstones(ps, n - 1), at)
    requires Replay(owner, Tombstones.Tombstones(ps, n - 1)).pending == None
    requires ProposalPasses(guardians, r, Replay(owner, Tombstones.Tombstones(ps, n - 1)), ps[n], n, last, at)
    ensures Tombstones.Tombstones(ps, n) == Tombstones.Tombstones(ps, n - 1) + [ps[n]]
    ensures Accepted(owner, guardians, r, Tombstones.Tombstones(ps, n), at)
    ensures Replay(owner, Tombstones.Tombstones(ps, n))
      == FoldStep(Replay(owner, Tombstones.Tombstones(ps, n - 1)), ps[n])
  {
    assert Tombstones.Tombstones(ps, n)[..n - 1] == Tombstones.Tombstones(ps, n - 1);
  }

  lemma MarkAppends(marks: map<Key, Marks>, r: Role, qs: seq<Proposal>, q: Proposal)
    ensures MarkAll(marks, r, qs + [q]) == MarkStep(MarkAll(marks, r, qs), r, q)
    ensures Successors(qs + [q]) == Successors(qs) + {q.successor}
  {
    assert (qs + [q])[..|qs|] == qs;
  }

  /** The checks of one proposal that do not depend on how it ended. */
  predicate AdmissionPasses(guardians: Committee, r: Role, history: seq<Key>, current: Key, epoch: nat, earliest: i64,
          q: Proposal, n: u64, at: i64, now: time)
  {
    && q.role == r && q.nonce == n
    && q.epoch == epoch && q.predecessor == current
    && q.successor != Default && q.successor !in history && !guardians.Has(q.successor)
    && 0 <= q.validFrom <= q.createdAt <= q.validUntil && q.validUntil - q.validFrom <= MAX_SUBMISSION_WINDOW
    && q.validUntil + CHANGE_NOTICE + PERIOD <= I64_MAX
    && earliest <= q.createdAt <= at <= now && q.executeAfter == q.createdAt + CHANGE_NOTICE
    && q.expiresAt == q.executeAfter + PERIOD
  }

  lemma PassesIs(guardians: Committee, r: Role, f: Fold, q: Proposal, n: u64, last: nat, at: i64, now: time)
    requires |f.history| > 0
    ensures (at <= now && ProposalPasses(guardians, r, f, q, n, last, at)) <==>
      (AdmissionPasses(guardians, r, f.history, f.Current(), f.Epoch(), f.earliest, q, n, at, now)
       && Finished(q, at) && (q.status.Pending? ==> n == last))
  {
  }

  /** Where the replay of `n` proposals stands. */
  ghost predicate Replayed(owner: Key, guardians: Committee, r: Role, lane: Lane, at: i64, now: time,
          marks0: map<Key, Marks>, n: u64, all: seq<Proposal>, f: Fold, marks: map<Key, Marks>, needed: set<Key>)
  {
    && n <= lane.state.sequence && (forall i :: 1 <= i <= n ==> i in lane.proposals)
    && all == Tombstones.Tombstones(lane.proposals, n) && Accepted(owner, guardians, r, all, at)
    && (n > 0 ==> at <= now)
    && f == Replay(owner, all) && (f.pending.Some? ==> n == lane.state.sequence)
    && marks == MarkAll(marks0, r, all) && needed == Successors(all)
  }

  /** The replay after `n` proposals may take the next one. */
  predicate Passes(guardians: Committee, r: Role, lane: Lane, at: i64, now: time, n: u64, f: Fold)
    requires |f.history| > 0 && n < lane.state.sequence
  {
    && n + 1 in lane.proposals && at <= now
    && ProposalPasses(guardians, r, f, lane.proposals[n + 1], n + 1, lane.state.sequence, at)
  }

  lemma ReplayedRefuses(owner: Key, guardians: Committee, r: Role, lane: Lane, at: i64, now: time,
          marks0: map<Key, Marks>, n: u64, all: seq<Proposal>, f: Fold, marks: map<Key, Marks>, needed: set<Key>)
    requires Replayed(owner, guardians, r, lane, at, now, marks0, n, all, f, marks, needed) && n < lane.state.sequence
    ensures |f.history| > 0
    ensures LaneVerifies(owner, guardians, r, lane, at, now) ==> Passes(guardians, r, lane, at, now, n, f)
  {
    hide ProposalPasses, MarkAll;
    if LaneVerifies(owner, guardians, r, lane, at, now) {
      LanePrefix(owner, guardians, r, lane, at, now, n + 1);
    }
  }

  lemma ReplayedNext(owner: Key, guardians: Committee, r: Role, lane: Lane, at: i64, now: time, marks0: map<Key, Marks>,
          n: u64, all: seq<Proposal>, f: Fold, marks: map<Key, Marks>, needed: set<Key>, q: Proposal)
    requires Replayed(owner, guardians, r, lane, at, now, marks0, n, all, f, marks, needed) && n < lane.state.sequence
    requires |f.history| > 0 && Passes(guardians, r, lane, at, now, n, f) && lane.proposals[n + 1] == q
    ensures Replayed(owner, guardians, r, lane, at, now, marks0, n + 1, all + [q], FoldStep(f, q),
        MarkStep(marks, r, q), needed + {q.successor})
    ensures |FoldStep(f, q).history| > 0
  {
    hide ProposalPasses, Accepted, Tombstones.Tombstones, MarkAll, Replay, FoldStep, MarkStep, Successors, LaneVerifies,
      Admissible, Finished;
    LaneReplayed(owner, guardians, r, lane, at, now, marks0, n, all, f, marks, needed);
    LaneExtends(owner, guardians, r, lane.proposals, n + 1, lane.state.sequence, at);
    MarkAppends(marks0, r, all, q);
    PassedPending(guardians, r, f, q, n + 1, lane.state.sequence, at);
  }

  /** Before the last proposal nothing is pending. */
  lemma LaneReplayed(owner: Key, guardians: Committee, r: Role, lane: Lane, at: i64, now: time, marks0: map<Key, Marks>,
          n: u64, all: seq<Proposal>, f: Fold, marks: map<Key, Marks>, needed: set<Key>)
    requires Replayed(owner, guardians, r, lane, at, now, marks0, n, all, f, marks, needed) && n < lane.state.sequence
    ensures Replay(owner, Tombstones.Tombstones(lane.proposals, n)).pending == None
  {
    hide Accepted, MarkAll, Tombstones.Tombstones;
  }

  lemma ReplayedStart(owner: Key, guardians: Committee, r: Role, lane: Lane, at: i64, now: time,
          marks0: map<Key, Marks>)
    ensures Replayed(owner, guardians, r, lane, at, now, marks0, 0, [], Fold([owner], [I64_MIN], I64_MIN, None),
        marks0, {})
  {
  }

  lemma ReplayedDone(owner: Key, guardians: Committee, r: Role, lane: Lane, at: i64, now: time, marks0: map<Key, Marks>,
          all: seq<Proposal>, f: Fold, marks: map<Key, Marks>, needed: set<Key>)
    requires Replayed(owner, guardians, r, lane, at, now, marks0, lane.state.sequence, all, f, marks, needed)
    ensures |f.history| > 0
    ensures LaneVerifies(owner, guardians, r, lane, at, now) <==>
      (lane.state.current == f.Current() && lane.state.epoch == f.Epoch()
       && lane.state.pending == (if f.pending.Some? then lane.state.sequence else 0))
    ensures all == Tombstones.Tombstones(lane.proposals, lane.state.sequence) && f == Replay(owner, all)
    ensures marks == MarkAll(marks0, r, all) && needed == Successors(all)
  {
  }

  lemma PassedPending(guardians: Committee, r: Role, f: Fold, q: Proposal, n: nat, last: nat, at: i64)
    requires |f.history| > 0 && ProposalPasses(guardians, r, f, q, n, last, at)
    ensures (FoldStep(f, q).pending.Some? ==> n == last) && |FoldStep(f, q).history| > 0
  {
  }

  /** Takes a passed proposal's outcome into what the replay has accumulated. */
  method Conclude(f: Fold, q: Proposal) returns (f': Fold)
    ensures f' == FoldStep(f, q)
  {
    f' := f;
    if q.status == Pending {
      f' := f'.(pending := Some(q.successor));
    } else {
      f' := f'.(earliest := q.finishedAt, pending := None);
      if q.status == Executed {
        f' := f'.(history := f'.history + [q.successor], activations := f'.activations + [q.finishedAt]);
      }
    }
  }

  /** Takes a passed proposal's outcome into the expected marks. */
  method Mark(marks: map<Key, Marks>, r: Role, q: Proposal) returns (marks': map<Key, Marks>)
    ensures marks' == MarkStep(marks, r, q)
  {
    var m := MarksOf(marks, q.successor);
    if q.status == Pending {
      m := m.(pending := m.pending.With(r));
    } else if q.status == Executed {
      m := m.(history := m.history.With(r));
    }
    marks' := marks[q.successor := m];
  }

  /** Checks the next proposal against what the replay has accumulated. */
  method Pass(guardians: Committee, r: Role, f: Fold, lane: Lane, n: u64, at: i64, now: time) returns (ok: bool)
    requires |f.history| > 0 && n < lane.state.sequence
    ensures ok <==> Passes(guardians, r, lane, at, now, n, f)
    ensures ok ==> n + 1 in lane.proposals
  {
    if n + 1 !in lane.proposals { return false; }
    var q := lane.proposals[n + 1];
    PassesIs(guardians, r, f, q, n + 1, lane.state.sequence, at, now);
    hide AdmissionPasses, Finished, ProposalPasses;
    if !AdmissionPasses(guardians, r, f.history, f.Current(), f.Epoch(), f.earliest, q, n + 1, at, now) {
      return false;
    }
    ok := Finished(q, at) && (q.status.Pending? ==> n + 1 == lane.state.sequence);
  }

  /** Replays one role's proposals in nonce order. */
  method VerifyLane(owner: Key, guardians: Committee, r: Role, lane: Lane, at: i64, now: time, marks0: map<Key, Marks>)
    returns (ok: bool, f: Fold, marks: map<Key, Marks>, needed: set<Key>, all: seq<Proposal>)
    ensures ok == LaneVerifies(owner, guardians, r, lane, at, now)
    ensures ok ==>
      (all == Tombstones.Tombstones(lane.proposals, lane.state.sequence) && f == Replay(owner, all)
       && marks == MarkAll(marks0, r, all) && needed == Successors(all))
  {
    ok, f, marks, needed, all := false, Fold([owner], [I64_MIN], I64_MIN, None), marks0, {}, [];
    var n: u64 := 0;
    ReplayedStart(owner, guardians, r, lane, at, now, marks0);
    hide *;
    while n < lane.state.sequence
      invariant n <= lane.state.sequence
      invariant !ok && |f.history| > 0 && Replayed(owner, guardians, r, lane, at, now, marks0, n, all, f, marks, needed)
    {
      ReplayedRefuses(owner, guardians, r, lane, at, now, marks0, n, all, f, marks, needed);
      var passes := Pass(guardians, r, f, lane, n, at, now);
      if !passes { return; }
      var q := lane.proposals[n + 1];
      ReplayedNext(owner, guardians, r, lane, at, now, marks0, n, all, f, marks, needed, q);
      n := n + 1;
      needed := needed + {q.successor};
      f := Conclude(f, q);
      marks := Mark(marks, r, q);
      all := all + [q];
    }
    ReplayedDone(owner, guardians, r, lane, at, now, marks0, all, f, marks, needed);
    ok := lane.state.current == f.Current() && lane.state.epoch == f.Epoch()
          && lane.state.pending == (if f.pending.Some? then lane.state.sequence else 0);
  }

  /* ---- Key records and approvals ---- */

  /** A record shows exactly the marks the replays left, and is a recipient's exactly when an approval names its key. */
  predicate RecordPasses(k: Key, record: KeyRecord, marks: map<Key, Marks>, approvals: map<u64, Approval>) {
    && Marks(record.history, record.pending) == MarksOf(marks, k)
    && (record.recipient <==> exists p :: p in approvals && approvals[p].recipientOwner == k)
  }

  /** The verifier's pause test: strictly inside an open or finished proposal. */
  predicate PauseClear(a: Approval, q: Proposal, now: time) {
    !(q.createdAt < a.createdAt < (if q.status == Pending then now + 1 else q.finishedAt))
  }

  predicate CollisionFree(a: Approval, q: Proposal, now: time) {
    && RecipientClear(a, q)
    && (q.role == Treasury ==> PauseClear(a, q, now))
  }

  predicate ApprovalCounters(t: Terms, a: Approval, p: u64, at: i64, now: time) {
    && a.period == p && a.need > 0 && a.consumed <= a.need && a.createdAt <= at <= now
    && a.createdAt < t.config.t0 + a.period * PERIOD
  }

  /** What the verifier asks of one approval, given the treasury's replay and every proposal of both roles. */
  predicate ApprovalPasses(t: Terms, keys: map<Key, KeyRecord>, a: Approval, p: u64, f: Fold, all: seq<Proposal>,
          at: i64, now: time)
    requires |f.history| == |f.activations|
  {
    && ApprovalCounters(t, a, p, at, now)
    && a.recipientOwner in keys && Withdrawal.EligibleRecipient(t, a.recipientOwner, keys[a.recipientOwner])
    && AuthorOk(a, f)
    && forall i :: 0 <= i < |all| ==> CollisionFree(a, all[i], now)
  }

  /** Checks every key record against the marks that the replays left. */
  method VerifyRecords(keys: map<Key, KeyRecord>, marks: map<Key, Marks>, approvals: map<u64, Approval>)
    returns (ok: bool)
    ensures ok <==> forall k :: k in keys ==> RecordPasses(k, keys[k], marks, approvals)
  {
    var todo := keys.Keys;
    while todo != {}
      invariant todo <= keys.Keys
      invariant forall k :: k in keys && k !in todo ==> RecordPasses(k, keys[k], marks, approvals)
      decreases todo
    {
      var k :| k in todo;
      if !RecordPasses(k, keys[k], marks, approvals) { return false; }
      todo := todo - {k};
    }
    return true;
  }

  /** Checks one approval against every proposal. */
  method VerifyCollisions(a: Approval, all: seq<Proposal>, now: time) returns (ok: bool)
    ensures ok <==> forall i :: 0 <= i < |all| ==> CollisionFree(a, all[i], now)
  {
    for i := 0 to |all|
      invariant forall j :: 0 <= j < i ==> CollisionFree(a, all[j], now)
    {
      if !CollisionFree(a, all[i], now) { return false; }
    }
    return true;
  }

  /** Checks every approval. */
  method VerifyApprovals(t: Terms, keys: map<Key, KeyRecord>, approvals: map<u64, Approval>, f: Fold,
          all: seq<Proposal>, at: i64, now: time) returns (ok: bool)
    requires |f.history| == |f.activations|
    ensures ok <==> forall p :: p in approvals ==> ApprovalPasses(t, keys, approvals[p], p, f, all, at, now)
  {
    var todo := approvals.Keys;
    while todo != {}
      invariant todo <= approvals.Keys
      invariant forall p :: p in approvals && p !in todo ==> ApprovalPasses(t, keys, approvals[p], p, f, all, at, now)
      decreases todo
    {
      var p :| p in todo;
      var a := approvals[p];
      if !ApprovalCounters(t, a, p, at, now) || a.recipientOwner !in keys { return false; }
      if !Withdrawal.EligibleRecipient(t, a.recipientOwner, keys[a.recipientOwner]) || !AuthorOk(a, f) { return false; }
      var free := VerifyCollisions(a, all, now);
      if !free { return false; }
      todo := todo - {p};
    }
    return true;
  }

  /* ---- The whole withdrawal review ---- */

  predicate Registration(t: Terms) {
    && ValidCommittee(t.config.founderGuardians) && !t.config.founderGuardians.Has(t.founder)
    && ValidCommittee(t.config.treasuryGuardians) && !t.config.treasuryGuardians.Has(t.treasury)
  }

  /** Both histories replay to the stored state, every record shows its marks, and every approval stands. */
  ghost predicate WithdrawalVerifies(t: Terms, reg: Registry, at: i64, now: time) {
    && Registration(t)
    && Dense(reg.founder.proposals, reg.founder.state.sequence)
    && Dense(reg.treasury.proposals, reg.treasury.state.sequence)
    && LaneVerifies(t.founder, t.config.founderGuardians, Founder, reg.founder, at, now)
    && LaneVerifies(t.treasury, t.config.treasuryGuardians, Treasury, reg.treasury, at, now)
    && var fs, ts := History(reg.founder), History(reg.treasury);
    && |reg.approvals| == reg.approvalCount
    && (forall k :: k in reg.keys ==> RecordPasses(k, reg.keys[k], MarkAll(MarkAll(map[], Founder, fs), Treasury, ts),
        reg.approvals))
    && Successors(fs) + Successors(ts) <= reg.keys.Keys
    && (forall p :: p in reg.approvals ==> ApprovalPasses(t, reg.keys, reg.approvals[p], p, Replay(t.treasury, ts),
        fs + ts, at, now))
  }

  /** No proposal is stored beyond the sequence. */
  predicate Complete(lane: Lane) { forall n :: n in lane.proposals ==> 1 <= n <= lane.state.sequence }

  lemma VerifiedStored(owner: Key, guardians: Committee, r: Role, lane: Lane, at: i64, now: time)
    requires LaneVerifies(owner, guardians, r, lane, at, now)
    ensures Dense(lane.proposals, lane.state.sequence) <==> Complete(lane)
    ensures forall i :: 1 <= i <= lane.state.sequence ==> i in lane.proposals
  {
  }

  /** Reviews both roles' histories, every key record and every approval, and yields the founder's keys. */
  method VerifyWithdrawal(t: Terms, reg: Registry, at: i64, now: time) returns (ok: bool, founderKeys: seq<Key>)
    ensures ok <==> WithdrawalVerifies(t, reg, at, now)
    ensures ok ==> founderKeys == LaneFold(t.founder, reg.founder).history
  {
    hide LaneVerifies, MarkAll, Replay, RecordPasses, ApprovalPasses, Registration, Successors, Tombstones.Tombstones;
    if !Registration(t) { return false, []; }
    var founder, ff, marks, needed, fs :=
      VerifyLane(t.founder, t.config.founderGuardians, Founder, reg.founder, at, now, map[]);
    if !founder { return false, []; }
    VerifiedStored(t.founder, t.config.founderGuardians, Founder, reg.founder, at, now);
    var treasury, tf, marks', needed', ts :=
      VerifyLane(t.treasury, t.config.treasuryGuardians, Treasury, reg.treasury, at, now, marks);
    if !treasury { return false, []; }
    VerifiedStored(t.treasury, t.config.treasuryGuardians, Treasury, reg.treasury, at, now);
    if !Complete(reg.founder) || !Complete(reg.treasury) { return false, []; }
    if |reg.approvals| != reg.approvalCount { return false, []; }
    var records := VerifyRecords(reg.keys, marks', reg.approvals);
    if !records || !(needed + needed' <= reg.keys.Keys) { return false, []; }
    founderKeys := ff.history;
    ok := VerifyApprovals(t, reg.keys, reg.approvals, tf, fs + ts, at, now);
  }
}
