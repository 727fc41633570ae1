/**
 The permanent proposal history of each withdrawal role. Replaying it rebuilds the role's keys, epochs and
 pause; the registry invariant says that every stored field agrees with that replay.
 */
module Tombstones {
  import opened Basics
  import opened State
  import opened Withdrawal

  /** What replaying a role's proposals accumulates. Entry 0 of `history` is the original key. */
  datatype Fold = Fold(history: seq<Key>, activations: seq<i64>, earliest: i64, pending: Option<Key>) {
    function Current(): Key
      requires |history| > 0
    {
      history[|history| - 1]
    }
    function Epoch(): nat
      requires |history| > 0
    {
      |history| - 1
    }
  }

  function FoldStep(f: Fold, q: Proposal): Fold {
    match q.status
    case Pending => f.(pending := Some(q.successor))
    case Executed => Fold(f.history + [q.successor], f.activations + [q.finishedAt], q.finishedAt, None)
    case _ => f.(earliest := q.finishedAt, pending := None)
  }

  function Replay(owner: Key, qs: seq<Proposal>): (f: Fold)
    ensures |f.history| == |f.activations| > 0
  {
    if qs == [] then Fold([owner], [I64_MIN], I64_MIN, None)
    else FoldStep(Replay(owner, qs[..|qs| - 1]), qs[|qs| - 1])
  }

  /** The proposal that may follow a replayed history, whatever its outcome. */
  predicate Admissible(guardians: Committee, r: Role, f: Fold, q: Proposal, nonce: nat, at: i64)
    requires |f.history| > 0
  {
    && q.role == r && q.nonce == nonce
    && q.epoch == f.Epoch() && q.predecessor == f.Current()
    && q.successor != Default && q.successor !in f.history && !guardians.Has(q.successor)
    && 0 <= q.validFrom <= q.createdAt <= q.validUntil
    && q.validUntil - q.validFrom <= MAX_SUBMISSION_WINDOW
    && q.validUntil + CHANGE_NOTICE + EXECUTION_WINDOW <= I64_MAX
    && f.earliest <= q.createdAt <= at
    && q.executeAfter == q.createdAt + CHANGE_NOTICE
    && q.expiresAt == q.executeAfter + EXECUTION_WINDOW
  }

  /** How and when a proposal may have ended. */
  predicate Finished(q: Proposal, at: i64) {
    match q.status
    case Pending => q.finishedAt == 0
    case Executed => q.createdAt <= q.finishedAt <= at && q.executeAfter <= q.finishedAt < q.expiresAt
    case Retracted => q.createdAt <= q.finishedAt <= at
    case Expired => q.expiresAt <= q.finishedAt <= at
  }

  /** Every proposal was admissible after its predecessors, none of which is still pending. */
  predicate Accepted(owner: Key, guardians: Committee, r: Role, qs: seq<Proposal>, at: i64) {
    qs == [] ||
    var before, q := qs[..|qs| - 1], qs[|qs| - 1];
    && Accepted(owner, guardians, r, before, at)
    && Replay(owner, before).pending == None
    && Admissible(guardians, r, Replay(owner, before), q, |qs|, at)
    && Finished(q, at)
  }

  /* ---- The registry invariant ---- */

  /** Proposals exist for exactly the nonces 1 to `n`. */
  ghost predicate Dense(proposals: map<u64, Proposal>, n: nat) {
    && (forall i :: 1 <= i <= n ==> i in proposals)
    && (forall i :: i in proposals ==> 1 <= i <= n)
  }

  /** The first `n` proposals in nonce order. */
  ghost function Tombstones(proposals: map<u64, Proposal>, n: nat): (qs: seq<Proposal>)
    requires forall i :: 1 <= i <= n ==> i in proposals
    ensures |qs| == n
  {
    if n == 0 then [] else Tombstones(proposals, n - 1) + [proposals[n]]
  }

  ghost function History(lane: Lane): seq<Proposal>
    requires Dense(lane.proposals, lane.state.sequence)
  {
    Tombstones(lane.proposals, lane.state.sequence)
  }

  ghost function LaneFold(owner: Key, lane: Lane): (f: Fold)
    requires Dense(lane.proposals, lane.state.sequence)
    ensures |f.history| == |f.activations| > 0
  {
    Replay(owner, History(lane))
  }

  /** A role's stored authority is what its history replays to. */
  ghost predicate StateMatches(rs: RoleState, f: Fold)
    requires |f.history| > 0
  {
    && rs.current == f.Current() && rs.epoch == f.Epoch()
    && rs.pending == (if f.pending.Some? then rs.sequence else 0)
    && (f.pending.Some? ==> rs.epoch < U64_MAX)
  }

  ghost predicate LaneOk(t: Terms, r: Role, lane: Lane, at: i64) {
    && Dense(lane.proposals, lane.state.sequence)
    && Accepted(t.Owner(r), t.config.Guardians(r), r, History(lane), at)
    && StateMatches(lane.state, LaneFold(t.Owner(r), lane))
  }

  /** A key record's masks say exactly whether its key was made current, or is pending, in each role. */
  predicate Indexed(k: Key, record: KeyRecord, r: Role, f: Fold)
    requires |f.history| > 0
  {
    && (record.history.Has(r) <==> k in f.history[1..])
    && (record.pending.Has(r) <==> f.pending == Some(k))
  }

  ghost predicate IndexOk(keys: map<Key, KeyRecord>, r: Role, f: Fold, qs: seq<Proposal>)
    requires |f.history| > 0
  {
    && (forall k :: k in keys ==> Indexed(k, keys[k], r, f))
    && (forall i :: 0 <= i < |qs| ==> qs[i].successor in keys)
  }

  /** The treasury key that signed an approval was current, in its epoch, when it did. */
  predicate AuthorOk(a: Approval, f: Fold)
    requires |f.history| == |f.activations|
  {
    && a.authorEpoch < |f.history| && a.author == f.history[a.authorEpoch]
    && f.activations[a.authorEpoch] <= a.createdAt
    && (a.authorEpoch + 1 < |f.history| ==> a.createdAt <= f.activations[a.authorEpoch + 1])
  }

  /** A recipient was never made current, and is not pending: its proposals ended otherwise, before the approval. */
  predicate RecipientClear(a: Approval, q: Proposal) {
    q.successor == a.recipientOwner ==> (q.status.Retracted? || q.status.Expired?) && q.finishedAt <= a.createdAt
  }

  /** No approval was made while the treasury role was paused by the proposal. */
  predicate OutsidePause(a: Approval, q: Proposal) {
    a.createdAt <= q.createdAt || (!q.status.Pending? && q.finishedAt <= a.createdAt)
  }

  /** An approval made a full period before its period's end, for a marked recipient outside the policy's own keys. */
  predicate ApprovalStands(t: Terms, keys: map<Key, KeyRecord>, a: Approval, period: u64, at: i64) {
    && a.period == period && 0 < a.need && a.consumed <= a.need
    && a.createdAt <= at && a.createdAt < t.config.t0 + period * PERIOD
    && a.recipientOwner in keys && keys[a.recipientOwner].recipient
    && !KnownParty(t, a.recipientOwner)
  }

  predicate ApprovalOk(t: Terms, keys: map<Key, KeyRecord>, a: Approval, period: u64, at: i64) {
    ApprovalStands(t, keys, a, period, at) && t.config.t0 + (period + 1) * PERIOD <= I64_MAX
  }

  ghost predicate Approved(approvals: map<u64, Approval>, owner: Key) {
    exists p :: p in approvals && approvals[p].recipientOwner == owner
  }

  /** No proposal of a lane conflicts with any approval. */
  ghost predicate LaneClear(approvals: map<u64, Approval>, qs: seq<Proposal>) {
    forall p, i :: p in approvals && 0 <= i < |qs| ==> RecipientClear(approvals[p], qs[i])
  }

  ghost predicate LaneUnpaused(approvals: map<u64, Approval>, qs: seq<Proposal>) {
    forall p, i :: p in approvals && 0 <= i < |qs| ==> OutsidePause(approvals[p], qs[i])
  }

  ghost predicate ApprovalsOk(t: Terms, keys: map<Key, KeyRecord>, approvals: map<u64, Approval>, f: Fold, at: i64)
    requires |f.history| == |f.activations|
  {
    && (forall p :: p in approvals ==> ApprovalOk(t, keys, approvals[p], p, at) && AuthorOk(approvals[p], f))
    && (forall k :: k in keys && keys[k].recipient ==> Approved(approvals, k))
  }

  /** What concerns one role: its lane, its bits of the key index, and no conflict with any approval. */
  ghost predicate LaneInv(t: Terms, reg: Registry, r: Role, at: i64) {
    && LaneOk(t, r, reg.Lane(r), at)
    && IndexOk(reg.keys, r, LaneFold(t.Owner(r), reg.Lane(r)), History(reg.Lane(r)))
    && LaneClear(reg.approvals, History(reg.Lane(r)))
    && (r == Treasury ==> LaneUnpaused(reg.approvals, History(reg.Lane(r))))
  }

  ghost predicate ApprovalsInv(t: Terms, reg: Registry, at: i64)
    requires LaneOk(t, Treasury, reg.treasury, at)
  {
    && |reg.approvals| == reg.approvalCount && Default !in reg.keys
    && ApprovalsOk(t, reg.keys, reg.approvals, LaneFold(t.treasury, reg.treasury), at)
  }

  ghost predicate RegistryInv(t: Terms, reg: Registry, at: i64) {
    LaneInv(t, reg, Founder, at) && LaneInv(t, reg, Treasury, at) && ApprovalsInv(t, reg, at)
  }

  /* ---- Facts about accepted histories ---- */

  /** Acceptance only asks that times have passed, so it outlives them. */
  lemma {:induction false} AcceptedLater(owner: Key, guardians: Committee, r: Role, qs: seq<Proposal>, at: i64,
          later: i64)
    requires Accepted(owner, guardians, r, qs, at) && at <= later
    ensures Accepted(owner, guardians, r, qs, later)
  {
    if qs != [] {
      AcceptedLater(owner, guardians, r, qs[..|qs| - 1], at, later);
    }
  }

  predicate Distinct(s: seq<Key>) { forall i, j :: 0 <= i < j < |s| ==> s[i] != s[j] }

  /** Keys are current at most once, in the order of their activations, none of which lies ahead. */
  lemma {:induction false} HistoryFacts(owner: Key, guardians: Committee, r: Role, qs: seq<Proposal>, at: i64)
    requires Accepted(owner, guardians, r, qs, at)
    ensures var f := Replay(owner, qs);
      && Distinct(f.history) && f.history[0] == owner
      && (forall i :: 0 < i < |f.history| ==> !guardians.Has(f.history[i]) && f.history[i] != Default)
      && (forall i :: 0 <= i < |f.activations| ==> f.activations[i] <= f.earliest)
      && (f.earliest <= at || f.earliest == I64_MIN)
      && |f.history| <= |qs| + 1
  {
    if qs != [] {
      HistoryFacts(owner, guardians, r, qs[..|qs| - 1], at);
    }
  }

  /** Every proposal of an accepted history, by how it ended. */
  lemma {:induction false} OutcomeOf(owner: Key, guardians: Committee, r: Role, qs: seq<Proposal>, at: i64, i: nat)
    requires Accepted(owner, guardians, r, qs, at) && i < |qs|
    ensures var f, q := Replay(owner, qs), qs[i];
      && q.role == r && q.nonce == i + 1 && q.successor != owner
      && Finished(q, at) && 0 <= q.createdAt <= at
      && q.executeAfter == q.createdAt + CHANGE_NOTICE && q.expiresAt == q.executeAfter + EXECUTION_WINDOW <= I64_MAX
      && (q.status.Pending? ==>
            i == |qs| - 1 && f.pending == Some(q.successor) && q.epoch == f.Epoch() && q.predecessor == f.Current())
      && (q.status.Executed? ==> q.successor in f.history[1..])
      && (!q.status.Pending? ==> q.finishedAt <= f.earliest)
  {
    var before := qs[..|qs| - 1];
    HistoryFacts(owner, guardians, r, before, at);
    if i < |qs| - 1 {
      OutcomeOf(owner, guardians, r, before, at, i);
      assert before[i] == qs[i];
      var f, f' := Replay(owner, before), Replay(owner, qs);
      assert f.history[1..] <= f'.history[1..];
    } else {
      var f, f' := Replay(owner, before), Replay(owner, qs);
      assert f.history[0] == owner;
      if qs[i].status.Executed? {
        assert f'.history[1..][|f.history| - 1] == qs[i].successor;
      }
    }
  }

  /** A pending replay ends in the pending proposal. */
  lemma PendingIsLast(owner: Key, guardians: Committee, r: Role, qs: seq<Proposal>, at: i64)
    requires Accepted(owner, guardians, r, qs, at) && Replay(owner, qs).pending.Some?
    ensures qs != [] && qs[|qs| - 1].status == Pending && Replay(owner, qs).pending == Some(qs[|qs| - 1].successor)
    ensures Replay(owner, qs[..|qs| - 1]) == Replay(owner, qs).(pending := None)
  {
  }

  /** The first proposals do not depend on later ones. */
  lemma {:induction false} TombstonesFrame(ps: map<u64, Proposal>, ps': map<u64, Proposal>, n: nat)
    requires forall i :: 1 <= i <= n ==> i in ps && i in ps' && ps[i] == ps'[i]
    ensures Tombstones(ps, n) == Tombstones(ps', n)
  {
    if n > 0 {
      TombstonesFrame(ps, ps', n - 1);
    }
  }

  lemma {:induction false} TombstoneAt(ps: map<u64, Proposal>, n: nat, i: nat)
    requires (forall j :: 1 <= j <= n ==> j in ps) && i < n
    ensures Tombstones(ps, n)[i] == ps[i + 1]
  {
    if i < n - 1 {
      TombstoneAt(ps, n - 1, i);
    }
  }
}
