/** Every withdrawal instruction keeps the registry invariant, and what each does to the histories. */
module RegistryProofs {
  import opened Basics
  import opened State
  import opened Withdrawal
  import opened Tombstones

  /* ---- One lane ---- */

  lemma LaneLater(t: Terms, r: Role, lane: Lane, at: i64, now: i64)
    requires LaneOk(t, r, lane, at) && at <= now
    ensures LaneOk(t, r, lane, now)
  {
    AcceptedLater(t.Owner(r), t.config.Guardians(r), r, History(lane), at, now);
  }

  lemma LaneFacts(t: Terms, r: Role, lane: Lane, at: i64)
    requires LaneOk(t, r, lane, at)
    ensures var f := LaneFold(t.Owner(r), lane);
      && Distinct(f.history) && f.history[0] == t.Owner(r)
      && (f.earliest <= at || f.earliest == I64_MIN)
      && (forall i :: 0 <= i < |f.activations| ==> f.activations[i] <= f.earliest)
  {
    HistoryFacts(t.Owner(r), t.config.Guardians(r), r, History(lane), at);
  }

  /** A stored proposal, by how it ended. */
  lemma LaneOutcome(t: Terms, r: Role, lane: Lane, at: i64, i: nat)
    requires LaneOk(t, r, lane, at) && i < |History(lane)|
    ensures var f, q := LaneFold(t.Owner(r), lane), History(lane)[i];
      && q == lane.proposals[i + 1] && q.role == r && q.nonce == i + 1
      && Finished(q, at) && 0 <= q.createdAt <= at
      && q.executeAfter == q.createdAt + CHANGE_NOTICE && q.expiresAt == q.executeAfter + EXECUTION_WINDOW <= I64_MAX
      && (q.status.Pending? ==>
            i + 1 == lane.state.sequence == lane.state.pending && f.pending == Some(q.successor)
            && q.epoch == f.Epoch() && q.predecessor == f.Current())
      && (q.status.Executed? ==> q.successor in f.history[1..])
      && (!q.status.Pending? ==> q.finishedAt <= f.earliest)
  {
    OutcomeOf(t.Owner(r), t.config.Guardians(r), r, History(lane), at, i);
    TombstoneAt(lane.proposals, lane.state.sequence, i);
  }

  /** Appending an admissible pending proposal to a settled history. */
  lemma AppendPending(owner: Key, guardians: Committee, r: Role, qs: seq<Proposal>, q: Proposal, at: i64, now: i64)
    requires Accepted(owner, guardians, r, qs, at) && at <= now && Replay(owner, qs).pending == None
    requires Admissible(guardians, r, Replay(owner, qs), q, |qs| + 1, now) && q.status == Pending && q.finishedAt == 0
    ensures Accepted(owner, guardians, r, qs + [q], now)
    ensures Replay(owner, qs + [q]) == Replay(owner, qs).(pending := Some(q.successor))
  {
    assert (qs + [q])[..|qs|] == qs;
    AcceptedLater(owner, guardians, r, qs, at, now);
  }

  lemma DenseAppends(ps: map<u64, Proposal>, n: u64, q: Proposal)
    requires n > 0 && Dense(ps, n - 1)
    ensures Dense(ps[n := q], n) && Tombstones.Tombstones(ps[n := q], n) == Tombstones.Tombstones(ps, n - 1) + [q]
  {
    TombstonesFrame(ps, ps[n := q], n - 1);
  }

  lemma DenseReplaces(ps: map<u64, Proposal>, n: u64, q: Proposal)
    requires n > 0 && Dense(ps, n)
    ensures Dense(ps[n := q], n) && n in ps
    ensures Tombstones.Tombstones(ps[n := q], n) == Tombstones.Tombstones(ps, n)[..n - 1] + [q]
    ensures Tombstones.Tombstones(ps, n) == Tombstones.Tombstones(ps, n)[..n - 1] + [ps[n]]
  {
    TombstonesFrame(ps, ps[n := q], n - 1);
  }

  lemma LaneAppends(t: Terms, r: Role, lane: Lane, q: Proposal, at: i64, now: i64)
    requires LaneOk(t, r, lane, at) && at <= now && lane.state.pending == 0
    requires lane.state.sequence < U64_MAX && lane.state.epoch < U64_MAX
    requires Admissible(t.config.Guardians(r), r, LaneFold(t.Owner(r), lane), q, lane.state.sequence + 1, now)
    requires q.status == Pending && q.finishedAt == 0
    ensures var n := lane.state.sequence + 1;
      var lane' := Lane(lane.state.(pending := n, sequence := n), lane.proposals[n := q]);
      && LaneOk(t, r, lane', now) && History(lane') == History(lane) + [q]
      && LaneFold(t.Owner(r), lane').history == LaneFold(t.Owner(r), lane).history
      && LaneFold(t.Owner(r), lane').activations == LaneFold(t.Owner(r), lane).activations
      && LaneFold(t.Owner(r), lane').pending == Some(q.successor)
  {
    hide Admissible, Accepted, Replay, Tombstones.Tombstones, Dense;
    var n := lane.state.sequence + 1;
    DenseAppends(lane.proposals, n, q);
    SettledLane(t, r, lane, at);
    AppendPending(t.Owner(r), t.config.Guardians(r), r, History(lane), q, at, now);
  }

  /** An unpaused lane replays to no pending proposal. */
  lemma SettledLane(t: Terms, r: Role, lane: Lane, at: i64)
    requires LaneOk(t, r, lane, at)
    ensures lane.state.pending == 0 <==> LaneFold(t.Owner(r), lane).pending == None
  {
    if LaneFold(t.Owner(r), lane).pending.Some? {
      PendingIsLast(t.Owner(r), t.config.Guardians(r), r, History(lane), at);
    }
  }

  /** Replacing the pending proposal by its outcome. */
  lemma ReplaceLast(owner: Key, guardians: Committee, r: Role, qs: seq<Proposal>, q': Proposal, at: i64, now: i64)
    requires qs != [] && Accepted(owner, guardians, r, qs, at) && at <= now && qs[|qs| - 1].status == Pending
    requires q' == qs[|qs| - 1].(status := q'.status, finishedAt := q'.finishedAt) && Finished(q', now)
    ensures Accepted(owner, guardians, r, qs[..|qs| - 1] + [q'], now)
    ensures Replay(owner, qs[..|qs| - 1] + [q']) == FoldStep(Replay(owner, qs).(pending := None), q')
  {
    var before := qs[..|qs| - 1];
    assert (before + [q'])[..|before|] == before;
    AcceptedLater(owner, guardians, r, before, at, now);
  }

  /** The state of a lane whose pending proposal ended. */
  function EndedState(rs: RoleState, status: Status, successor: Key): RoleState
    requires status == Executed ==> rs.epoch < U64_MAX
  {
    if status == Executed then RoleState(successor, rs.epoch + 1, rs.sequence, 0) else rs.(pending := 0)
  }

  lemma LaneEnds(t: Terms, r: Role, lane: Lane, status: Status, at: i64, now: time)
    requires LaneOk(t, r, lane, at) && at <= now && lane.state.pending != 0 && status != Pending
    requires Finished(lane.proposals[lane.state.sequence].(status := status, finishedAt := now), now)
    ensures lane.state.epoch < U64_MAX
    ensures var n, q := lane.state.sequence, lane.proposals[lane.state.sequence];
      var q' := q.(status := status, finishedAt := now);
      var lane' := Lane(EndedState(lane.state, status, q.successor), lane.proposals[n := q']);
      && LaneOk(t, r, lane', now)
      && History(lane') == History(lane)[..n - 1] + [q'] && History(lane) == History(lane)[..n - 1] + [q]
      && var f, f' := LaneFold(t.Owner(r), lane), LaneFold(t.Owner(r), lane');
      && f'.history == f.history + (if status == Executed then [q.successor] else [])
      && f'.activations == f.activations + (if status == Executed then [now] else [])
      && LaneFold(t.Owner(r), lane').pending == None
  {
    var n, q := lane.state.sequence, lane.proposals[lane.state.sequence];
    hide Accepted, Replay, Tombstones.Tombstones, Dense, Finished;
    var q' := q.(status := status, finishedAt := now);
    SettledLane(t, r, lane, at);
    PendingIsLast(t.Owner(r), t.config.Guardians(r), r, History(lane), at);
    DenseReplaces(lane.proposals, n, q');
    ReplaceLast(t.Owner(r), t.config.Guardians(r), r, History(lane), q', at, now);
  }

  lemma LaneDense(t: Terms, reg: Registry, r: Role, at: i64)
    requires LaneInv(t, reg, r, at)
    ensures Dense(reg.Lane(r).proposals, reg.Lane(r).state.sequence)
  {
    hide Dense, Accepted, StateMatches, IndexOk, LaneClear, LaneUnpaused;
  }

  /* ---- The key index ---- */

  /** Every key in a replay after the original is the successor of an executed proposal. */
  lemma {:induction false} HistoryComesFromProposals(owner: Key, qs: seq<Proposal>, k: Key)
    ensures k in Replay(owner, qs).history[1..] ==>
      exists i :: 0 <= i < |qs| && qs[i].successor == k && qs[i].status == Executed
    ensures Replay(owner, qs).pending == Some(k) ==> exists i :: 0 <= i < |qs| && qs[i].successor == k
  {
    if qs != [] {
      var before, q := qs[..|qs| - 1], qs[|qs| - 1];
      HistoryComesFromProposals(owner, before, k);
      var f := Replay(owner, before);
      if k in Replay(owner, qs).history[1..] {
        if k in f.history[1..] {
          var i :| 0 <= i < |before| && before[i].successor == k && before[i].status == Executed;
          assert qs[i] == before[i];
        } else {
          assert q.status == Executed && (f.history + [q.successor])[1..] == f.history[1..] + [q.successor];
          assert qs[|qs| - 1].successor == k;
        }
      }
      if Replay(owner, qs).pending == Some(k) {
        assert qs[|qs| - 1].successor == k;
      }
    }
  }

  /** An index survives changes of the other role's masks and of the recipient marks, and gains blank records. */
  lemma IndexFrame(keys: map<Key, KeyRecord>, keys': map<Key, KeyRecord>, r: Role, owner: Key, qs: seq<Proposal>)
    requires IndexOk(keys, r, Replay(owner, qs), qs)
    requires forall k :: k in keys ==> k in keys'
    requires forall k :: k in keys ==>
      keys'[k].history.Has(r) == keys[k].history.Has(r) && keys'[k].pending.Has(r) == keys[k].pending.Has(r)
    requires forall k :: k in keys' && k !in keys ==> keys'[k].history == EMPTY_MASK && keys'[k].pending == EMPTY_MASK
    ensures IndexOk(keys', r, Replay(owner, qs), qs)
  {
    forall k | k in keys' ensures Indexed(k, keys'[k], r, Replay(owner, qs)) {
      if k in keys {
        assert Indexed(k, keys[k], r, Replay(owner, qs));
      } else {
        HistoryComesFromProposals(owner, qs, k);
      }
    }
  }

  lemma IndexAppends(keys: map<Key, KeyRecord>, r: Role, f: Fold, f': Fold, qs: seq<Proposal>, q: Proposal)
    requires |f.history| > 0 && IndexOk(keys, r, f, qs) && f.pending == None && q.successor in keys
    requires f'.history == f.history && f'.pending == Some(q.successor)
    ensures var record := keys[q.successor];
      IndexOk(keys[q.successor := record.(pending := record.pending.With(r))], r, f', qs + [q])
  {
    var record := keys[q.successor];
    var keys' := keys[q.successor := record.(pending := record.pending.With(r))];
    forall k | k in keys' ensures Indexed(k, keys'[k], r, f') {
      assert Indexed(k, keys[k], r, f);
    }
  }

  function EndedRecord(record: KeyRecord, r: Role, status: Status): KeyRecord {
    KeyRecord(if status == Executed then record.history.With(r)
        else record.history, record.pending.Without(r), record.recipient)
  }

  lemma IndexEnds(keys: map<Key, KeyRecord>, r: Role, f: Fold, f': Fold, before: seq<Proposal>, q: Proposal,
          q': Proposal)
    requires |f.history| > 0 && IndexOk(keys, r, f, before + [q]) && f.pending == Some(q.successor)
    requires q.successor == q'.successor
    requires f'.history == f.history + (if q'.status == Executed then [q.successor] else []) && f'.pending == None
    ensures q.successor in keys
    ensures IndexOk(keys[q.successor := EndedRecord(keys[q.successor], r, q'.status)], r, f', before + [q'])
  {
    assert (before + [q])[|before|] == q;
    var keys' := keys[q.successor := EndedRecord(keys[q.successor], r, q'.status)];
    forall k | k in keys' ensures Indexed(k, keys'[k], r, f') {
      assert Indexed(k, keys[k], r, f);
      assert f'.history[1..] == f.history[1..] + (if q'.status == Executed then [q.successor] else []);
    }
    forall i | 0 <= i < |before + [q']| ensures (before + [q'])[i].successor in keys' {
      assert (before + [q])[i].successor in keys;
    }
  }

  /** A step on role `r` moves only that role's mask bits. */
  ghost predicate OnlyMasksOf(r: Role, keys: map<Key, KeyRecord>, keys': map<Key, KeyRecord>) {
    && (forall k :: k in keys <==> k in keys')
    && (forall k :: k in keys ==> keys'[k].recipient == keys[k].recipient
                                  && keys'[k].history.Has(r.Other()) == keys[k].history.Has(r.Other())
                                  && keys'[k].pending.Has(r.Other()) == keys[k].pending.Has(r.Other()))
  }

  /* ---- Approvals ---- */

  lemma ApprovalsFrame(t: Terms, keys: map<Key, KeyRecord>, keys': map<Key, KeyRecord>, approvals: map<u64, Approval>,
          f: Fold, f': Fold, at: i64, now: i64)
    requires |f.history| == |f.activations| && ApprovalsOk(t, keys, approvals, f, at) && at <= now
    requires forall k :: k in keys ==> k in keys' && keys'[k].recipient == keys[k].recipient
    requires forall k :: k in keys' && k !in keys ==> !keys'[k].recipient
    requires f'.history == f.history && f'.activations == f.activations
    ensures ApprovalsOk(t, keys', approvals, f', now)
  {
    forall p | p in approvals ensures ApprovalOk(t, keys', approvals[p], p, now) {
      assert ApprovalOk(t, keys, approvals[p], p, at);
    }
  }

  /** A new current treasury key leaves earlier authors in their epochs. */
  lemma AuthorsActivate(t: Terms, keys: map<Key, KeyRecord>, approvals: map<u64, Approval>, f: Fold, f': Fold, k: Key,
          at: i64, now: i64)
    requires |f.history| == |f.activations| && ApprovalsOk(t, keys, approvals, f, at) && at <= now
    requires f'.history == f.history + [k] && f'.activations == f.activations + [now]
    ensures forall p :: p in approvals ==> AuthorOk(approvals[p], f')
  {
    forall p | p in approvals ensures AuthorOk(approvals[p], f') {
      assert ApprovalOk(t, keys, approvals[p], p, at) && AuthorOk(approvals[p], f);
    }
  }

  lemma ClearAppends(approvals: map<u64, Approval>, qs: seq<Proposal>, q: Proposal)
    requires LaneClear(approvals, qs) && Unnamed(approvals, q.successor, q.createdAt)
    ensures LaneClear(approvals, qs + [q])
  {
  }

  lemma UnpausedAppends(approvals: map<u64, Approval>, qs: seq<Proposal>, q: Proposal)
    requires LaneUnpaused(approvals, qs) && Unnamed(approvals, q.successor, q.createdAt)
    ensures LaneUnpaused(approvals, qs + [q])
  {
  }

  lemma ClearEnds(approvals: map<u64, Approval>, before: seq<Proposal>, q: Proposal, q': Proposal)
    requires LaneClear(approvals, before + [q]) && q.status == Pending && q'.successor == q.successor
    ensures LaneClear(approvals, before + [q'])
  {
    forall p, i | p in approvals && 0 <= i < |before + [q']| ensures RecipientClear(approvals[p], (before + [q'])[i]) {
      assert RecipientClear(approvals[p], (before + [q])[i]);
    }
  }

  lemma UnpausedEnds(approvals: map<u64, Approval>, before: seq<Proposal>, q: Proposal, q': Proposal)
    requires LaneUnpaused(approvals, before + [q]) && q.status == Pending && q'.createdAt == q.createdAt
    ensures LaneUnpaused(approvals, before + [q'])
  {
    forall p, i | p in approvals && 0 <= i < |before + [q']| ensures OutsidePause(approvals[p], (before + [q'])[i]) {
      assert OutsidePause(approvals[p], (before + [q])[i]);
    }
  }

  /* ---- The registry ---- */

  lemma FreshOk(t: Terms, at: i64)
    ensures RegistryInv(t, FreshRegistry(t), at)
  {
  }

  lemma LaneInvLater(t: Terms, reg: Registry, r: Role, at: i64, now: i64)
    requires LaneInv(t, reg, r, at) && at <= now
    ensures LaneInv(t, reg, r, now)
  {
    LaneLater(t, r, reg.Lane(r), at, now);
  }

  /** Time passing alone keeps the invariant. */
  lemma RegistryLater(t: Terms, reg: Registry, at: i64, now: i64)
    requires RegistryInv(t, reg, at) && at <= now
    ensures RegistryInv(t, reg, now)
  {
    LaneInvLater(t, reg, Founder, at, now);
    LaneInvLater(t, reg, Treasury, at, now);
    var f := LaneFold(t.treasury, reg.treasury);
    ApprovalsFrame(t, reg.keys, reg.keys, reg.approvals, f, f, at, now);
  }

  lemma PrepareKeyKeeps(t: Terms, reg: Registry, subject: Key, at: i64)
    requires RegistryInv(t, reg, at) && subject !in reg.keys && PrepareKey(reg, subject).Ok?
    ensures RegistryInv(t, PrepareKey(reg, subject).value, at)
  {
    var keys' := PrepareKey(reg, subject).value.keys;
    IndexFrame(reg.keys, keys', Founder, t.founder, History(reg.founder));
    IndexFrame(reg.keys, keys', Treasury, t.treasury, History(reg.treasury));
    var f := LaneFold(t.treasury, reg.treasury);
    ApprovalsFrame(t, reg.keys, keys', reg.approvals, f, f, at, at);
  }

  /** A proposal that passes every check is admissible after the history so far. */
  lemma ProposedIsAdmissible(t: Terms, reg: Registry, i: Intent, at: i64, now: time, r: Role)
    requires LaneInv(t, reg, r, at) && at <= now && i.successor in reg.keys && RoleOf(i.role) == Some(r)
    requires Propose(t, reg, i, now).Ok?
    ensures var q := NewProposal(r, i, reg.Lane(r).state.current, now, now + CHANGE_NOTICE,
        now + CHANGE_NOTICE + EXECUTION_WINDOW);
      Admissible(t.config.Guardians(r), r, LaneFold(t.Owner(r), reg.Lane(r)), q, reg.Lane(r).state.sequence + 1, now)
  {
    LaneFacts(t, r, reg.Lane(r), at);
    SettledLane(t, r, reg.Lane(r), at);
    var f := LaneFold(t.Owner(r), reg.Lane(r));
    assert Indexed(i.successor, reg.keys[i.successor], r, f);
    assert f.history == [f.history[0]] + f.history[1..];
  }

  lemma ProposeLane(t: Terms, reg: Registry, i: Intent, at: i64, now: time, r: Role)
    requires LaneInv(t, reg, r, at) && at <= now && i.successor in reg.keys && RoleOf(i.role) == Some(r)
    requires Unnamed(reg.approvals, i.successor, now)
    requires Propose(t, reg, i, now).Ok?
    ensures var reg' := Propose(t, reg, i, now).value;
      var f, f' := LaneFold(t.Owner(r), reg.Lane(r)), LaneFold(t.Owner(r), reg'.Lane(r));
      && LaneInv(t, reg', r, now)
      && f'.history == f.history && f'.activations == f.activations && f'.pending == Some(i.successor)
  {
    hide Accepted, Replay, Tombstones.Tombstones, Dense, Admissible, IndexOk, LaneClear, LaneUnpaused, Unnamed,
      EligibleSuccessor, Quorum;
    var lane, f := reg.Lane(r), LaneFold(t.Owner(r), reg.Lane(r));
    var q := NewProposal(r, i, lane.state.current, now, now + CHANGE_NOTICE, now + CHANGE_NOTICE + EXECUTION_WINDOW);
    ProposedIsAdmissible(t, reg, i, at, now, r);
    SettledLane(t, r, lane, at);
    LaneAppends(t, r, lane, q, at, now);
    IndexAppends(reg.keys, r, f, LaneFold(t.Owner(r), Propose(t, reg, i, now).value.Lane(r)), History(lane), q);
    ClearAppends(reg.approvals, History(lane), q);
    if r == Treasury {
      UnpausedAppends(reg.approvals, History(lane), q);
    }
  }

  /** The other role's lane is untouched by a step on this one. */
  lemma OtherLane(t: Terms, reg: Registry, reg': Registry, r: Role, at: i64, now: i64)
    requires LaneInv(t, reg, r.Other(), at) && at <= now && reg'.Lane(r.Other()) == reg.Lane(r.Other())
    requires reg'.approvals == reg.approvals && OnlyMasksOf(r, reg.keys, reg'.keys)
    ensures LaneInv(t, reg', r.Other(), now)
  {
    var o := r.Other();
    LaneLater(t, o, reg.Lane(o), at, now);
    IndexFrame(reg.keys, reg'.keys, o, t.Owner(o), History(reg.Lane(o)));
  }

  /** Approvals that a proposal of `k` at `now` cannot conflict with. */
  ghost predicate Unnamed(approvals: map<u64, Approval>, k: Key, now: i64) {
    forall p :: p in approvals ==> approvals[p].recipientOwner != k && approvals[p].createdAt <= now
  }

  lemma SuccessorUnapproved(t: Terms, reg: Registry, at: i64, k: Key, now: i64)
    requires LaneOk(t, Treasury, reg.treasury, at) && ApprovalsInv(t, reg, at) && at <= now
    requires k in reg.keys && !reg.keys[k].recipient
    ensures Unnamed(reg.approvals, k, now)
  {
    forall p | p in reg.approvals ensures reg.approvals[p].recipientOwner != k && reg.approvals[p].createdAt <= now {
      assert ApprovalOk(t, reg.keys, reg.approvals[p], p, at);
    }
  }

  /** The approvals' part of the invariant when a step only moves masks and keeps the treasury's history. */
  lemma ApprovalsInvFrame(t: Terms, reg: Registry, reg': Registry, r: Role, at: i64, now: i64)
    requires LaneOk(t, Treasury, reg.treasury, at) && ApprovalsInv(t, reg, at) && at <= now
    requires LaneOk(t, Treasury, reg'.treasury, now)
    requires LaneFold(t.treasury, reg'.treasury).history == LaneFold(t.treasury, reg.treasury).history
    requires LaneFold(t.treasury, reg'.treasury).activations == LaneFold(t.treasury, reg.treasury).activations
    requires reg'.approvals == reg.approvals && reg'.approvalCount == reg.approvalCount
    requires OnlyMasksOf(r, reg.keys, reg'.keys)
    ensures ApprovalsInv(t, reg', now)
  {
    ApprovalsFrame(t, reg.keys, reg'.keys, reg.approvals, LaneFold(t.treasury, reg.treasury),
        LaneFold(t.treasury, reg'.treasury), at, now);
  }

  /** What a successful proposal changes. */
  lemma ProposeChanges(t: Terms, reg: Registry, i: Intent, now: time)
    requires i.successor in reg.keys && Propose(t, reg, i, now).Ok?
    ensures RoleOf(i.role).Some? && !reg.keys[i.successor].recipient
    ensures var reg', r := Propose(t, reg, i, now).value, RoleOf(i.role).value;
      && reg'.Lane(r.Other()) == reg.Lane(r.Other())
      && reg'.approvals == reg.approvals && reg'.approvalCount == reg.approvalCount
      && OnlyMasksOf(r, reg.keys, reg'.keys)
  {
  }

  lemma ProposeKeeps(t: Terms, reg: Registry, i: Intent, at: i64, now: time)
    requires RegistryInv(t, reg, at) && at <= now && i.successor in reg.keys && Propose(t, reg, i, now).Ok?
    ensures RegistryInv(t, Propose(t, reg, i, now).value, now)
  {
    hide Propose, Accepted, Replay, Tombstones.Tombstones, LaneClear, LaneUnpaused, IndexOk, ApprovalsOk, StateMatches;
    ProposeChanges(t, reg, i, now);
    var reg', r := Propose(t, reg, i, now).value, RoleOf(i.role).value;
    SuccessorUnapproved(t, reg, at, i.successor, now);
    ProposeLane(t, reg, i, at, now, r);
    OtherLane(t, reg, reg', r, at, now);
    ApprovalsInvFrame(t, reg, reg', r, at, now);
  }

  /* ---- Ending a proposal ---- */

  /** Under the invariant a proposal's stored id is its own, and it may end exactly when it is pending. */
  lemma PendingExactly(t: Terms, reg: Registry, r: Role, nonce: u64, at: i64)
    requires LaneInv(t, reg, r, at) && nonce in reg.Lane(r).proposals
    ensures var q, rs := reg.Lane(r).proposals[nonce], reg.Lane(r).state;
      && Bound(reg, r, nonce) && q.role == r && q.nonce == nonce
      && (CheckPending(rs, r, q, reg.keys[q.successor]).Pass? <==> q.status == Pending)
      && (q.status == Pending ==> rs.pending == nonce == rs.sequence)
  {
    hide Accepted, Replay, Tombstones.Tombstones, LaneClear, LaneUnpaused;
    var lane := reg.Lane(r);
    LaneOutcome(t, r, lane, at, nonce - 1);
    var q, f := lane.proposals[nonce], LaneFold(t.Owner(r), lane);
    assert History(lane)[nonce - 1] == q;
    if q.status == Pending {
      PendingIsLast(t.Owner(r), t.config.Guardians(r), r, History(lane), at);
      assert Indexed(q.successor, reg.keys[q.successor], r, f);
    }
  }

  /** How a stored proposal ended, read off the store. */
  lemma StoredOutcome(t: Terms, reg: Registry, r: Role, nonce: u64, at: i64)
    requires LaneInv(t, reg, r, at) && nonce in reg.Lane(r).proposals
    ensures var q := reg.Lane(r).proposals[nonce];
      && Finished(q, at) && 0 <= q.createdAt <= at
      && q.executeAfter == q.createdAt + CHANGE_NOTICE && q.expiresAt == q.executeAfter + EXECUTION_WINDOW <= I64_MAX
  {
    LaneOutcome(t, r, reg.Lane(r), at, nonce - 1);
  }

  /** The registry after role `r`'s pending proposal ended. */
  ghost function EndedRegistry(reg: Registry, r: Role, status: Status, now: time): Registry
    requires reg.Lane(r).state.sequence in reg.Lane(r).proposals && Bound(reg, r, reg.Lane(r).state.sequence)
    requires status == Executed ==> reg.Lane(r).state.epoch < U64_MAX
  {
    var lane := reg.Lane(r);
    var n, q := lane.state.sequence, lane.proposals[lane.state.sequence];
    reg.With(r, Lane(EndedState(lane.state, status, q.successor),
        lane.proposals[n := q.(status := status, finishedAt := now)]))
       .(keys := reg.keys[q.successor := EndedRecord(reg.keys[q.successor], r, status)])
  }

  /** The condition under which a pending proposal may end with a given outcome at a given time. */
  ghost predicate MayEnd(reg: Registry, r: Role, status: Status, now: time) {
    && var lane := reg.Lane(r);
    && lane.state.pending != 0 && status != Pending
    && lane.state.sequence in lane.proposals && Bound(reg, r, lane.state.sequence)
    && lane.state.epoch < U64_MAX
    && Finished(lane.proposals[lane.state.sequence].(status := status, finishedAt := now), now)
  }

  lemma EndLane(t: Terms, reg: Registry, r: Role, status: Status, at: i64, now: time)
    requires LaneInv(t, reg, r, at) && at <= now && MayEnd(reg, r, status, now)
    ensures var reg' := EndedRegistry(reg, r, status, now);
      var f, f' := LaneFold(t.Owner(r), reg.Lane(r)), LaneFold(t.Owner(r), reg'.Lane(r));
      var q := reg.Lane(r).proposals[reg.Lane(r).state.sequence];
      && LaneInv(t, reg', r, now)
      && f'.history == f.history + (if status == Executed then [q.successor] else [])
      && f'.activations == f.activations + (if status == Executed then [now] else [])
      && f'.pending == None
  {
    var lane, lane' := reg.Lane(r), EndedRegistry(reg, r, status, now).Lane(r);
    LaneEnds(t, r, lane, status, at, now);
    SettledLane(t, r, lane, at);
    PendingIsLast(t.Owner(r), t.config.Guardians(r), r, History(lane), at);
    var q, q' := lane.proposals[lane.state.sequence], lane'.proposals[lane.state.sequence];
    var before := History(lane)[..lane.state.sequence - 1];
    IndexEnds(reg.keys, r, LaneFold(t.Owner(r), lane), LaneFold(t.Owner(r), lane'), before, q, q');
    ClearEnds(reg.approvals, before, q, q');
    if r == Treasury {
      UnpausedEnds(reg.approvals, before, q, q');
    }
  }

  lemma ActivationKeepsApprovals(t: Terms, reg: Registry, reg': Registry, r: Role, k: Key, at: i64, now: i64)
    requires LaneOk(t, Treasury, reg.treasury, at) && ApprovalsInv(t, reg, at) && at <= now
    requires LaneOk(t, Treasury, reg'.treasury, now)
    requires LaneFold(t.treasury, reg'.treasury).history == LaneFold(t.treasury, reg.treasury).history + [k]
    requires LaneFold(t.treasury, reg'.treasury).activations == LaneFold(t.treasury, reg.treasury).activations + [now]
    requires reg'.approvals == reg.approvals && reg'.approvalCount == reg.approvalCount
    requires OnlyMasksOf(r, reg.keys, reg'.keys)
    ensures ApprovalsInv(t, reg', now)
  {
    var f, f' := LaneFold(t.treasury, reg.treasury), LaneFold(t.treasury, reg'.treasury);
    AuthorsActivate(t, reg.keys, reg.approvals, f, f', k, at, now);
    ApprovalsFrame(t, reg.keys, reg'.keys, reg.approvals, f, f, at, now);
  }

  lemma EndChanges(reg: Registry, r: Role, status: Status, now: time)
    requires MayEnd(reg, r, status, now)
    ensures var reg' := EndedRegistry(reg, r, status, now);
      && reg'.Lane(r.Other()) == reg.Lane(r.Other())
      && reg'.approvals == reg.approvals && reg'.approvalCount == reg.approvalCount
      && OnlyMasksOf(r, reg.keys, reg'.keys)
  {
  }

  lemma EndKeeps(t: Terms, reg: Registry, r: Role, status: Status, at: i64, now: time)
    requires RegistryInv(t, reg, at) && at <= now && MayEnd(reg, r, status, now)
    ensures RegistryInv(t, EndedRegistry(reg, r, status, now), now)
  {
    hide Accepted, Replay, Tombstones.Tombstones, LaneClear, LaneUnpaused, IndexOk, ApprovalsOk, StateMatches;
    var reg' := EndedRegistry(reg, r, status, now);
    EndChanges(reg, r, status, now);
    EndLane(t, reg, r, status, at, now);
    OtherLane(t, reg, reg', r, at, now);
    if r == Treasury && status == Executed {
      ActivationKeepsApprovals(t, reg, reg', r, reg.treasury.proposals[reg.treasury.state.sequence].successor, at, now);
    } else {
      ApprovalsInvFrame(t, reg, reg', r, at, now);
    }
  }

  /** Whatever ends a pending proposal ends it as `EndedRegistry` says. */
  lemma FinishIsEnded(t: Terms, reg: Registry, r: Role, nonce: u64, status: Status, at: i64, now: time)
    requires LaneInv(t, reg, r, at) && Bound(reg, r, nonce) && reg.Lane(r).proposals[nonce].status == Pending
    requires status != Pending
    requires Finished(reg.Lane(r).proposals[nonce].(status := status, finishedAt := now), now)
    ensures nonce == reg.Lane(r).state.sequence && MayEnd(reg, r, status, now)
    ensures var q, rs := reg.Lane(r).proposals[nonce], reg.Lane(r).state;
      var record := reg.keys[q.successor];
      EndedRegistry(reg, r, status, now) == Finish(reg, r, nonce, status, now,
        if status == Executed then rs.(current := q.successor, epoch := rs.epoch + 1) else rs,
        if status == Executed then record.(history := record.history.With(r)) else record)
  {
    PendingExactly(t, reg, r, nonce, at);
    SettledLane(t, r, reg.Lane(r), at);
  }

  lemma ExecuteIsEnded(t: Terms, reg: Registry, r: Role, nonce: u64, at: i64, now: time)
    requires LaneInv(t, reg, r, at) && at <= now && Bound(reg, r, nonce) && Execute(t, reg, r, nonce, now).Ok?
    ensures nonce == reg.Lane(r).state.sequence && MayEnd(reg, r, Executed, now)
    ensures Execute(t, reg, r, nonce, now).value == EndedRegistry(reg, r, Executed, now)
  {
    hide Accepted, LaneOk, IndexOk, LaneClear, LaneUnpaused, Admissible, EligibleSuccessor, LaneInv;
    PendingExactly(t, reg, r, nonce, at);
    StoredOutcome(t, reg, r, nonce, at);
    FinishIsEnded(t, reg, r, nonce, Executed, at, now);
  }

  lemma ExecuteKeeps(t: Terms, reg: Registry, r: Role, nonce: u64, at: i64, now: time)
    requires RegistryInv(t, reg, at) && at <= now && Bound(reg, r, nonce) && Execute(t, reg, r, nonce, now).Ok?
    ensures RegistryInv(t, Execute(t, reg, r, nonce, now).value, now)
  {
    ExecuteIsEnded(t, reg, r, nonce, at, now);
    EndKeeps(t, reg, r, Executed, at, now);
  }

  lemma CancelIsEnded(t: Terms, reg: Registry, r: Role, nonce: u64, a: Key, b: Key, at: i64, now: time)
    requires LaneInv(t, reg, r, at) && at <= now && Bound(reg, r, nonce) && Cancel(t, reg, r, nonce, a, b, now).Ok?
    ensures nonce == reg.Lane(r).state.sequence && MayEnd(reg, r, Retracted, now)
    ensures Cancel(t, reg, r, nonce, a, b, now).value == EndedRegistry(reg, r, Retracted, now)
  {
    hide Accepted, LaneOk, IndexOk, LaneClear, LaneUnpaused, Admissible, MayRetract, LaneInv;
    PendingExactly(t, reg, r, nonce, at);
    StoredOutcome(t, reg, r, nonce, at);
    FinishIsEnded(t, reg, r, nonce, Retracted, at, now);
  }

  lemma CancelKeeps(t: Terms, reg: Registry, r: Role, nonce: u64, a: Key, b: Key, at: i64, now: time)
    requires RegistryInv(t, reg, at) && at <= now && Bound(reg, r, nonce) && Cancel(t, reg, r, nonce, a, b, now).Ok?
    ensures RegistryInv(t, Cancel(t, reg, r, nonce, a, b, now).value, now)
  {
    CancelIsEnded(t, reg, r, nonce, a, b, at, now);
    EndKeeps(t, reg, r, Retracted, at, now);
  }

  lemma ExpireIsEnded(t: Terms, reg: Registry, r: Role, nonce: u64, at: i64, now: time)
    requires LaneInv(t, reg, r, at) && at <= now && Bound(reg, r, nonce) && Expire(reg, r, nonce, now).Ok?
    ensures nonce == reg.Lane(r).state.sequence && MayEnd(reg, r, Expired, now)
    ensures Expire(reg, r, nonce, now).value == EndedRegistry(reg, r, Expired, now)
  {
    hide Accepted, LaneOk, IndexOk, LaneClear, LaneUnpaused, Admissible, LaneInv;
    PendingExactly(t, reg, r, nonce, at);
    StoredOutcome(t, reg, r, nonce, at);
    FinishIsEnded(t, reg, r, nonce, Expired, at, now);
  }

  lemma ExpireKeeps(t: Terms, reg: Registry, r: Role, nonce: u64, at: i64, now: time)
    requires RegistryInv(t, reg, at) && at <= now && Bound(reg, r, nonce) && Expire(reg, r, nonce, now).Ok?
    ensures RegistryInv(t, Expire(reg, r, nonce, now).value, now)
  {
    ExpireIsEnded(t, reg, r, nonce, at, now);
    EndKeeps(t, reg, r, Expired, at, now);
  }

  /* ---- Approving and consuming an approval ---- */

  /** A recipient with clear masks never succeeded, and is not about to succeed, to the role. */
  lemma ClearMasksClearLane(t: Terms, reg: Registry, r: Role, a: Approval, at: i64)
    requires LaneInv(t, reg, r, at) && a.recipientOwner in reg.keys && at <= a.createdAt
    requires !reg.keys[a.recipientOwner].history.Has(r) && !reg.keys[a.recipientOwner].pending.Has(r)
    ensures forall i :: 0 <= i < |History(reg.Lane(r))| ==> RecipientClear(a, History(reg.Lane(r))[i])
  {
    assert Indexed(a.recipientOwner, reg.keys[a.recipientOwner], r, LaneFold(t.Owner(r), reg.Lane(r)));
    forall i | 0 <= i < |History(reg.Lane(r))| ensures RecipientClear(a, History(reg.Lane(r))[i]) {
      LaneOutcome(t, r, reg.Lane(r), at, i);
    }
  }

  /** An unpaused lane has no open proposal. */
  lemma UnpausedMeansFinished(t: Terms, reg: Registry, r: Role, a: Approval, at: i64)
    requires LaneInv(t, reg, r, at) && reg.Lane(r).state.pending == 0 && at <= a.createdAt
    ensures forall i :: 0 <= i < |History(reg.Lane(r))| ==> OutsidePause(a, History(reg.Lane(r))[i])
  {
    SettledLane(t, r, reg.Lane(r), at);
    forall i | 0 <= i < |History(reg.Lane(r))| ensures OutsidePause(a, History(reg.Lane(r))[i]) {
      LaneOutcome(t, r, reg.Lane(r), at, i);
    }
  }

  lemma TargetLeavesNotice(t0: time, period: u64, now: time)
    requires CheckTarget(t0, period, now).Ok?
    ensures now < t0 + period * PERIOD && t0 + (period + 1) * PERIOD <= I64_MAX
    ensures t0 <= now ==> PeriodAt(t0, now).Ok? && PeriodAt(t0, now).value < period
  {
  }

  lemma EligibleMasks(t: Terms, k: Key, record: KeyRecord)
    requires EligibleRecipient(t, k, record)
    ensures !KnownParty(t, k)
    ensures forall r: Role :: !record.history.Has(r) && !record.pending.Has(r)
  {
  }

  lemma ApproveApprovals(t: Terms, reg: Registry, a: Approval, at: i64, now: time)
    requires LaneInv(t, reg, Treasury, at) && ApprovalsInv(t, reg, at) && at <= now
    requires a.period !in reg.approvals && a.recipientOwner in reg.keys && reg.approvalCount < U64_MAX
    requires reg.treasury.state.pending == 0 && reg.treasury.state.current == a.author
    requires reg.treasury.state.epoch == a.authorEpoch
    requires !KnownParty(t, a.recipientOwner) && a.createdAt == now && 0 == a.consumed < a.need
    requires now < t.config.t0 + a.period * PERIOD && t.config.t0 + (a.period + 1) * PERIOD <= I64_MAX
    ensures LaneOk(t, Treasury, reg.treasury, now)
    ensures ApprovalsInv(t, reg.(approvals := reg.approvals[a.period := a],
                                 keys := reg.keys[a.recipientOwner := reg.keys[a.recipientOwner].(recipient := true)],
                                 approvalCount := reg.approvalCount + 1), now)
  {
    hide Accepted, ApprovalsOk, ApprovalOk, IndexOk, LaneClear, LaneUnpaused, Replay;
    LaneLater(t, Treasury, reg.treasury, at, now);
    LaneFacts(t, Treasury, reg.treasury, at);
    NewApprovalOk(t, reg.keys[a.recipientOwner := reg.keys[a.recipientOwner].(recipient := true)], a, now);
    ApprovalJoins(t, reg.keys, reg.approvals, LaneFold(t.treasury, reg.treasury), a, at, now);
  }

  lemma ApproveParts(t: Terms, reg: Registry, a: Approval, at: i64, now: time)
    requires RegistryInv(t, reg, at) && at <= now && a.period !in reg.approvals && a.recipientOwner in reg.keys
    requires reg.approvalCount < U64_MAX
    requires Authenticate(reg, Treasury, a.author, a.authorEpoch).Pass?
    requires EligibleRecipient(t, a.recipientOwner, reg.keys[a.recipientOwner])
    requires a.createdAt == now && 0 == a.consumed < a.need
    requires now < t.config.t0 + a.period * PERIOD && t.config.t0 + (a.period + 1) * PERIOD <= I64_MAX
    ensures RegistryInv(t, reg.(approvals := reg.approvals[a.period := a],
                                keys := reg.keys[a.recipientOwner := reg.keys[a.recipientOwner].(recipient := true)],
                                approvalCount := reg.approvalCount + 1), now)
  {
    hide LaneInv, Accepted, ApprovalsOk, ApprovalOk, Withdrawal.EligibleRecipient, Indexed, IndexOk;
    var reg' := reg.(approvals := reg.approvals[a.period := a],
                     keys := reg.keys[a.recipientOwner := reg.keys[a.recipientOwner].(recipient := true)],
                     approvalCount := reg.approvalCount + 1);
    EligibleMasks(t, a.recipientOwner, reg.keys[a.recipientOwner]);
    ApproveLane(t, reg, reg', Founder, a, at, now);
    ApproveLane(t, reg, reg', Treasury, a, at, now);
    ApproveApprovals(t, reg, a, at, now);
  }

  lemma NewApprovalOk(t: Terms, keys: map<Key, KeyRecord>, a: Approval, now: time)
    requires a.recipientOwner in keys && keys[a.recipientOwner].recipient && !KnownParty(t, a.recipientOwner)
    requires a.createdAt == now && 0 == a.consumed < a.need
    requires now < t.config.t0 + a.period * PERIOD && t.config.t0 + (a.period + 1) * PERIOD <= I64_MAX
    ensures ApprovalOk(t, keys, a, a.period, now)
  {
  }

  /** A new approval of an eligible recipient, made while the treasury is not paused, conflicts with no proposal. */
  lemma ApproveLane(t: Terms, reg: Registry, reg': Registry, r: Role, a: Approval, at: i64, now: time)
    requires LaneInv(t, reg, r, at) && at <= now == a.createdAt && a.recipientOwner in reg.keys
    requires !reg.keys[a.recipientOwner].history.Has(r) && !reg.keys[a.recipientOwner].pending.Has(r)
    requires r == Treasury ==> reg.treasury.state.pending == 0
    requires reg'.Lane(r) == reg.Lane(r) && reg'.approvals == reg.approvals[a.period := a]
    requires reg'.keys == reg.keys[a.recipientOwner := reg.keys[a.recipientOwner].(recipient := true)]
    ensures LaneInv(t, reg', r, now)
  {
    LaneLater(t, r, reg.Lane(r), at, now);
    IndexFrame(reg.keys, reg'.keys, r, t.Owner(r), History(reg.Lane(r)));
    ClearMasksClearLane(t, reg, r, a, at);
    if r == Treasury {
      UnpausedMeansFinished(t, reg, r, a, at);
    }
    hide Accepted, StateMatches, IndexOk, RecipientClear, OutsidePause;
  }

  lemma ApprovalJoins(t: Terms, keys: map<Key, KeyRecord>, approvals: map<u64, Approval>, f: Fold, a: Approval, at: i64,
          now: i64)
    requires |f.history| == |f.activations| && ApprovalsOk(t, keys, approvals, f, at) && at <= now
    requires a.period !in approvals && a.recipientOwner in keys && AuthorOk(a, f)
    requires ApprovalOk(t, keys[a.recipientOwner := keys[a.recipientOwner].(recipient := true)], a, a.period, now)
    ensures ApprovalsOk(t, keys[a.recipientOwner := keys[a.recipientOwner].(recipient := true)],
        approvals[a.period := a], f, now)
  {
    var approvals', keys' :=
      approvals[a.period := a], keys[a.recipientOwner := keys[a.recipientOwner].(recipient := true)];
    forall p | p in approvals' ensures ApprovalOk(t, keys', approvals'[p], p, now) && AuthorOk(approvals'[p], f) {
      assert p != a.period ==> ApprovalOk(t, keys, approvals[p], p, at) && AuthorOk(approvals[p], f);
    }
    forall k | k in keys' && keys'[k].recipient ensures Approved(approvals', k) {
      if k == a.recipientOwner {
        assert approvals'[a.period].recipientOwner == k;
      } else {
        assert Approved(approvals, k);
        StillApproved(approvals, approvals', k);
      }
    }
  }

  lemma ApproveKeeps(t: Terms, reg: Registry, author: Key, period: u64, need: u64, epoch: u64, recipient: Addr,
          owner: Key, at: i64, now: time)
    requires RegistryInv(t, reg, at) && at <= now && 0 <= t.config.t0 && owner in reg.keys && period !in reg.approvals
    requires Approve(t, reg, author, period, need, epoch, recipient, owner, now).Ok?
    ensures RegistryInv(t, Approve(t, reg, author, period, need, epoch, recipient, owner, now).value, now)
  {
    TargetLeavesNotice(t.config.t0, period, now);
    ApproveParts(t, reg, Approval(period, recipient, owner, need, 0, now, author, epoch), at, now);
  }

  /** Spending within an approval's need changes nothing else. */
  lemma SpendKeeps(t: Terms, reg: Registry, period: u64, consumed: u64, at: i64, now: i64)
    requires RegistryInv(t, reg, at) && at <= now && period in reg.approvals && consumed <= reg.approvals[period].need
    ensures RegistryInv(t, reg.(approvals := reg.approvals[period := reg.approvals[period].(consumed := consumed)]),
        now)
  {
    var reg' := reg.(approvals := reg.approvals[period := reg.approvals[period].(consumed := consumed)]);
    LaneInvLater(t, reg, Founder, at, now);
    LaneInvLater(t, reg, Treasury, at, now);
    SpendKeepsLane(t, reg, reg', period, consumed, Founder, now);
    SpendKeepsLane(t, reg, reg', period, consumed, Treasury, now);
    SpendIsSpent(t, reg, period, consumed, at);
    SameSize(reg.approvals, reg'.approvals);
    SpendKeepsApprovals(t, reg.keys, reg.approvals, reg'.approvals, LaneFold(t.treasury, reg.treasury), at, now);
  }

  lemma SpendKeepsLane(t: Terms, reg: Registry, reg': Registry, period: u64, consumed: u64, r: Role, now: i64)
    requires LaneInv(t, reg, r, now) && period in reg.approvals
    requires reg' == reg.(approvals := reg.approvals[period := reg.approvals[period].(consumed := consumed)])
    ensures LaneInv(t, reg', r, now)
  {
    var qs := History(reg.Lane(r));
    hide Accepted, StateMatches, IndexOk, RecipientClear, OutsidePause;
    forall p, i | p in reg'.approvals && 0 <= i < |qs|
      ensures RecipientClear(reg'.approvals[p], qs[i]) && (r == Treasury ==> OutsidePause(reg'.approvals[p], qs[i]))
    {
      SpentConflictsAsBefore(reg.approvals[p], reg'.approvals[p].consumed, qs[i]);
    }
  }

  lemma SpentConflictsAsBefore(a: Approval, consumed: u64, q: Proposal)
    ensures RecipientClear(a.(consumed := consumed), q) == RecipientClear(a, q)
    ensures OutsidePause(a.(consumed := consumed), q) == OutsidePause(a, q)
  {
  }

  lemma SpendIsSpent(t: Terms, reg: Registry, period: u64, consumed: u64, at: i64)
    requires LaneOk(t, Treasury, reg.treasury, at) && ApprovalsInv(t, reg, at)
    requires period in reg.approvals && consumed <= reg.approvals[period].need
    ensures SameButSpent(reg.approvals, reg.approvals[period := reg.approvals[period].(consumed := consumed)])
    ensures reg.approvals[period := reg.approvals[period].(consumed := consumed)].Keys == reg.approvals.Keys
  {
    hide LaneOk, AuthorOk, Approved;
    forall p | p in reg.approvals ensures reg.approvals[p].consumed <= reg.approvals[p].need {
      assert ApprovalOk(t, reg.keys, reg.approvals[p], p, at);
    }
  }

  /** The same approvals, but for what has been consumed of them. */
  ghost predicate SameButSpent(approvals: map<u64, Approval>, approvals': map<u64, Approval>) {
    && (forall p :: p in approvals <==> p in approvals')
    && (forall p :: p in approvals ==>
          approvals'[p] == approvals[p].(consumed := approvals'[p].consumed)
            && approvals'[p].consumed <= approvals[p].need)
  }

  lemma SpendKeepsApprovals(t: Terms, keys: map<Key, KeyRecord>, approvals: map<u64, Approval>,
          approvals': map<u64, Approval>, f: Fold, at: i64, now: i64)
    requires |f.history| == |f.activations| && ApprovalsOk(t, keys, approvals, f, at) && at <= now
    requires SameButSpent(approvals, approvals')
    ensures ApprovalsOk(t, keys, approvals', f, now)
  {
    forall p | p in approvals' ensures ApprovalOk(t, keys, approvals'[p], p, now) && AuthorOk(approvals'[p], f) {
      ApprovalSpent(t, keys, f, approvals[p], approvals'[p].consumed, p, at, now);
    }
    forall k | k in keys && keys[k].recipient ensures Approved(approvals', k) {
      StillApproved(approvals, approvals', k);
    }
  }

  lemma ApprovalSpent(t: Terms, keys: map<Key, KeyRecord>, f: Fold, a: Approval, consumed: u64, p: u64, at: i64,
          now: i64)
    requires |f.history| == |f.activations| && ApprovalOk(t, keys, a, p, at) && AuthorOk(a, f) && at <= now
    requires consumed <= a.need
    ensures ApprovalOk(t, keys, a.(consumed := consumed), p, now) && AuthorOk(a.(consumed := consumed), f)
  {
  }

  lemma SameSize<A, B>(m: map<A, B>, m': map<A, B>)
    requires m.Keys == m'.Keys
    ensures |m| == |m'|
  {
    assert |m| == |m.Keys| && |m'| == |m'.Keys|;
  }

  lemma StillApproved(approvals: map<u64, Approval>, approvals': map<u64, Approval>, k: Key)
    requires Approved(approvals, k)
    requires forall p :: p in approvals ==>
      p in approvals' && approvals'[p].recipientOwner == approvals[p].recipientOwner
    ensures Approved(approvals', k)
  {
    var p :| p in approvals && approvals[p].recipientOwner == k;
    assert approvals'[p].recipientOwner == k;
  }

  /* ---- What the invariant means ---- */

  /** An approved recipient was never made current, is not pending, and is no guardian: its re-check cannot fail. */
  lemma RecipientStaysEligible(t: Terms, reg: Registry, at: i64, p: u64)
    requires RegistryInv(t, reg, at) && p in reg.approvals
    ensures var k := reg.approvals[p].recipientOwner;
      && k in reg.keys && reg.keys[k].recipient && EligibleRecipient(t, k, reg.keys[k])
      && k !in LaneFold(t.founder, reg.founder).history && k !in LaneFold(t.treasury, reg.treasury).history
      && LaneFold(t.founder, reg.founder).pending != Some(k) && LaneFold(t.treasury, reg.treasury).pending != Some(k)
  {
    assert ApprovalOk(t, reg.keys, reg.approvals[p], p, at);
    hide LaneInv, ApprovalStands;
    RecipientEligible(t, reg, at, p);
  }

  lemma RecipientEligible(t: Terms, reg: Registry, at: i64, p: u64)
    requires LaneInv(t, reg, Founder, at) && LaneInv(t, reg, Treasury, at) && p in reg.approvals
    requires ApprovalStands(t, reg.keys, reg.approvals[p], p, at)
    ensures var k := reg.approvals[p].recipientOwner;
      && k in reg.keys && reg.keys[k].recipient && EligibleRecipient(t, k, reg.keys[k])
      && k !in LaneFold(t.founder, reg.founder).history && k !in LaneFold(t.treasury, reg.treasury).history
      && LaneFold(t.founder, reg.founder).pending != Some(k) && LaneFold(t.treasury, reg.treasury).pending != Some(k)
  {
    RecipientOutsideLane(t, reg, Founder, at, p);
    RecipientOutsideLane(t, reg, Treasury, at, p);
    hide LaneInv;
  }

  lemma RecipientOutsideLane(t: Terms, reg: Registry, r: Role, at: i64, p: u64)
    requires LaneInv(t, reg, r, at) && p in reg.approvals && reg.approvals[p].recipientOwner in reg.keys
    requires reg.approvals[p].recipientOwner != t.Owner(r)
    ensures var k, f := reg.approvals[p].recipientOwner, LaneFold(t.Owner(r), reg.Lane(r));
      k !in f.history && f.pending != Some(k) && !reg.keys[k].history.Has(r) && !reg.keys[k].pending.Has(r)
  {
    hide Accepted, Replay, Tombstones.Tombstones, LaneUnpaused, KnownParty, StateMatches;
    var k, f, qs := reg.approvals[p].recipientOwner, LaneFold(t.Owner(r), reg.Lane(r)), History(reg.Lane(r));
    LaneFacts(t, r, reg.Lane(r), at);
    HistoryComesFromProposals(t.Owner(r), qs, k);
    assert f.history == [f.history[0]] + f.history[1..];
    forall i | 0 <= i < |qs| && qs[i].successor == k ensures qs[i].status != Executed {
      assert RecipientClear(reg.approvals[p], qs[i]);
    }
    if f.pending.Some? {
      PendingIsLast(t.Owner(r), t.config.Guardians(r), r, qs, at);
      assert RecipientClear(reg.approvals[p], qs[|qs| - 1]);
    }
    assert Indexed(k, reg.keys[k], r, f);
  }

  /**
   The pending proposal of a paused lane: its successor's record shows it, and it is neither guardian nor past holder.
   */
  lemma PendingSuccessor(t: Terms, reg: Registry, r: Role, at: i64)
    requires LaneInv(t, reg, r, at) && reg.Lane(r).state.pending != 0
    ensures var n := reg.Lane(r).state.sequence;
      && n in reg.Lane(r).proposals && Bound(reg, r, n) && reg.Lane(r).proposals[n].status == Pending
      && n - 1 < |History(reg.Lane(r))| && History(reg.Lane(r))[n - 1] == reg.Lane(r).proposals[n]
      && var k := reg.Lane(r).proposals[n].successor;
      k != Default && k != t.Owner(r) && !t.config.Guardians(r).Has(k) && !reg.keys[k].history.Has(r)
  {
    var lane := reg.Lane(r);
    var qs, f := History(lane), LaneFold(t.Owner(r), lane);
    SettledLane(t, r, lane, at);
    PendingIsLast(t.Owner(r), t.config.Guardians(r), r, qs, at);
    LaneFacts(t, r, lane, at);
    var k := qs[|qs| - 1].successor;
    assert k in reg.keys && Indexed(k, reg.keys[k], r, f);
    assert k !in f.history;
  }

  lemma PendingUnapproved(approvals: map<u64, Approval>, qs: seq<Proposal>, i: nat)
    requires LaneClear(approvals, qs) && i < |qs| && qs[i].status == Pending
    ensures !Approved(approvals, qs[i].successor)
  {
    forall p | p in approvals ensures approvals[p].recipientOwner != qs[i].successor {
      assert RecipientClear(approvals[p], qs[i]);
    }
  }

  lemma RecipientsApproved(t: Terms, reg: Registry, at: i64, k: Key)
    requires RegistryInv(t, reg, at) && k in reg.keys && reg.keys[k].recipient
    ensures Approved(reg.approvals, k)
  {
    hide Accepted, StateMatches, IndexOk, LaneClear, LaneUnpaused;
  }

  /** A key is marked a recipient exactly when an approval names it. */
  lemma RecipientExactly(t: Terms, reg: Registry, at: i64, k: Key)
    requires RegistryInv(t, reg, at) && k in reg.keys
    ensures reg.keys[k].recipient <==> Approved(reg.approvals, k)
  {
    hide LaneInv;
    if Approved(reg.approvals, k) {
      var p :| p in reg.approvals && reg.approvals[p].recipientOwner == k;
      assert ApprovalOk(t, reg.keys, reg.approvals[p], p, at);
    }
  }

  lemma LaneIsClear(t: Terms, reg: Registry, r: Role, at: i64)
    requires LaneInv(t, reg, r, at)
    ensures Dense(reg.Lane(r).proposals, reg.Lane(r).state.sequence)
    ensures LaneClear(reg.approvals, History(reg.Lane(r)))
  {
    hide LaneClear, IndexOk, Accepted, StateMatches;
  }

  /** The pending successor is still eligible, whatever happened since it was proposed. */
  lemma PendingStaysEligible(t: Terms, reg: Registry, r: Role, at: i64)
    requires RegistryInv(t, reg, at) && reg.Lane(r).state.pending != 0
    ensures var n := reg.Lane(r).state.sequence;
      && n in reg.Lane(r).proposals && Bound(reg, r, n) && reg.Lane(r).proposals[n].status == Pending
      && var q := reg.Lane(r).proposals[n];
      EligibleSuccessor(t, r, q.successor, reg.keys[q.successor])
  {
    hide LaneInv, ApprovalsInv, Approved, LaneClear, Replay, Tombstones.Tombstones;
    assert LaneInv(t, reg, r, at) by {
      if r.Founder? {} else {}
    }
    PendingSuccessor(t, reg, r, at);
    LaneIsClear(t, reg, r, at);
    PendingUnapproved(reg.approvals, History(reg.Lane(r)), reg.Lane(r).state.sequence - 1);
    var k := reg.Lane(r).proposals[reg.Lane(r).state.sequence].successor;
    if reg.keys[k].recipient {
      RecipientsApproved(t, reg, at, k);
    }
  }

  lemma PendingHasNextEpoch(t: Terms, reg: Registry, r: Role, at: i64)
    requires LaneInv(t, reg, r, at) && reg.Lane(r).state.pending != 0
    ensures reg.Lane(r).state.epoch < U64_MAX
  {
    SettledLane(t, r, reg.Lane(r), at);
  }

  lemma PendingUnfinished(q: Proposal, at: i64)
    requires Finished(q, at) && q.status == Pending
    ensures q.finishedAt == 0
  {
  }

  /**
   A pending proposal is never stuck: from its maturity on, at every time exactly one of execution and
   expiry is enabled. Its times never overflowed, and neither the re-check nor the epoch can refuse.
   */
  lemma PendingNeverStuck(t: Terms, reg: Registry, r: Role, at: i64, now: time)
    requires RegistryInv(t, reg, at) && at <= now && reg.Lane(r).state.pending != 0
    ensures var n := reg.Lane(r).state.sequence;
      && n in reg.Lane(r).proposals && Bound(reg, r, n)
      && var q := reg.Lane(r).proposals[n];
      && q.executeAfter == q.createdAt + CHANGE_NOTICE && q.expiresAt == q.executeAfter + EXECUTION_WINDOW
      && (Execute(t, reg, r, n, now).Ok? <==> q.executeAfter <= now < q.expiresAt)
      && (Expire(reg, r, n, now).Ok? <==> q.expiresAt <= now)
  {
    PendingStaysEligible(t, reg, r, at);
    var n := reg.Lane(r).state.sequence;
    assert LaneInv(t, reg, r, at);
    hide LaneInv, ApprovalsInv, Finished, EligibleSuccessor;
    PendingExactly(t, reg, r, n, at);
    StoredOutcome(t, reg, r, n, at);
    assert reg.Lane(r).state.epoch < U64_MAX by {
      PendingHasNextEpoch(t, reg, r, at);
    }
    assert reg.Lane(r).proposals[n].finishedAt == 0 by {
      PendingUnfinished(reg.Lane(r).proposals[n], at);
    }
  }
}
