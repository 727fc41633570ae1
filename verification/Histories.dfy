/** What an accepted history of proposals or changes is, entry by entry, without replaying it. */
module Histories {
  import opened Basics
  import opened State
  import Tombstones
  import Control
  import Launch
  import HistoryModel

  const DAY: int := 86_400

  /** A committee is valid exactly when it is three different keys, none of them the default. */
  lemma CommitteeExactly(k: Committee)
    ensures Launch.ValidCommittee(k) <==> |k.Members()| == 3 && Default !in k.Members()
  {
    HistoryModel.ThreeMembers(k);
  }

  /* ---- Withdrawal proposals ---- */

  /** The key in charge after some proposals: the successor of the last one executed. */
  function Holder(owner: Key, qs: seq<Proposal>): Key {
    if qs == [] then owner
    else if qs[|qs| - 1].status == Executed then qs[|qs| - 1].successor
    else Holder(owner, qs[..|qs| - 1])
  }

  function ExecutedIn(qs: seq<Proposal>): nat {
    if qs == [] then 0 else ExecutedIn(qs[..|qs| - 1]) + (if qs[|qs| - 1].status == Executed then 1 else 0)
  }

  /** Whom a proposal may name: a key that is neither the original, nor executed before, nor a guardian. */
  predicate NewKey(owner: Key, guardians: Committee, qs: seq<Proposal>, i: nat)
    requires i < |qs|
  {
    var k := qs[i].successor;
    && k != Default && k != owner && k != guardians.one && k != guardians.two && k != guardians.three
    && (forall j :: 0 <= j < i && qs[j].status == Executed ==> qs[j].successor != k)
  }

  /** When a proposal was made: in its signed window of at most five minutes, after all before it had ended. */
  predicate InTime(qs: seq<Proposal>, i: nat, at: i64)
    requires i < |qs|
  {
    var q := qs[i];
    && 0 <= q.validFrom <= q.createdAt <= q.validUntil <= q.validFrom + 300
    && q.validUntil + 120 * DAY <= I64_MAX && q.createdAt <= at
    && (i > 0 ==> qs[i - 1].status != Pending && qs[i - 1].finishedAt <= q.createdAt)
    && q.executeAfter == q.createdAt + 90 * DAY && q.expiresAt == q.createdAt + 120 * DAY
  }

  /** How a proposal ended: executed in its window of 30 days, expired after it, or retracted at any time. */
  predicate Ended(q: Proposal, at: i64) {
    && (q.status == Pending ==> q.finishedAt == 0)
    && (q.status == Executed ==> q.createdAt + 90 * DAY <= q.finishedAt < q.createdAt + 120 * DAY)
    && (q.status == Expired ==> q.createdAt + 120 * DAY <= q.finishedAt)
    && (q.status != Pending ==> q.createdAt <= q.finishedAt <= at)
  }

  predicate Entry(owner: Key, guardians: Committee, r: Role, qs: seq<Proposal>, i: nat, at: i64)
    requires i < |qs|
  {
    && qs[i].role == r && qs[i].nonce == i + 1
    && qs[i].epoch == ExecutedIn(qs[..i]) && qs[i].predecessor == Holder(owner, qs[..i])
    && NewKey(owner, guardians, qs, i) && InTime(qs, i, at) && Ended(qs[i], at)
  }

  predicate Held(owner: Key, qs: seq<Proposal>, k: Key) {
    k == owner || exists j :: 0 <= j < |qs| && qs[j].status == Executed && qs[j].successor == k
  }

  /** What a replay accumulates, entry by entry. */
  lemma {:induction false} ReplayIs(owner: Key, qs: seq<Proposal>)
    ensures var f := Tombstones.Replay(owner, qs);
      && f.Current() == Holder(owner, qs) && f.Epoch() == ExecutedIn(qs) && f.history[0] == owner
      && (forall k :: k in f.history <==> Held(owner, qs, k))
      && (f.pending.Some? <==> qs != [] && qs[|qs| - 1].status == Pending)
      && (f.pending.None? ==> f.earliest == if qs == [] then I64_MIN else qs[|qs| - 1].finishedAt)
  {
    if qs != [] {
      var before, q := qs[..|qs| - 1], qs[|qs| - 1];
      ReplayIs(owner, before);
      forall k ensures Held(owner, qs, k) <==> Held(owner, before, k) || (q.status == Executed && q.successor == k) {
        if Held(owner, before, k) && k != owner {
          var j :| 0 <= j < |before| && before[j].status == Executed && before[j].successor == k;
          assert qs[j] == before[j];
        }
        if Held(owner, qs, k) && k != owner {
          var j :| 0 <= j < |qs| && qs[j].status == Executed && qs[j].successor == k;
          assert j < |before| ==> before[j] == qs[j];
        }
      }
    }
  }

  lemma EntryPrefix(owner: Key, guardians: Committee, r: Role, qs: seq<Proposal>, i: nat, at: i64)
    requires i < |qs| - 1
    ensures Entry(owner, guardians, r, qs, i, at) <==> Entry(owner, guardians, r, qs[..|qs| - 1], i, at)
  {
    var before := qs[..|qs| - 1];
    assert before[..i] == qs[..i] && before[i] == qs[i] && (i > 0 ==> before[i - 1] == qs[i - 1]);
    assert forall j :: 0 <= j < i ==> before[j] == qs[j];
    hide Holder, ExecutedIn, Ended;
  }

  /** The last entry of a history is what replaying the others admits. */
  lemma LastEntry(owner: Key, guardians: Committee, r: Role, qs: seq<Proposal>, at: i64)
    requires qs != []
    ensures var before, q := qs[..|qs| - 1], qs[|qs| - 1]; var f := Tombstones.Replay(owner, before);
      Entry(owner, guardians, r, qs, |qs| - 1, at) <==>
        (f.pending == None && Tombstones.Admissible(guardians, r, f, q, |qs|, at) && Tombstones.Finished(q, at))
  {
    var before, q := qs[..|qs| - 1], qs[|qs| - 1];
    ReplayIs(owner, before);
    hide Tombstones.Replay, Holder, ExecutedIn;
    LastIsNew(owner, guardians, qs);
    hide NewKey, Held;
    assert |qs| > 1 ==> before[|before| - 1] == qs[|qs| - 2];
  }

  lemma LastIsNew(owner: Key, guardians: Committee, qs: seq<Proposal>)
    requires qs != []
    ensures var before, k := qs[..|qs| - 1], qs[|qs| - 1].successor;
      NewKey(owner, guardians, qs, |qs| - 1) <==> k != Default && !Held(owner, before, k) && !guardians.Has(k)
  {
    var before, k := qs[..|qs| - 1], qs[|qs| - 1].successor;
    if Held(owner, before, k) && k != owner {
      var j :| 0 <= j < |before| && before[j].status == Executed && before[j].successor == k;
      assert qs[j] == before[j];
    }
    forall j | 0 <= j < |qs| - 1 && qs[j].status == Executed && qs[j].successor == k ensures Held(owner, before, k) {
      assert before[j] == qs[j];
    }
  }

  /** A history is accepted exactly when each of its entries is in order. */
  lemma {:induction false} HistoryExactly(owner: Key, guardians: Committee, r: Role, qs: seq<Proposal>, at: i64)
    ensures Tombstones.Accepted(owner, guardians, r, qs, at) <==>
      forall i :: 0 <= i < |qs| ==> Entry(owner, guardians, r, qs, i, at)
  {
    if qs != [] {
      var before := qs[..|qs| - 1];
      hide Entry, Tombstones.Replay, Tombstones.Admissible, Tombstones.Finished;
      HistoryExactly(owner, guardians, r, before, at);
      LastEntry(owner, guardians, r, qs, at);
      forall i | 0 <= i < |before|
        ensures Entry(owner, guardians, r, qs, i, at) <==> Entry(owner, guardians, r, before, i, at)
      {
        EntryPrefix(owner, guardians, r, qs, i, at);
      }
      if forall i :: 0 <= i < |qs| ==> Entry(owner, guardians, r, qs, i, at) {
        assert forall i :: 0 <= i < |before| ==> Entry(owner, guardians, r, before, i, at);
      }
    }
  }

  /* ---- Changes of oracle and controller ---- */

  /** The oracle, or the controller, after some changes. */
  function HolderOf(first: Key, kind: ChangeKind, qs: seq<Change>): Key {
    if qs == [] then first
    else if qs[|qs| - 1].status == Executed && qs[|qs| - 1].kind == kind then qs[|qs| - 1].successor
    else HolderOf(first, kind, qs[..|qs| - 1])
  }

  function ExecutedOf(kind: ChangeKind, qs: seq<Change>): nat {
    if qs == [] then 0
    else
      var last := qs[|qs| - 1];
      ExecutedOf(kind, qs[..|qs| - 1]) + (if last.status == Executed && last.kind == kind then 1 else 0)
  }

  predicate ChangeEntry(oracle: Key, creator: Key, qs: seq<Change>, i: nat, at: i64)
    requires i < |qs|
  {
    var q := qs[i];
    && q.nonce == i + 1 && q.status != Expired
    && q.oracleEpoch == ExecutedOf(ChangeOracle, qs[..i]) && q.controllerEpoch == ExecutedOf(ChangeController, qs[..i])
    && q.successor != Default
    && q.successor != (if q.kind == ChangeOracle then HolderOf(oracle, ChangeOracle, qs[..i])
                       else HolderOf(creator, ChangeController, qs[..i]))
    && q.createdAt <= at && q.executeAfter == q.createdAt + 90 * DAY
    && (q.status == Executed ==> q.executeAfter <= at)
    && (i > 0 ==> qs[i - 1].status != Pending)
    && (i > 0 ==> (if qs[i - 1].status == Executed then qs[i - 1].executeAfter else qs[i - 1].createdAt) <= q.createdAt)
  }

  lemma {:induction false} ChangesReplayIs(oracle: Key, creator: Key, qs: seq<Change>)
    ensures var f := Control.Replay(oracle, creator, qs);
      && f.oracle == HolderOf(oracle, ChangeOracle, qs) && f.controller == HolderOf(creator, ChangeController, qs)
      && f.oracleEpoch == ExecutedOf(ChangeOracle, qs) && f.controllerEpoch == ExecutedOf(ChangeController, qs)
      && (f.pending <==> qs != [] && qs[|qs| - 1].status == Pending)
      && f.earliest == (if qs == [] then I64_MIN
                        else if qs[|qs| - 1].status == Executed then qs[|qs| - 1].executeAfter
                        else qs[|qs| - 1].createdAt)
  {
    if qs != [] {
      ChangesReplayIs(oracle, creator, qs[..|qs| - 1]);
    }
  }

  /** A history of changes is accepted exactly when each of its entries is in order. */
  lemma {:induction false} ChangesExactly(oracle: Key, creator: Key, qs: seq<Change>, at: i64)
    ensures Control.Accepted(oracle, creator, qs, at) <==>
      forall i :: 0 <= i < |qs| ==> ChangeEntry(oracle, creator, qs, i, at)
  {
    if qs != [] {
      var before := qs[..|qs| - 1];
      ChangesExactly(oracle, creator, before, at);
      LastChange(oracle, creator, qs, at);
      hide ChangeEntry, Control.Replay, Control.Admissible;
      forall i | 0 <= i < |before|
        ensures ChangeEntry(oracle, creator, qs, i, at) <==> ChangeEntry(oracle, creator, before, i, at)
      {
        ChangePrefix(oracle, creator, qs, i, at);
      }
      if forall i :: 0 <= i < |qs| ==> ChangeEntry(oracle, creator, qs, i, at) {
        assert forall i :: 0 <= i < |before| ==> ChangeEntry(oracle, creator, before, i, at);
      }
    }
  }

  lemma ChangePrefix(oracle: Key, creator: Key, qs: seq<Change>, i: nat, at: i64)
    requires i < |qs| - 1
    ensures ChangeEntry(oracle, creator, qs, i, at) <==> ChangeEntry(oracle, creator, qs[..|qs| - 1], i, at)
  {
    var before := qs[..|qs| - 1];
    assert before[..i] == qs[..i] && before[i] == qs[i] && (i > 0 ==> before[i - 1] == qs[i - 1]);
    hide HolderOf, ExecutedOf;
  }

  lemma LastChange(oracle: Key, creator: Key, qs: seq<Change>, at: i64)
    requires qs != []
    ensures var before, q := qs[..|qs| - 1], qs[|qs| - 1]; var f := Control.Replay(oracle, creator, before);
      ChangeEntry(oracle, creator, qs, |qs| - 1, at) <==> !f.pending && Control.Admissible(f, q, |qs|, at)
  {
    var before, q := qs[..|qs| - 1], qs[|qs| - 1];
    ChangesReplayIs(oracle, creator, before);
    hide Control.Replay, HolderOf, ExecutedOf;
    assert |qs| > 1 ==> before[|before| - 1] == qs[|qs| - 2];
    if q.kind.ChangeOracle? {} else {}
  }
}
