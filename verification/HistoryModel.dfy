/**
 The simple specification of withdrawal authority: histories as lists, sets of signers, and no key index.
 A refused call is None.
 */
module HistoryModel {
  import opened Basics
  import opened State

  /** What an admitted proposal binds. The digest of a plan is kept opaque: distinct plans have distinct digests. */
  datatype Plan = Plan(policy: nat, role: Role, nonce: u64, epoch: u64, predecessor: Key, successor: Key,
      recovery: bool, createdAt: time, executeAfter: i64, expiresAt: i64)

  datatype Digest = DigestOf(plan: Plan)

  datatype Tombstone = Tombstone(plan: Plan, digest: Digest, status: Status, finishedAt: i64)

  datatype Member = Member(initial: Key, current: Key, committee: Committee, history: seq<Key>, epoch: nat,
      sequence: nat, pending: Option<Plan>, tombstones: map<u64, Tombstone>)

  datatype Grant = Grant(period: u64, recipient: Addr, owner: Key, need: u64, consumed: u64, createdAt: i64,
      author: Key, authorEpoch: u64)

  datatype Book = Book(policy: nat, t0: time, founder: Member, treasury: Member, grants: map<u64, Grant>,
      lastAt: time) {
    function Of(r: Role): Member { if r.Founder? then founder else treasury }
    function With(r: Role, m: Member): Book { if r.Founder? then this.(founder := m) else this.(treasury := m) }
  }

  predicate ValidMembers(actor: Key, committee: Committee, signers: set<Key>) {
    && actor != Default && committee.one != Default && committee.two != Default && committee.three != Default
    && |committee.Members()| == 3 && !committee.Has(actor) && actor in signers
  }

  function FreshMember(actor: Key, committee: Committee): Member {
    Member(actor, actor, committee, [actor], 0, 0, None, map[])
  }

  function Register(policy: nat, t0: time, founder: Key, treasury: Key, founders: Committee, treasurers: Committee,
          signers: set<Key>): Option<Book>
  {
    if !ValidMembers(founder, founders, signers) || !ValidMembers(treasury, treasurers, signers) then None
    else Some(Book(policy, t0, FreshMember(founder, founders), FreshMember(treasury, treasurers), map[], 0))
  }

  /** Two pools register exactly when both keys consent and each has three different guardians, none of them itself. */
  lemma RegisterExactly(policy: nat, t0: time, founder: Key, treasury: Key, f: Committee, g: Committee,
          signers: set<Key>)
    ensures Register(policy, t0, founder, treasury, f, g, signers).Some? <==>
      (founder in signers && treasury in signers && founder != Default && treasury != Default
       && Default !in {f.one, f.two, f.three, g.one, g.two, g.three}
       && f.one != f.two && f.one != f.three && f.two != f.three && founder !in {f.one, f.two, f.three}
       && g.one != g.two && g.one != g.three && g.two != g.three && treasury !in {g.one, g.two, g.three})
  {
    ThreeMembers(f);
    ThreeMembers(g);
  }

  lemma ThreeMembers(k: Committee)
    ensures |k.Members()| == 3 <==> k.one != k.two && k.one != k.three && k.two != k.three
  {
    var one, two := {k.one}, {k.one, k.two};
    assert k.Members() == two + {k.three} && two == one + {k.two} && |one| == 1;
    assert |two| == (if k.one == k.two then 1 else 2) by {
      assert k.one == k.two ==> two == one;
    }
    assert |k.Members()| == |two| + (if k.three in two then 0 else 1) by {
      assert k.three in two ==> k.Members() == two;
    }
  }

  predicate Quorum(m: Member, signers: set<Key>) { |signers * m.committee.Members()| >= 2 }

  predicate BlockedBy(m: Member, k: Key) {
    k in m.history || m.committee.Has(k) || (m.pending.Some? && m.pending.value.successor == k)
  }

  predicate ForbiddenRecipient(b: Book, k: Key) { BlockedBy(b.founder, k) || BlockedBy(b.treasury, k) }

  predicate SuccessorAllowed(b: Book, m: Member, k: Key) {
    && k != Default && k !in m.history && !m.committee.Has(k)
    && forall p :: p in b.grants ==> b.grants[p].owner != k
  }

  function Propose(b: Book, r: Role, successor: Key, recovery: bool, nonce: u64, epoch: u64, signers: set<Key>,
          now: time): Option<Book>
  {
    var m := b.Of(r);
    if now < b.lastAt || m.pending.Some? || m.sequence >= U64_MAX || nonce != m.sequence + 1 || epoch != m.epoch
       || epoch == U64_MAX then None
    else if !SuccessorAllowed(b, m, successor) || successor !in signers then None
    else if !(if recovery then Quorum(m, signers) else m.current in signers) then None
    else if now > I64_MAX - CHANGE_NOTICE - EXECUTION_WINDOW then None
    else
      var plan := Plan(b.policy, r, nonce, epoch, m.current, successor, recovery, now, now + CHANGE_NOTICE,
          now + CHANGE_NOTICE + EXECUTION_WINDOW);
      Some(b.With(r, m.(pending := Some(plan), sequence := nonce)).(lastAt := now))
  }

  predicate Pending(b: Book, r: Role, digest: Digest, now: time) {
    var m := b.Of(r);
    && now >= b.lastAt && m.pending.Some? && DigestOf(m.pending.value) == digest
    && var p := m.pending.value;
    p.policy == b.policy && p.role == r && p.epoch == m.epoch && p.predecessor == m.current && p.nonce == m.sequence
  }

  function Finish(b: Book, r: Role, status: Status, now: time): Book
    requires b.Of(r).pending.Some?
  {
    var m, p := b.Of(r), b.Of(r).pending.value;
    b.With(r, m.(pending := None, tombstones :=
        m.tombstones[p.nonce := Tombstone(p, DigestOf(p), status, now)])).(lastAt := now)
  }

  function Cancel(b: Book, r: Role, digest: Digest, signers: set<Key>, now: time): Option<Book> {
    if !Pending(b, r, digest, now) then None
    else
      var m, p := b.Of(r), b.Of(r).pending.value;
      if p.successor in signers || Quorum(m, signers) || (!p.recovery && m.current in signers)
      then Some(Finish(b, r, Retracted, now)) else None
  }

  function Expire(b: Book, r: Role, digest: Digest, now: time): Option<Book> {
    if !Pending(b, r, digest, now) || now < b.Of(r).pending.value.expiresAt then None
    else Some(Finish(b, r, Expired, now))
  }

  function Execute(b: Book, r: Role, digest: Digest, now: time): Option<Book> {
    if !Pending(b, r, digest, now) then None
    else
      var m, p := b.Of(r), b.Of(r).pending.value;
      if !(p.executeAfter <= now < p.expiresAt) || !SuccessorAllowed(b, m, p.successor) then None
      else
        var b' := Finish(b, r, Executed, now);
        Some(b'.With(r, b'.Of(r).(current := p.successor, history := m.history + [p.successor], epoch := m.epoch + 1)))
  }

  predicate Authenticated(b: Book, r: Role, signer: Key, epoch: u64, now: time) {
    now >= b.lastAt && b.Of(r).pending.None? && signer == b.Of(r).current && epoch == b.Of(r).epoch
  }

  function Approve(b: Book, signer: Key, epoch: u64, period: u64, recipient: Addr, owner: Key, need: u64,
          now: time): Option<Book>
  {
    var end := b.t0 + (period + 1) * PERIOD;
    if !Authenticated(b, Treasury, signer, epoch, now) || need == 0 || owner == Default then None
    else if ForbiddenRecipient(b, owner) || period in b.grants then None
    else if end > I64_MAX || now + PERIOD >= end then None
    else if now >= b.t0 && period <= (now - b.t0) / PERIOD then None
    else Some(b.(grants := b.grants[period := Grant(period, recipient, owner, need, 0, now, signer, epoch)], lastAt :=
        now))
  }

  predicate AuthorizesRelease(b: Book, r: Role, signer: Key, epoch: u64, recipient: Addr, owner: Key, now: time,
          period: Option<u64>)
  {
    && Authenticated(b, r, signer, epoch, now)
    && (if r.Founder? then owner == signer && period.None?
        else period.Some? && now >= b.t0 && period.value == (now - b.t0) / PERIOD && period.value in b.grants
             && var a := b.grants[period.value];
             recipient == a.recipient && owner == a.owner && !ForbiddenRecipient(b, owner)
               && now >= a.createdAt + PERIOD)
  }

  /* ---- Calls ---- */

  datatype Call =
    | CallPropose(r: Role, successor: Key, recovery: bool, nonce: u64, epoch: u64, signers: set<Key>, now: time)
    | CallExecute(r: Role, digest: Digest, now: time)
    | CallCancel(r: Role, digest: Digest, signers: set<Key>, now: time)
    | CallExpire(r: Role, digest: Digest, now: time)
    | CallApprove(signer: Key, epoch: u64, period: u64, recipient: Addr, owner: Key, need: u64, now: time)
    | CallAuthorize(r: Role, signer: Key, epoch: u64, recipient: Addr, owner: Key, now: time, periodNamed: Option<u64>)

  function Do(b: Book, c: Call): Option<Book> {
    match c
    case CallPropose(r, successor, recovery, nonce, epoch, signers, now) =>
      Propose(b, r, successor, recovery, nonce, epoch, signers, now)
    case CallExecute(r, digest, now) => Execute(b, r, digest, now)
    case CallCancel(r, digest, signers, now) => Cancel(b, r, digest, signers, now)
    case CallExpire(r, digest, now) => Expire(b, r, digest, now)
    case CallApprove(signer, epoch, period, recipient, owner, need, now) =>
      Approve(b, signer, epoch, period, recipient, owner, need, now)
    case CallAuthorize(r, signer, epoch, recipient, owner, now, period) =>
      if AuthorizesRelease(b, r, signer, epoch, recipient, owner, now, period) then Some(b) else None
  }

  /** Call after call; a refused call refuses the run. */
  function DoAll(b: Book, calls: seq<Call>): Option<Book>
    decreases |calls|
  {
    if calls == [] then Some(b)
    else match DoAll(b, calls[..|calls| - 1])
         case Some(b') => Do(b', calls[|calls| - 1])
         case None => None
  }
}
