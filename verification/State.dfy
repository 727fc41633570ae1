/** The accounts of one launch policy and the time arithmetic over them. */
module State {
  import opened Basics

  const PERIOD: int := 30 * 86_400
  const CLIFF: int := 180 * 86_400
  const RATE_DIVISOR: int := 12
  const MAX_RELEASE_BPS: int := 500
  const CHANGE_NOTICE: int := 90 * 86_400
  const MAX_SUBMISSION_WINDOW: int := 300
  const EXECUTION_WINDOW: int := 30 * 86_400

  /** A public key: the all-zero default, an ordinary key, or a vault's program-derived authority. */
  datatype Key = Default | Account(id: nat) | VaultAuthority(role: Role)

  /** Only ordinary keys can sign: program-derived authorities and the default key cannot. */
  type Signer = k: Key | k.Account? witness Account(0)

  /** A token account's address; the vaults' addresses are program-derived. */
  datatype Addr = VaultToken(role: Role) | Wallet(id: nat)

  datatype Committee = Committee(one: Key, two: Key, three: Key) {
    predicate Has(k: Key) { k == one || k == two || k == three }
    function Members(): set<Key> { {one, two, three} }
  }

  /** Two different members of a committee. */
  predicate Quorum(keys: Committee, a: Key, b: Key) { a != b && keys.Has(a) && keys.Has(b) }

  /**
   Who may retract a proposal: two guardians, its successor alone, or the current key alone unless it is a recovery.
   */
  predicate MayRetract(keys: Committee, current: Key, successor: Key, recovery: bool, a: Key, b: Key) {
    || Quorum(keys, a, b)
    || (a == b && (a == successor || (!recovery && a == current)))
  }

  datatype Rule = Rule(startPeriod: u64, endPeriod: u64, basis: Amounts, sharedCap: u64, releaseBps: u16,
      sourceHash: nat)

  datatype Rules = Rules(first: Rule, second: Rule) {
    function At(index: u8): Rule { if index == 0 then first else second }
  }

  datatype Config = Config(
    t0: i64, amount: Amounts, periodCap: Amounts, sharedHardCap: u64, maxReportAge: i64,
    rules: Rules, recoveryKeys: Committee, founderGuardians: Committee, treasuryGuardians: Committee) {
    function Guardians(r: Role): Committee { if r.Founder? then founderGuardians else treasuryGuardians }
  }

  datatype Mint = Mint(supply: u64, mintAuthority: Option<Key>, freezeAuthority: Option<Key>)

  /** The identity inputs of a policy, fixed for its lifetime. */
  datatype Terms = Terms(
    creator: Signer, mint: Mint, founder: Signer, treasury: Signer, oracle: Key, specHash: nat, config: Config) {
    function Owner(r: Role): Signer { if r.Founder? then founder else treasury }
  }

  datatype Phase = Prepared | Armed | Active | Cancelled

  /** The accounting counters of the policy account. */
  datatype Books = Books(
    period: u64, annualIndex: u8, periodUsed: Amounts, annualUsed: Amounts,
    released: Amounts, sharedUsed: u64)

  const EMPTY_BOOKS := Books(0, 0, Amounts(0, 0), Amounts(0, 0), Amounts(0, 0), 0)

  datatype Report = Report(period: u64, capacity: u64, at: i64, sequence: u64, epoch: u64, valid: bool)

  const NO_REPORT := Report(0, 0, 0, 0, 0, false)

  datatype ChangeKind = ChangeOracle | ChangeController

  datatype Status = Pending | Executed | Retracted | Expired

  datatype Change = Change(
    nonce: u64, kind: ChangeKind, recovery: bool, successor: Key, controllerEpoch: u64,
    oracleEpoch: u64, createdAt: i64, executeAfter: i64, status: Status)

  /** Control of the policy: oracle, controller, their pending change and every change ever proposed. */
  datatype Governance = Governance(
    oracle: Key, controller: Key, oracleEpoch: u64, controllerEpoch: u64, oracleActivatedAt: i64,
    changeSequence: u64, pendingChange: u64, changes: map<u64, Change>, report: Report)

  datatype Proposal = Proposal(
    role: Role, nonce: u64, epoch: u64, predecessor: Key, successor: Key, recovery: bool,
    validFrom: i64, validUntil: i64, createdAt: i64, executeAfter: i64, expiresAt: i64,
    status: Status, finishedAt: i64)

  datatype RoleState = RoleState(current: Key, epoch: u64, sequence: u64, pending: u64)

  /** One role's authority and every proposal ever made for it, by nonce. */
  datatype Lane = Lane(state: RoleState, proposals: map<u64, Proposal>)

  /** The permanent index record of one key, stored under that key. */
  datatype KeyRecord = KeyRecord(history: Mask, pending: Mask, recipient: bool)

  datatype Approval = Approval(
    period: u64, recipient: Addr, recipientOwner: Key, need: u64, consumed: u64, createdAt: i64,
    author: Key, authorEpoch: u64)

  /** Withdrawal authority: both roles' lanes, every key record and every approval by its period. */
  datatype Registry = Registry(
    founder: Lane, treasury: Lane, keys: map<Key, KeyRecord>, approvals: map<u64, Approval>, approvalCount: u64) {
    function Lane(r: Role): Lane { if r.Founder? then founder else treasury }
    function With(r: Role, lane: Lane): Registry {
      if r.Founder? then this.(founder := lane) else this.(treasury := lane)
    }
  }

  datatype Vault = Vault(
    depositor: Key, authority: Key, role: Role, principal: u64, releasedTotal: u64, period: u64,
    periodUsed: u64)

  /** A token account of the policy's mint. */
  datatype TokenAccount = TokenAccount(owner: Key, amount: u64)

  datatype World = World(
    terms: Terms, phase: Phase, funded: Mask, lastActionAt: time, books: Books, gov: Governance,
    registry: Registry, vaults: map<Role, Vault>, tokens: map<Addr, TokenAccount>)

  function PeriodAt(t0: i64, now: i64): Result<u64> {
    if now < t0 then Err(T0Boundary) else
    :- Require(now - t0 <= I64_MAX, Overflow);
    Ok((now - t0) / PERIOD)
  }

  function PeriodStart(t0: i64, period: u64): Result<i64> {
    var start := t0 + period * PERIOD;
    :- Require(I64_MIN <= start <= I64_MAX, Overflow);
    Ok(start)
  }

  /** A time lies in exactly the period whose start it has reached and whose end it has not. */
  lemma PeriodContains(t0: time, now: time, period: u64)
    ensures PeriodAt(t0, now).Ok? <==> t0 <= now
    ensures PeriodAt(t0, now) == Ok(period) <==> t0 + period * PERIOD <= now < t0 + (period + 1) * PERIOD
    ensures PeriodAt(t0, now) == Ok(period) ==> PeriodStart(t0, period) == Ok(t0 + period * PERIOD)
  {
  }

  /** The cliff falls exactly on the start of period 6. */
  lemma CliffIsPeriodSix(t0: time, now: time)
    requires t0 <= now
    ensures now >= t0 + CLIFF <==> PeriodAt(t0, now).value >= 6
  {
  }
}
