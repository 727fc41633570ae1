/** Integer widths, results, roles and role masks shared by every module. */
module Basics {
  const U64_MAX: nat := 0xFFFF_FFFF_FFFF_FFFF
  const I64_MAX: int := 0x7FFF_FFFF_FFFF_FFFF
  const I64_MIN: int := -0x8000_0000_0000_0000

  type u8 = n: int | 0 <= n < 0x100
  type u16 = n: int | 0 <= n < 0x1_0000
  type u64 = n: int | 0 <= n <= U64_MAX
  type i64 = n: int | I64_MIN <= n <= I64_MAX
  /** A Unix time read from the runtime clock, which is taken to be non-negative. */
  type time = n: int | 0 <= n <= I64_MAX

  /** Every refusal of the launch vault, plus the account and token layers' own. */
  datatype Error =
    | InvalidConfig | IdentityMismatch | InvalidState | T0Boundary | PoolsNotFunded | Unauthorized
    | MintAuthorityLive | WrongPrincipal | ClockRollback | CliffActive | InvalidReport
    | CapacityExceeded | InvalidApproval | Overflow | ZeroAmount | InvalidAnnualRule
    | InvalidAccounting | CapacityCorrectionPause | ReservedQuotaExceeded | InvalidChange
    | ChangeNotice | RecoveryQuorum | WithdrawalPaused | WithdrawalAuthority | KnownSelfPayment
    | IneligibleSuccessor | SubmissionWindow | WithdrawalWindow
    | Constraint         // an account constraint, create-once or binding, was not met
    | InsufficientFunds  // the token program's own balance check

  datatype Option<+T> = None | Some(value: T)

  datatype Result<+T> = Ok(value: T) | Err(error: Error) {
    predicate IsFailure() { Err? }
    function PropagateFailure<U>(): Result<U>
      requires Err?
    {
      Err(error)
    }
    function Extract(): T
      requires Ok?
    {
      value
    }
  }

  datatype Check = Pass | Fail(error: Error) {
    predicate IsFailure() { Fail? }
    function PropagateFailure<U>(): Result<U>
      requires Fail?
    {
      Err(error)
    }
  }

  function Require(condition: bool, error: Error): Check {
    if condition then Pass else Fail(error)
  }

  function CheckedAdd(a: u64, b: u64, error: Error): Result<u64> {
    if a + b <= U64_MAX then Ok(a + b) else Err(error)
  }

  function CheckedAddTime(a: i64, b: i64): Result<i64> {
    if I64_MIN <= a + b <= I64_MAX then Ok(a + b) else Err(Overflow)
  }

  /** A truncating cast to 64 bits. */
  function AsU64(n: int): u64 { if 0 <= n <= U64_MAX then n else n % (U64_MAX + 1) }

  function Min(a: int, b: int): int { if a <= b then a else b }

  datatype Role = Founder | Treasury {
    function Other(): Role { if Founder? then Treasury else Founder }
    function Bit(): bv8 { if Founder? then 1 else 2 }
  }

  /** The role an instruction's number names; numbers above 1 name none. */
  function RoleOf(n: u8): Option<Role> {
    if n == 0 then Some(Founder) else if n == 1 then Some(Treasury) else None
  }

  /** One token amount per pool. */
  datatype Amounts = Amounts(founder: u64, treasury: u64) {
    function Get(r: Role): u64 { if r.Founder? then founder else treasury }
    function Set(r: Role, n: u64): Amounts {
      if r.Founder? then Amounts(n, treasury) else Amounts(founder, n)
    }
  }

  /** A role mask: the low two bits of a byte. */
  datatype Mask = Mask(founder: bool, treasury: bool) {
    function Has(r: Role): bool { if r.Founder? then founder else treasury }
    function With(r: Role): Mask { if r.Founder? then Mask(true, treasury) else Mask(founder, true) }
    function Without(r: Role): Mask { if r.Founder? then Mask(false, treasury) else Mask(founder, false) }
    function Bits(): bv8 { (if founder then 1 else 0) | (if treasury then 2 else 0) }
  }

  const EMPTY_MASK := Mask(false, false)

  /** The mask operations are the byte's test, set and clear of one bit, and no two masks share a byte. */
  lemma MaskIsByte(m: Mask, other: Mask, r: Role)
    ensures m.Has(r) <==> m.Bits() & r.Bit() != 0
    ensures m.With(r).Bits() == m.Bits() | r.Bit()
    ensures m.Without(r).Bits() == m.Bits() & !r.Bit()
    ensures m.Bits() == other.Bits() ==> m == other
  {
    var f: bv8, t: bv8 := if m.founder then 1 else 0, if m.treasury then 2 else 0;
    assert m.Bits() == f | t;
  }
}
