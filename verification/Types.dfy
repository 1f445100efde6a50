/** The values the contract stores and the facts one call is judged by. */
module Types {

  /** None stands for a panic: the host reverts the whole call. */
  datatype Option<+T> = None | Some(value: T) {
    predicate IsFailure() {
      None?
    }

    function PropagateFailure<U>(): Option<U>
      requires None?
    {
      None
    }

    function Extract(): T
      requires Some?
    {
      value
    }
  }

  const I128_MIN: int := -0x8000_0000_0000_0000_0000_0000_0000_0000
  const I128_MAX: int := 0x7FFF_FFFF_FFFF_FFFF_FFFF_FFFF_FFFF_FFFF
  const U32_MAX: int := 0xFFFF_FFFF

  type i128 = x: int | I128_MIN <= x <= I128_MAX
  type u32 = x: int | 0 <= x <= U32_MAX

  predicate FitsI128(x: int) {
    I128_MIN <= x <= I128_MAX
  }

  predicate FitsU32(x: int) {
    0 <= x <= U32_MAX
  }

  /** Integer division as Rust performs it, truncating toward zero. */
  function Quot(x: int, y: int): int
    requires y > 0
  {
    if x >= 0 then x / y else -((-x) / y)
  }

  /** `Contract` is the token contract's own address; it holds the funds in custody. */
  datatype Address = Contract | Account(key: nat)

  type Balances = map<Address, i128>

  datatype Ledger = Ledger(balances: Balances, supply: i128, cap: i128)

  datatype Pair = Pair(from: Address, spender: Address)

  datatype Allowance = Allowance(amount: i128, expiration: u32)

  type Allowances = map<Pair, Allowance>

  datatype EscrowRecord = EscrowRecord(
    id: u32, depositor: Address, beneficiary: Address, amount: i128,
    released: bool, refunded: bool, expiry: u32)
  {
    predicate Settled() {
      released || refunded
    }
  }

  datatype DisputeStatus = Open | Appealed | ResolvedForBeneficiary | ResolvedForDepositor | Expired

  datatype DisputeRecord = DisputeRecord(
    id: u32, escrowId: u32, claimant: Address, resolver: Address, status: DisputeStatus,
    openedAt: u32, expiry: u32, appealResolver: Option<Address>)

  datatype Recipient = Recipient(address: Address, shareBps: u32)

  datatype SplitRecord = SplitRecord(
    id: u32, sender: Address, recipients: seq<Recipient>, total: i128,
    distributed: bool, cancelled: bool)
  {
    predicate Pending() {
      !distributed && !cancelled
    }
  }

  datatype RecurringRecord = RecurringRecord(
    id: u32, payer: Address, payee: Address, amount: i128, interval: u32,
    last: u32, active: bool, paused: bool)

  datatype BatchEntry = BatchEntry(address: Address, amount: i128)

  /** A counter cell together with the records filed under the ids it has given out. */
  datatype Book<T> = Book(count: u32, recs: map<u32, T>) {
    /** The ids in use are exactly 1, 2, ..., count. */
    ghost predicate Dense() {
      forall i: int :: i in recs <==> 1 <= i <= count
    }

    /** The counter is bumped and the record filed under the new id. */
    function Add(r: T): Book<T>
      requires count < U32_MAX
    {
      Book(count + 1, recs[count + 1 := r])
    }

    function Put(id: u32, r: T): Book<T> {
      Book(count, recs[id := r])
    }
  }

  /** Everything that decides what the contract does, without the lookup indexes. */
  datatype State = State(
    ledger: Ledger, allowances: Allowances, escrows: Book<EscrowRecord>,
    disputes: Book<DisputeRecord>, splits: Book<SplitRecord>, recurrings: Book<RecurringRecord>)

  /** What the host and the admin, pause and freeze cells say during one call. */
  datatype Ctx = Ctx(
    ledger: u32, signers: set<Address>, admin: Address, adminActiveAfter: Option<u32>,
    cosigner: Option<Address>, paused: bool, frozen: set<Address>)
  {
    predicate Signed(a: Address) {
      a in signers
    }

    predicate IsAdmin(a: Address) {
      && a in signers
      && (adminActiveAfter.Some? ==> adminActiveAfter.value <= ledger)
      && a == admin
    }

    predicate CosignerAgrees() {
      cosigner.Some? ==> cosigner.value in signers
    }

    /** The contract never signs for its own address. */
    predicate Genuine() {
      Contract !in signers
    }
  }
}
