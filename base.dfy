/** Machine integers, keys and the failure type shared by every module of the
    stake-account model. Integers are unbounded in Dafny: the widths of the
    program's `u8`, `u32`, `u64` and `i64` are subset types, and its checked and
    saturating operations are written out below. */
module Base {

  type byte = b: int | 0 <= b < 0x100
  type u32 = x: int | 0 <= x < 0x1_0000_0000
  type u64 = x: int | 0 <= x < 0x1_0000_0000_0000_0000
  type i64 = x: int | -0x8000_0000_0000_0000 <= x < 0x8000_0000_0000_0000

  const U64_MAX: u64 := 0xFFFF_FFFF_FFFF_FFFF

  /** A public key is 32 raw bytes. */
  type Pubkey = k: seq<byte> | |k| == 32 witness seq(32, _ => 0)

  /** The kinds of failure. The program panics on every one of them, which aborts
      the whole instruction with no effect; the names are those of the program
      errors the panics stand in for. */
  datatype Error =
    | InvalidAccountData
    | InvalidArgument
    | InsufficientFunds
    | InsufficientDelegation
    | InsufficientStake
    | AlreadyDeactivated
    | TooSoonToRedelegate
    | MissingRequiredSignature
    | ArithmeticOverflow

  datatype Result<+T> = Ok(value: T) | Err(error: Error)

  datatype Option<+T> = None | Some(value: T)

  datatype Outcome = Pass | Fail(error: Error)

  /** `u64::saturating_sub`. */
  function SaturatingSub(a: u64, b: u64): (r: u64)
    ensures r <= a
    ensures b <= a ==> r + b == a
    ensures a < b <==> r == 0 && a != b
  {
    if a < b then 0 else a - b
  }

  /** `u64::checked_add`: `Err` on overflow. */
  function CheckedAdd(a: u64, b: u64): (r: Result<u64>)
    ensures r.Ok? <==> a + b <= U64_MAX
    ensures r.Ok? ==> r.value == a + b
  {
    if a + b <= U64_MAX then Ok(a + b) else Err(ArithmeticOverflow)
  }
}
