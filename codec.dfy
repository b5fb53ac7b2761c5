/** The fixed binary record of a stake account: a 4-byte little-endian
    discriminant (0 Uninitialized, 1 Initialized, 2 Stake, 3 RewardsPool)
    followed by the variant's fields in declaration order, integers
    little-endian and keys as their 32 raw bytes. Decoding reads a prefix and
    ignores whatever follows it; encoding produces only the logical bytes, so
    writing a state into an account buffer leaves the tail of the buffer as it
    was. */
module Codec {
  import opened Base
  import opened State

  const TAG_LEN := 4
  const META_LEN := 120
  const STAKE_LEN := 64
  /** Bytes an `Initialized` record occupies. */
  const INITIALIZED_LEN := TAG_LEN + META_LEN
  /** Bytes a `Stake` record occupies (tag, meta, stake, flags). */
  const STAKE_STATE_LEN := TAG_LEN + META_LEN + STAKE_LEN + 1
  /** The fixed size of every stake account's data. */
  const STATE_SIZE := 200

  const TWO_POW_63 := 0x8000_0000_0000_0000
  const TWO_POW_64 := 0x1_0000_0000_0000_0000

  function Pow256(n: nat): (p: nat)
    ensures p > 0
  {
    if n == 0 then 1 else 256 * Pow256(n - 1)
  }

  /** The `n` little-endian bytes of `x` (the low `n` bytes when `x` is wider). */
  function LeBytes(x: nat, n: nat): (r: seq<byte>)
    ensures |r| == n
  {
    if n == 0 then [] else [x % 256] + LeBytes(x / 256, n - 1)
  }

  /** The number whose little-endian bytes are `b`. */
  function FromLe(b: seq<byte>): (x: nat)
    ensures x < Pow256(|b|)
  {
    if b == [] then 0 else b[0] + 256 * FromLe(b[1..])
  }

  /** Reading back `n` little-endian bytes gives the number written. */
  lemma {:induction false} LeRoundTrip(x: nat, n: nat)
    requires x < Pow256(n)
    ensures FromLe(LeBytes(x, n)) == x
  {
    if n > 0 {
      assert x / 256 < Pow256(n - 1);
      LeRoundTrip(x / 256, n - 1);
      assert LeBytes(x, n)[1..] == LeBytes(x / 256, n - 1);
    }
  }

  /** All-zero bytes read as the number 0. */
  lemma {:induction false} FromLeZeros(b: seq<byte>)
    requires forall i :: 0 <= i < |b| ==> b[i] == 0
    ensures FromLe(b) == 0
  {
    if b != [] {
      FromLeZeros(b[1..]);
    }
  }

  function EncodeU64(x: u64): (r: seq<byte>)
    ensures |r| == 8
  {
    LeBytes(x, 8)
  }

  function DecodeU64(b: seq<byte>): u64
    requires |b| == 8
  {
    assert Pow256(8) == TWO_POW_64;
    FromLe(b)
  }

  lemma U64RoundTrip(x: u64)
    ensures DecodeU64(EncodeU64(x)) == x
  {
    assert Pow256(8) == TWO_POW_64;
    LeRoundTrip(x, 8);
  }

  /** Two's complement, as `i64::to_le_bytes`. */
  function EncodeI64(x: i64): (r: seq<byte>)
    ensures |r| == 8
  {
    LeBytes(if x < 0 then x + TWO_POW_64 else x, 8)
  }

  function DecodeI64(b: seq<byte>): i64
    requires |b| == 8
  {
    assert Pow256(8) == TWO_POW_64;
    var v := FromLe(b);
    if v >= TWO_POW_63 then v - TWO_POW_64 else v
  }

  lemma I64RoundTrip(x: i64)
    ensures DecodeI64(EncodeI64(x)) == x
  {
    assert Pow256(8) == TWO_POW_64;
    LeRoundTrip(if x < 0 then x + TWO_POW_64 else x, 8);
  }

  function EncodeTag(tag: u32): (r: seq<byte>)
    ensures |r| == TAG_LEN
  {
    LeBytes(tag, TAG_LEN)
  }

  function EncodeMeta(m: Meta): (r: seq<byte>)
    ensures |r| == META_LEN
  {
    EncodeU64(m.rent_exempt_reserve)
    + m.authorized.staker + m.authorized.withdrawer
    + EncodeI64(m.lockup.unix_timestamp) + EncodeU64(m.lockup.epoch) + m.lockup.custodian
  }

  function DecodeMeta(b: seq<byte>): Meta
    requires |b| == META_LEN
  {
    Meta(DecodeU64(b[0..8]),
         Authorized(b[8..40], b[40..72]),
         Lockup(DecodeI64(b[72..80]), DecodeU64(b[80..88]), b[88..120]))
  }

  lemma MetaRoundTrip(m: Meta)
    ensures DecodeMeta(EncodeMeta(m)) == m
  {
    var e := EncodeMeta(m);
    assert e[0..8] == EncodeU64(m.rent_exempt_reserve);
    assert e[8..40] == m.authorized.staker;
    assert e[40..72] == m.authorized.withdrawer;
    assert e[72..80] == EncodeI64(m.lockup.unix_timestamp);
    assert e[80..88] == EncodeU64(m.lockup.epoch);
    assert e[88..120] == m.lockup.custodian;
    U64RoundTrip(m.rent_exempt_reserve);
    I64RoundTrip(m.lockup.unix_timestamp);
    U64RoundTrip(m.lockup.epoch);
  }

  function EncodeStake(s: Stake): (r: seq<byte>)
    ensures |r| == STAKE_LEN
  {
    s.delegation.voter_pubkey
    + EncodeU64(s.delegation.stake)
    + EncodeU64(s.delegation.activation_epoch)
    + EncodeU64(s.delegation.deactivation_epoch)
    + EncodeU64(s.credits_observed)
  }

  function DecodeStake(b: seq<byte>): Stake
    requires |b| == STAKE_LEN
  {
    Stake.Stake(
      Delegation(b[0..32], DecodeU64(b[32..40]), DecodeU64(b[40..48]), DecodeU64(b[48..56])),
      DecodeU64(b[56..64]))
  }

  lemma StakeRoundTrip(s: Stake)
    ensures DecodeStake(EncodeStake(s)) == s
  {
    var e := EncodeStake(s);
    assert e[0..32] == s.delegation.voter_pubkey;
    assert e[32..40] == EncodeU64(s.delegation.stake);
    assert e[40..48] == EncodeU64(s.delegation.activation_epoch);
    assert e[48..56] == EncodeU64(s.delegation.deactivation_epoch);
    assert e[56..64] == EncodeU64(s.credits_observed) by {
      assert e[56..] == EncodeU64(s.credits_observed);
    }
    U64RoundTrip(s.delegation.stake);
    U64RoundTrip(s.delegation.activation_epoch);
    U64RoundTrip(s.delegation.deactivation_epoch);
    U64RoundTrip(s.credits_observed);
  }

  /** The logical bytes of a state, as the serializer writes them. */
  function Encode(s: StakeStateV2): (r: seq<byte>)
  {
    match s
    case Uninitialized => EncodeTag(0)
    case Initialized(m) => EncodeTag(1) + EncodeMeta(m)
    case Stake(m, st, f) => EncodeTag(2) + EncodeMeta(m) + EncodeStake(st) + [f.bits]
    case RewardsPool => EncodeTag(3)
  }

  /** The state a buffer holds: read from its prefix; fails when the buffer
      is shorter than the record its tag announces or the tag is unknown. */
  function Decode(data: seq<byte>): (r: Result<StakeStateV2>)
  {
    if |data| < TAG_LEN then Err(InvalidAccountData)
    else
      var tag := FromLe(data[..TAG_LEN]);
      if tag == 0 then Ok(Uninitialized)
      else if tag == 1 then
        if |data| < INITIALIZED_LEN then Err(InvalidAccountData)
        else Ok(Initialized(DecodeMeta(data[TAG_LEN..INITIALIZED_LEN])))
      else if tag == 2 then
        if |data| < STAKE_STATE_LEN then Err(InvalidAccountData)
        else Ok(StakeStateV2.Stake(
                  DecodeMeta(data[TAG_LEN..INITIALIZED_LEN]),
                  DecodeStake(data[INITIALIZED_LEN..INITIALIZED_LEN + STAKE_LEN]),
                  StakeFlags(data[INITIALIZED_LEN + STAKE_LEN])))
      else if tag == 3 then Ok(RewardsPool)
      else Err(InvalidAccountData)
  }

  /** Every record fits the fixed account size; a `Stake` record is the longest. */
  lemma EncodedLength(s: StakeStateV2)
    ensures |Encode(s)| <= STAKE_STATE_LEN < STATE_SIZE
    ensures s.Stake? <==> |Encode(s)| == STAKE_STATE_LEN
    ensures s.Initialized? <==> |Encode(s)| == INITIALIZED_LEN
  {
  }

  /** Decoding what was encoded, whatever bytes follow it, gives the state back. */
  lemma DecodeEncode(s: StakeStateV2, rest: seq<byte>)
    ensures Decode(Encode(s) + rest) == Ok(s)
  {
    var d := Encode(s) + rest;
    var tag: nat := match s
      case Uninitialized => 0
      case Initialized(_) => 1
      case Stake(_, _, _) => 2
      case RewardsPool => 3;
    assert d[..TAG_LEN] == EncodeTag(tag);
    LeRoundTrip(tag, TAG_LEN);
    match s
    case Initialized(m) =>
      assert d[TAG_LEN..INITIALIZED_LEN] == EncodeMeta(m);
      MetaRoundTrip(m);
    case Stake(m, st, f) =>
      assert d[TAG_LEN..INITIALIZED_LEN] == EncodeMeta(m);
      assert d[INITIALIZED_LEN..INITIALIZED_LEN + STAKE_LEN] == EncodeStake(st);
      assert d[INITIALIZED_LEN + STAKE_LEN] == f.bits;
      MetaRoundTrip(m);
      StakeRoundTrip(st);
    case _ =>
  }

  /** A buffer whose first four bytes are zero holds `Uninitialized`, whatever
      the other bytes are. */
  lemma DecodeZeroTag(data: seq<byte>)
    requires |data| >= TAG_LEN
    requires forall i :: 0 <= i < TAG_LEN ==> data[i] == 0
    ensures Decode(data) == Ok(Uninitialized)
  {
    FromLeZeros(data[..TAG_LEN]);
  }
}
