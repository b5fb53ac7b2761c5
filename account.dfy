/** Account handles as the handlers see them: a balance that is updated in
    place and a data buffer that holds the encoded state. */
module Accounts {
  import opened Base
  import opened State
  import opened Codec
  import opened Writer

  class Account {
    const key: Pubkey
    var lamports: u64
    const data: array<byte>
    const is_signer: bool

    constructor (key: Pubkey, lamports: u64, data: array<byte>, is_signer: bool)
      ensures this.key == key && this.lamports == lamports
      ensures this.data == data && this.is_signer == is_signer
    {
      this.key := key;
      this.lamports := lamports;
      this.data := data;
      this.is_signer := is_signer;
    }
  }

  /** What the runtime guarantees of two handles passed to one instruction:
      they are the same account exactly when their keys agree, and distinct
      accounts have distinct buffers. */
  ghost predicate Coherent(a: Account, b: Account)
  {
    (a == b <==> a.key == b.key) && (a != b ==> a.data != b.data)
  }

  /** The state an account holds, decoded from its buffer. A buffer too short
      for a discriminant holds no state, one whose discriminant is zero holds
      `Uninitialized`, and a decoded state always fits back into the buffer. */
  function GetStakeState(acc: Account): (r: Result<StakeStateV2>)
    reads acc.data
    ensures acc.data.Length < TAG_LEN ==> r.Err?
    ensures acc.data.Length >= TAG_LEN && (forall i :: 0 <= i < TAG_LEN ==> acc.data[i] == 0) ==>
              r == Ok(Uninitialized)
    ensures r.Ok? ==> |Encode(r.value)| <= acc.data.Length
  {
    if acc.data.Length >= TAG_LEN && (forall i :: 0 <= i < TAG_LEN ==> acc.data[i] == 0) then
      DecodeZeroTag(acc.data[..]);
      Decode(acc.data[..])
    else
      Decode(acc.data[..])
  }

  /** Serializes `s` into the front of the account's buffer through a slice
      writer: the discriminant first, then the fields right after it. The
      writer assumes the record fits. */
  method SetStakeState(acc: Account, s: StakeStateV2)
    requires |Encode(s)| <= acc.data.Length
    modifies acc.data
    ensures acc.data[..] == Overwrite(old(acc.data[..]), Encode(s))
    ensures GetStakeState(acc) == Ok(s)
  {
    var bytes := Encode(s);
    var w := new SliceWriter(acc.data);
    var _ := w.WriteAll(bytes[..TAG_LEN]);
    var _ := w.WriteAll(bytes[TAG_LEN..]);
    assert bytes[..TAG_LEN] + bytes[TAG_LEN..] == bytes;
    DecodeEncode(s, acc.data[|bytes|..]);
  }

  /** Resets a buffer of the fixed size to `Uninitialized` by writing a zero
      discriminant; the rest of the buffer is left as it was. The program
      writes through the standard library's writer for byte slices, not through
      `SliceWriter`; with the fixed size assumed, the four bytes always fit,
      and both writers then copy them to the front of the buffer. */
  method WriteUninitializedStakeToSlice(data: array<byte>)
    requires data.Length == STATE_SIZE
    modifies data
    ensures data[..] == Overwrite(old(data[..]), EncodeTag(0))
    ensures forall i :: 0 <= i < TAG_LEN ==> data[i] == 0
    ensures data[TAG_LEN..] == old(data[TAG_LEN..])
    ensures Decode(data[..]) == Ok(Uninitialized)
  {
    var w := new SliceWriter(data);
    var _ := w.WriteAll(EncodeTag(0));
    DecodeZeroTag(data[..]);
  }

  /** Whether moving `lamports` from `src` to `dst` neither underflows the
      source nor overflows the destination. */
  predicate CanRelocate(src: Account, dst: Account, lamports: u64)
    reads src, dst
  {
    lamports <= src.lamports && (src == dst || dst.lamports + lamports <= U64_MAX)
  }

  /** Moves `lamports` from `src` to `dst`: a checked subtraction, then a
      checked addition, either of which aborts the instruction. The same
      account may be on both sides. */
  method RelocateLamports(src: Account, dst: Account, lamports: u64) returns (r: Outcome)
    modifies src, dst
    ensures r.Pass? <==> old(CanRelocate(src, dst, lamports))
    ensures r.Pass? && src != dst ==> src.lamports == old(src.lamports) - lamports
                                      && dst.lamports == old(dst.lamports) + lamports
    ensures src != dst ==> src.lamports + dst.lamports == old(src.lamports) + old(dst.lamports)
    ensures src == dst || r.Fail? ==> src.lamports == old(src.lamports) && dst.lamports == old(dst.lamports)
  {
    if lamports > src.lamports {
      return Fail(ArithmeticOverflow);
    }
    var sourceAfter := src.lamports - lamports;
    var destinationBefore := if dst == src then sourceAfter else dst.lamports;
    if destinationBefore + lamports > U64_MAX {
      return Fail(ArithmeticOverflow);
    }
    src.lamports := sourceAfter;
    dst.lamports := dst.lamports + lamports;
    r := Pass;
  }
}
