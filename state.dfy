/** The stake-account record: a tagged state value and its sub-records. */
module State {
  import opened Base

  datatype Authorized = Authorized(staker: Pubkey, withdrawer: Pubkey)

  datatype Lockup = Lockup(unix_timestamp: i64, epoch: u64, custodian: Pubkey)

  datatype Meta = Meta(rent_exempt_reserve: u64, authorized: Authorized, lockup: Lockup)

  /** The binding of an account's funds to a validator. `deactivation_epoch ==
      U64_MAX` means "not deactivating". The library's deprecated floating-point
      warm-up/cool-down rate is not part of this model. */
  datatype Delegation = Delegation(
    voter_pubkey: Pubkey,
    stake: u64,
    activation_epoch: u64,
    deactivation_epoch: u64)

  datatype Stake = Stake(delegation: Delegation, credits_observed: u64)

  /** An 8-bit set of flags; no transition rule inspects it. */
  datatype StakeFlags = StakeFlags(bits: byte)

  const EMPTY_FLAGS := StakeFlags(0)

  /** The account state. `RewardsPool` is a variant that none of the handlers
      accepts. */
  datatype StakeStateV2 =
    | Uninitialized
    | Initialized(meta: Meta)
    | Stake(meta: Meta, stake: Stake, flags: StakeFlags)
    | RewardsPool

  /** Which of the two authorities an authorize instruction replaces. */
  datatype StakeAuthorize = Staker | Withdrawer

  /** The policy minimum for a delegated amount. */
  const MINIMUM_DELEGATION: u64 := 1
}
