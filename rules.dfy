/** The transition rules of the stake program as functions of decoded states:
    what each handler accepts and which states it writes. The handlers in
    `Processor` are proved to implement these, and `RuleProperties` proves what
    the rules promise. Quantities the program draws nondeterministically
    (effective stake, credits observed, the split branch and reserve
    adjustment, a new rent-exempt reserve, a merged stake) are parameters. */
module Rules {
  import opened Base
  import opened State

  // ---------------------------------------------------------------- withdraw

  /** What a withdrawal must leave behind (`amount`) and whether the account
      still carries stake that a full withdrawal would destroy. */
  datatype Reserve = Reserve(amount: u64, is_staked: bool)

  /** The stake a withdrawal counts as locked: the whole delegation until the
      deactivation epoch is reached, the effective stake from then on. */
  function LockedStake(stake: Stake, epoch: u64, effective: u64): u64
  {
    if epoch >= stake.delegation.deactivation_epoch then effective else stake.delegation.stake
  }

  /** The reserve and staked flag of a state; `RewardsPool` is refused and the
      sum of locked stake and rent-exempt reserve must not overflow. */
  function WithdrawReserve(s: StakeStateV2, epoch: u64, effective: u64): (r: Result<Reserve>)
    ensures r.Ok? <==> !s.RewardsPool?
                       && (s.Stake? ==> LockedStake(s.stake, epoch, effective) + s.meta.rent_exempt_reserve <= U64_MAX)
    ensures r.Ok? ==> (r.value.is_staked <==> s.Stake? && LockedStake(s.stake, epoch, effective) != 0)
    ensures r.Ok? && s.Stake? ==> r.value.amount == LockedStake(s.stake, epoch, effective) + s.meta.rent_exempt_reserve
    ensures r.Ok? && s.Initialized? ==> r.value.amount == s.meta.rent_exempt_reserve
    ensures r.Ok? && s.Uninitialized? ==> r.value.amount == 0
  {
    match s
    case Stake(meta, stake, _) =>
      var staked := LockedStake(stake, epoch, effective);
      var total := CheckedAdd(staked, meta.rent_exempt_reserve);
      if total.Err? then Err(total.error) else Ok(Reserve(total.value, staked != 0))
    case Initialized(meta) => Ok(Reserve(meta.rent_exempt_reserve, false))
    case Uninitialized => Ok(Reserve(0, false))
    case RewardsPool => Err(InvalidAccountData)
  }

  /** A full withdrawal needs no stake at risk; a partial one must leave the
      reserve in place. The program adds with `checked_add` and compares with
      the balance; since the balance is a `u64`, that is the unbounded sum
      compared with the balance. */
  predicate WithdrawAllowed(reserve: Reserve, balance: u64, withdraw_lamports: u64)
    ensures WithdrawAllowed(reserve, balance, withdraw_lamports) ==> withdraw_lamports <= balance
    ensures WithdrawAllowed(reserve, balance, withdraw_lamports) && withdraw_lamports != balance ==>
              reserve.amount <= balance - withdraw_lamports
    ensures withdraw_lamports == balance ==>
              (WithdrawAllowed(reserve, balance, withdraw_lamports) <==> !reserve.is_staked)
  {
    if withdraw_lamports == balance then !reserve.is_staked
    else withdraw_lamports + reserve.amount <= balance
  }

  // ---------------------------------------------------------------- delegate

  /** The amount a delegation stakes: the balance above the rent-exempt
      reserve, which must reach the minimum delegation. */
  function ValidateDelegatedAmount(balance: u64, meta: Meta): (r: Result<u64>)
    ensures r.Ok? <==> balance >= meta.rent_exempt_reserve + MINIMUM_DELEGATION
    ensures r.Ok? ==> r.value >= MINIMUM_DELEGATION && r.value + meta.rent_exempt_reserve == balance
    ensures r.Err? ==> r.error == InsufficientDelegation
  {
    var stake_amount := SaturatingSub(balance, meta.rent_exempt_reserve);
    if stake_amount < MINIMUM_DELEGATION then Err(InsufficientDelegation) else Ok(stake_amount)
  }

  /** `Delegation::new` of the library: a delegation that is not deactivating. */
  function NewDelegation(voter_pubkey: Pubkey, stake: u64, activation_epoch: u64): Delegation
  {
    Delegation(voter_pubkey, stake, activation_epoch, U64_MAX)
  }

  /** A fresh stake activated at `epoch`: it carries the given amount, voter
      and credits and is not deactivating. */
  function NewStake(stake: u64, voter_pubkey: Pubkey, activation_epoch: u64, credits_observed: u64): (r: Stake)
    ensures r.delegation.stake == stake && r.delegation.voter_pubkey == voter_pubkey
    ensures r.delegation.activation_epoch == activation_epoch && r.credits_observed == credits_observed
    ensures r.delegation.deactivation_epoch == U64_MAX
  {
    Stake.Stake(NewDelegation(voter_pubkey, stake, activation_epoch), credits_observed)
  }

  /** The stake after a redelegation. Active stake (nonzero effective stake)
      can only have a deactivation scheduled for this very epoch rescinded,
      and only towards the same voter; inactive stake is delegated afresh. */
  function Redelegated(stake: Stake, stake_lamports: u64, voter_pubkey: Pubkey, epoch: u64,
                       effective: u64, credits_observed: u64): Result<Stake>
  {
    if effective != 0 then
      if stake.delegation.voter_pubkey == voter_pubkey && epoch == stake.delegation.deactivation_epoch
      then Ok(stake.(delegation := stake.delegation.(deactivation_epoch := U64_MAX)))
      else Err(TooSoonToRedelegate)
    else
      Ok(Stake.Stake(stake.delegation.(stake := stake_lamports, activation_epoch := epoch,
                                       deactivation_epoch := U64_MAX, voter_pubkey := voter_pubkey),
                     credits_observed))
  }

  /** The state a delegate instruction writes, from `Initialized` or `Stake`. */
  function DelegatedState(s: StakeStateV2, balance: u64, voter_pubkey: Pubkey, epoch: u64,
                          effective: u64, credits_observed: u64): Result<StakeStateV2>
  {
    match s
    case Initialized(meta) =>
      var amount := ValidateDelegatedAmount(balance, meta);
      if amount.Err? then Err(amount.error)
      else Ok(StakeStateV2.Stake(meta, NewStake(amount.value, voter_pubkey, epoch, credits_observed), EMPTY_FLAGS))
    case Stake(meta, stake, flags) =>
      var amount := ValidateDelegatedAmount(balance, meta);
      if amount.Err? then Err(amount.error)
      else
        var redelegated := Redelegated(stake, amount.value, voter_pubkey, epoch, effective, credits_observed);
        if redelegated.Err? then Err(redelegated.error)
        else Ok(StakeStateV2.Stake(meta, redelegated.value, flags))
    case _ => Err(InvalidAccountData)
  }

  // -------------------------------------------------------------- deactivate

  /** `Stake::deactivate` of the library: schedules deactivation at `epoch`,
      refused when a deactivation is already scheduled. */
  function Deactivate(stake: Stake, epoch: u64): Result<Stake>
  {
    if stake.delegation.deactivation_epoch != U64_MAX then Err(AlreadyDeactivated)
    else Ok(stake.(delegation := stake.delegation.(deactivation_epoch := epoch)))
  }

  /** The state a deactivate instruction writes; only `Stake` is accepted. */
  function DeactivatedState(s: StakeStateV2, epoch: u64): Result<StakeStateV2>
  {
    match s
    case Stake(meta, stake, flags) =>
      var deactivated := Deactivate(stake, epoch);
      if deactivated.Err? then Err(deactivated.error)
      else Ok(StakeStateV2.Stake(meta, deactivated.value, flags))
    case _ => Err(InvalidAccountData)
  }

  // --------------------------------------------------------------- authorize

  /** `meta` with the selected authority replaced by `new_authority`. */
  function Authorize(meta: Meta, new_authority: Pubkey, authority_type: StakeAuthorize): Meta
  {
    match authority_type
    case Staker => meta.(authorized := meta.authorized.(staker := new_authority))
    case Withdrawer => meta.(authorized := meta.authorized.(withdrawer := new_authority))
  }

  /** The state an authorize instruction writes; no signature or lockup is
      checked. */
  function AuthorizedState(s: StakeStateV2, new_authority: Pubkey, authority_type: StakeAuthorize): Result<StakeStateV2>
  {
    match s
    case Initialized(meta) => Ok(Initialized(Authorize(meta, new_authority, authority_type)))
    case Stake(meta, stake, flags) => Ok(StakeStateV2.Stake(Authorize(meta, new_authority, authority_type), stake, flags))
    case _ => Err(InvalidAccountData)
  }

  // ------------------------------------------------------------------- split

  /** `Stake::split` of the library: takes `remaining_stake_delta` off the
      source stake and returns a copy of the reduced stake holding
      `split_stake_amount`. */
  function SplitStake(stake: Stake, remaining_stake_delta: u64, split_stake_amount: u64): Result<(Stake, Stake)>
  {
    if remaining_stake_delta > stake.delegation.stake then Err(InsufficientStake)
    else
      var source := stake.(delegation := stake.delegation.(stake := stake.delegation.stake - remaining_stake_delta));
      Ok((source, source.(delegation := source.delegation.(stake := split_stake_amount))))
  }

  /** The pair (remaining_stake_delta, split_stake_amount) a split of a `Stake`
      account moves. `zero_branch` is the program's nondeterministic choice
      between the branch for a destination starting from zero and the other
      one; `reserve_adjustment` is what the other branch subtracts from the
      split lamports. */
  function SplitAmounts(meta: Meta, stake: Stake, split_lamports: u64, zero_branch: bool,
                        reserve_adjustment: u64): Result<(u64, u64)>
  {
    var amounts :=
      if zero_branch then
        var delta := SaturatingSub(split_lamports, meta.rent_exempt_reserve);
        Ok((delta, delta))
      else if SaturatingSub(stake.delegation.stake, split_lamports) < MINIMUM_DELEGATION then
        Err(InsufficientDelegation)
      else
        Ok((split_lamports, SaturatingSub(split_lamports, reserve_adjustment)));
    if amounts.Err? then amounts
    else if amounts.value.1 < MINIMUM_DELEGATION then Err(InsufficientDelegation)
    else amounts
  }

  /** The states a split writes into the source and the destination (`None`
      where nothing is written), before the source is reset when its whole
      balance moves. */
  function SplitStates(source: StakeStateV2, split_lamports: u64, zero_branch: bool,
                       reserve_adjustment: u64, new_rent_exempt_reserve: u64,
                       source_is_signer: bool): Result<(Option<StakeStateV2>, Option<StakeStateV2>)>
  {
    match source
    case Stake(meta, stake, flags) =>
      var amounts := SplitAmounts(meta, stake, split_lamports, zero_branch, reserve_adjustment);
      if amounts.Err? then Err(amounts.error)
      else
        var stakes := SplitStake(stake, amounts.value.0, amounts.value.1);
        if stakes.Err? then Err(stakes.error)
        else
          var destination_meta := meta.(rent_exempt_reserve := new_rent_exempt_reserve);
          Ok((Some(StakeStateV2.Stake(meta, stakes.value.0, flags)),
              Some(StakeStateV2.Stake(destination_meta, stakes.value.1, flags))))
    case Initialized(meta) =>
      Ok((None, Some(Initialized(meta.(rent_exempt_reserve := new_rent_exempt_reserve)))))
    case Uninitialized =>
      if source_is_signer then Ok((None, None)) else Err(MissingRequiredSignature)
    case RewardsPool => Err(InvalidAccountData)
  }

  // ------------------------------------------------------------------- merge

  /** The meta of a state that can take part in a merge. */
  function MergeMeta(s: StakeStateV2): Result<Meta>
  {
    match s
    case Initialized(meta) => Ok(meta)
    case Stake(meta, _, _) => Ok(meta)
    case _ => Err(InvalidAccountData)
  }
}
