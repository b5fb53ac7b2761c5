/** The instruction handlers. Each decodes the states of its accounts, checks
    the rules, writes the new states back into the account buffers and moves
    lamports. Every failure aborts the instruction, so a handler that fails
    leaves its accounts exactly as they were. Values the program draws
    nondeterministically are parameters, and what the program assumes of them
    (or of buffer lengths) is a precondition. */
module Processor {
  import opened Base
  import opened State
  import opened Codec
  import opened Writer
  import opened Accounts
  import opened Rules

  /** The bound the program assumes of a drawn effective stake: at most the
      delegated stake. */
  predicate EffectiveWithin(s: Result<StakeStateV2>, effective: u64)
    ensures EffectiveWithin(s, effective) && s.Ok? && s.value.Stake? ==>
              forall epoch: u64 :: LockedStake(s.value.stake, epoch, effective) <= s.value.stake.delegation.stake
    ensures !(s.Ok? && s.value.Stake?) ==> EffectiveWithin(s, effective)
  {
    s.Ok? && s.value.Stake? ==> effective <= s.value.stake.delegation.stake
  }

  /** A buffer after the state `s`, when there is one, is written over its
      front (a record longer than the buffer is never written). */
  function WriteRecord(d: seq<byte>, s: Option<StakeStateV2>): seq<byte>
  {
    if s.Some? && |Encode(s.value)| <= |d| then Overwrite(d, Encode(s.value)) else d
  }

  /** A buffer after its discriminant is zeroed, when `reset` holds. */
  function ResetIf(reset: bool, d: seq<byte>): seq<byte>
  {
    if reset && TAG_LEN <= |d| then Overwrite(d, EncodeTag(0)) else d
  }

  // ---------------------------------------------------------------- withdraw

  method ProcessWithdraw(source: Account, destination: Account, clock_epoch: u64,
                         withdraw_lamports: u64, effective: u64) returns (r: Outcome)
    requires Coherent(source, destination)
    requires EffectiveWithin(GetStakeState(source), effective)
    requires withdraw_lamports == source.lamports && GetStakeState(source).Ok?
             && WithdrawReserve(GetStakeState(source).value, clock_epoch, effective).Ok?
             && !WithdrawReserve(GetStakeState(source).value, clock_epoch, effective).value.is_staked
             ==> source.data.Length == STATE_SIZE
    modifies source, destination, source.data
    ensures var state := old(GetStakeState(source));
            var reserve := if state.Ok? then WithdrawReserve(state.value, clock_epoch, effective)
                           else Err(state.error);
            r.Pass? <==> reserve.Ok? && WithdrawAllowed(reserve.value, old(source.lamports), withdraw_lamports)
                         && old(CanRelocate(source, destination, withdraw_lamports))
    ensures r.Pass? && withdraw_lamports == old(source.lamports) ==>
              source.data[..] == Overwrite(old(source.data[..]), EncodeTag(0))
              && Decode(source.data[..]) == Ok(Uninitialized)
    ensures r.Pass? && withdraw_lamports != old(source.lamports) ==> unchanged(source.data)
    ensures r.Pass? && source != destination ==>
              source.lamports == old(source.lamports) - withdraw_lamports
              && destination.lamports == old(destination.lamports) + withdraw_lamports
    ensures source == destination ==> source.lamports == old(source.lamports)
    ensures r.Fail? ==> unchanged(source, destination, source.data)
  {
    var state := GetStakeState(source);
    if state.Err? {
      return Fail(state.error);
    }
    var reserve := WithdrawReserve(state.value, clock_epoch, effective);
    if reserve.Err? {
      return Fail(reserve.error);
    }
    var stake_account_lamports := source.lamports;
    if withdraw_lamports == stake_account_lamports {
      // the account must not go away while it is staked
      if reserve.value.is_staked {
        return Fail(InsufficientFunds);
      }
    } else {
      // a partial withdrawal must not deplete the reserve
      var withdraw_lamports_and_reserve := CheckedAdd(withdraw_lamports, reserve.value.amount);
      if withdraw_lamports_and_reserve.Err? {
        return Fail(withdraw_lamports_and_reserve.error);
      }
      if withdraw_lamports_and_reserve.value > stake_account_lamports {
        return Fail(InsufficientFunds);
      }
    }
    // The relocation at the end aborts on overflow; deciding that before the
    // reset keeps the aborted instruction free of effects.
    if !CanRelocate(source, destination, withdraw_lamports) {
      return Fail(ArithmeticOverflow);
    }
    if withdraw_lamports == stake_account_lamports {
      WriteUninitializedStakeToSlice(source.data);
    }
    var moved := RelocateLamports(source, destination, withdraw_lamports);
    assert moved.Pass?;
    r := Pass;
  }

  // -------------------------------------------------------------- deactivate

  method ProcessDeactivate(account: Account, clock_epoch: u64) returns (r: Outcome)
    modifies account.data
    ensures var state := old(GetStakeState(account));
            var next := if state.Ok? then DeactivatedState(state.value, clock_epoch) else Err(state.error);
            (r.Pass? <==> next.Ok?)
            && (r.Pass? ==> account.data[..] == WriteRecord(old(account.data[..]), Some(next.value))
                            && GetStakeState(account) == next)
    ensures r.Fail? ==> unchanged(account.data)
  {
    var state := GetStakeState(account);
    if state.Err? {
      return Fail(state.error);
    }
    match state.value
    case Stake(meta, stake, stake_flags) =>
      var deactivated := Deactivate(stake, clock_epoch);
      if deactivated.Err? {
        return Fail(deactivated.error);
      }
      SetStakeState(account, StakeStateV2.Stake(meta, deactivated.value, stake_flags));
      r := Pass;
    case _ =>
      r := Fail(InvalidAccountData);
  }

  // --------------------------------------------------------------- authorize

  /** Replaces the staker or the withdrawer of `meta`, as `authority_type`
      selects. */
  method MetaAuthorizedAuthorize(meta: Meta, new_authority: Pubkey, authority_type: StakeAuthorize)
    returns (updated: Meta)
    ensures updated == Authorize(meta, new_authority, authority_type)
  {
    updated := meta;
    match authority_type
    case Staker =>
      updated := updated.(authorized := updated.authorized.(staker := new_authority));
    case Withdrawer =>
      updated := updated.(authorized := updated.authorized.(withdrawer := new_authority));
  }

  /** Replaces an authority without checking any signature or lockup. */
  method ProcessAuthorize(account: Account, new_authority: Pubkey, authority_type: StakeAuthorize)
    returns (r: Outcome)
    modifies account.data
    ensures var state := old(GetStakeState(account));
            var next := if state.Ok? then AuthorizedState(state.value, new_authority, authority_type)
                        else Err(state.error);
            (r.Pass? <==> next.Ok?)
            && (r.Pass? ==> account.data[..] == WriteRecord(old(account.data[..]), Some(next.value))
                            && GetStakeState(account) == next)
    ensures r.Fail? ==> unchanged(account.data)
  {
    var state := GetStakeState(account);
    if state.Err? {
      return Fail(state.error);
    }
    match state.value
    case Initialized(meta) =>
      var updated := MetaAuthorizedAuthorize(meta, new_authority, authority_type);
      SetStakeState(account, Initialized(updated));
      r := Pass;
    case Stake(meta, stake, stake_flags) =>
      var updated := MetaAuthorizedAuthorize(meta, new_authority, authority_type);
      SetStakeState(account, StakeStateV2.Stake(updated, stake, stake_flags));
      r := Pass;
    case _ =>
      r := Fail(InvalidAccountData);
  }

  // ---------------------------------------------------------------- delegate

  /** Updates a stake for a new delegation, as `Redelegated` describes. */
  method RedelegateStake(stake: Stake, stake_lamports: u64, voter_pubkey: Pubkey, epoch: u64,
                         effective: u64, credits_observed: u64) returns (r: Result<Stake>)
    requires effective <= stake.delegation.stake
    ensures r == Redelegated(stake, stake_lamports, voter_pubkey, epoch, effective, credits_observed)
  {
    var updated := stake;
    if effective != 0 {
      if updated.delegation.voter_pubkey == voter_pubkey && epoch == updated.delegation.deactivation_epoch {
        // rescind the deactivation scheduled for this epoch
        updated := updated.(delegation := updated.delegation.(deactivation_epoch := U64_MAX));
        return Ok(updated);
      } else {
        return Err(TooSoonToRedelegate);
      }
    }
    updated := updated.(delegation := updated.delegation.(stake := stake_lamports));
    updated := updated.(delegation := updated.delegation.(activation_epoch := epoch));
    updated := updated.(delegation := updated.delegation.(deactivation_epoch := U64_MAX));
    updated := updated.(delegation := updated.delegation.(voter_pubkey := voter_pubkey));
    updated := updated.(credits_observed := credits_observed);
    r := Ok(updated);
  }

  method ProcessDelegate(account: Account, voter_pubkey: Pubkey, clock_epoch: u64,
                         effective: u64, credits_observed: u64) returns (r: Outcome)
    requires EffectiveWithin(GetStakeState(account), effective)
    requires GetStakeState(account).Ok? && GetStakeState(account).value.Initialized?
             && ValidateDelegatedAmount(account.lamports, GetStakeState(account).value.meta).Ok?
             ==> STAKE_STATE_LEN <= account.data.Length
    modifies account.data
    ensures var state := old(GetStakeState(account));
            var next := if state.Ok?
                        then DelegatedState(state.value, account.lamports, voter_pubkey, clock_epoch,
                                            effective, credits_observed)
                        else Err(state.error);
            (r.Pass? <==> next.Ok?)
            && (r.Pass? ==> account.data[..] == WriteRecord(old(account.data[..]), Some(next.value))
                            && GetStakeState(account) == next)
    ensures r.Fail? ==> unchanged(account.data)
  {
    var state := GetStakeState(account);
    if state.Err? {
      return Fail(state.error);
    }
    match state.value
    case Initialized(meta) =>
      var stake_amount := ValidateDelegatedAmount(account.lamports, meta);
      if stake_amount.Err? {
        return Fail(stake_amount.error);
      }
      var stake := NewStake(stake_amount.value, voter_pubkey, clock_epoch, credits_observed);
      SetStakeState(account, StakeStateV2.Stake(meta, stake, EMPTY_FLAGS));
      r := Pass;
    case Stake(meta, stake, flags) =>
      var stake_amount := ValidateDelegatedAmount(account.lamports, meta);
      if stake_amount.Err? {
        return Fail(stake_amount.error);
      }
      var redelegated := RedelegateStake(stake, stake_amount.value, voter_pubkey, clock_epoch,
                                         effective, credits_observed);
      if redelegated.Err? {
        return Fail(redelegated.error);
      }
      SetStakeState(account, StakeStateV2.Stake(meta, redelegated.value, flags));
      r := Pass;
    case _ =>
      r := Fail(InvalidAccountData);
  }

  // ------------------------------------------------------------------- split

  /** The states a split writes, computed from the decoded source as the
      handler's match does: a `Stake` source is divided between the two
      accounts, an `Initialized` source gives the destination a copy of its
      meta, an `Uninitialized` source must have signed. */
  method SplitTransition(source_state: StakeStateV2, split_lamports: u64, zero_branch: bool,
                         reserve_adjustment: u64, new_rent_exempt_reserve: u64, source_is_signer: bool)
    returns (r: Result<(Option<StakeStateV2>, Option<StakeStateV2>)>)
    ensures r == SplitStates(source_state, split_lamports, zero_branch, reserve_adjustment,
                             new_rent_exempt_reserve, source_is_signer)
  {
    match source_state
    case Stake(source_meta, source_stake, stake_flags) =>
      var amounts := SplitAmounts(source_meta, source_stake, split_lamports, zero_branch, reserve_adjustment);
      if amounts.Err? {
        return Err(amounts.error);
      }
      var (remaining_stake_delta, split_stake_amount) := amounts.value;
      var stakes := SplitStake(source_stake, remaining_stake_delta, split_stake_amount);
      if stakes.Err? {
        return Err(stakes.error);
      }
      var destination_meta := source_meta;
      destination_meta := destination_meta.(rent_exempt_reserve := new_rent_exempt_reserve);
      r := Ok((Some(StakeStateV2.Stake(source_meta, stakes.value.0, stake_flags)),
               Some(StakeStateV2.Stake(destination_meta, stakes.value.1, stake_flags))));
    case Initialized(source_meta) =>
      var destination_meta := source_meta;
      destination_meta := destination_meta.(rent_exempt_reserve := new_rent_exempt_reserve);
      r := Ok((None, Some(Initialized(destination_meta))));
    case Uninitialized =>
      if !source_is_signer {
        return Err(MissingRequiredSignature);
      }
      r := Ok((None, None));
    case RewardsPool =>
      r := Err(InvalidAccountData);
  }

  /** A split writes the source only when it holds `Stake` (and then a `Stake`
      record of the same length), and writes the destination only when the
      source is `Initialized` or `Stake`. */
  lemma SplitStatesShape(source_state: StakeStateV2, split_lamports: u64, zero_branch: bool,
                         reserve_adjustment: u64, new_rent_exempt_reserve: u64, source_is_signer: bool)
    requires SplitStates(source_state, split_lamports, zero_branch, reserve_adjustment,
                         new_rent_exempt_reserve, source_is_signer).Ok?
    ensures var written := SplitStates(source_state, split_lamports, zero_branch, reserve_adjustment,
                                       new_rent_exempt_reserve, source_is_signer).value;
            (written.0.Some? ==> source_state.Stake? && written.0.value.Stake?)
            && (written.1.Some? ==> !source_state.Uninitialized? && |Encode(written.1.value)| < STATE_SIZE)
  {
    var written := SplitStates(source_state, split_lamports, zero_branch, reserve_adjustment,
                               new_rent_exempt_reserve, source_is_signer).value;
    if written.1.Some? {
      EncodedLength(written.1.value);
    }
  }

  method ProcessSplit(source: Account, destination: Account, split_lamports: u64, zero_branch: bool,
                      reserve_adjustment: u64, new_rent_exempt_reserve: u64) returns (r: Outcome)
    requires Coherent(source, destination)
    requires split_lamports == source.lamports
             && destination.data.Length == STATE_SIZE && GetStakeState(destination) == Ok(Uninitialized)
             && GetStakeState(source).Ok?
             && SplitStates(GetStakeState(source).value, split_lamports, zero_branch, reserve_adjustment,
                            new_rent_exempt_reserve, source.is_signer).Ok?
             ==> source.data.Length == STATE_SIZE
    modifies source, destination, source.data, destination.data
    ensures var state := old(GetStakeState(source));
            var next := if state.Ok?
                        then SplitStates(state.value, split_lamports, zero_branch, reserve_adjustment,
                                         new_rent_exempt_reserve, source.is_signer)
                        else Err(state.error);
            (r.Pass? <==> destination.data.Length == STATE_SIZE
                          && old(GetStakeState(destination)) == Ok(Uninitialized)
                          && split_lamports <= old(source.lamports)
                          && next.Ok?
                          && old(CanRelocate(source, destination, split_lamports)))
            && (r.Pass? ==>
                  source.data[..] == ResetIf(split_lamports == old(source.lamports),
                                             WriteRecord(old(source.data[..]), next.value.0))
                  && (source != destination ==>
                        destination.data[..] == WriteRecord(old(destination.data[..]), next.value.1)))
    ensures r.Pass? && source != destination ==>
              source.lamports == old(source.lamports) - split_lamports
              && destination.lamports == old(destination.lamports) + split_lamports
    ensures source == destination ==> source.lamports == old(source.lamports)
    ensures r.Fail? ==> unchanged(source, destination, source.data, destination.data)
  {
    if destination.data.Length != STATE_SIZE {
      return Fail(InvalidAccountData);
    }
    var destination_state := GetStakeState(destination);
    if destination_state != Ok(Uninitialized) {
      return Fail(InvalidAccountData);
    }
    var source_lamport_balance := source.lamports;
    if split_lamports > source_lamport_balance {
      return Fail(InsufficientFunds);
    }
    var source_state := GetStakeState(source);
    if source_state.Err? {
      return Fail(source_state.error);
    }
    var next := SplitTransition(source_state.value, split_lamports, zero_branch, reserve_adjustment,
                                new_rent_exempt_reserve, source.is_signer);
    if next.Err? {
      return Fail(next.error);
    }
    // The relocation at the end aborts on overflow; deciding that before the
    // first write keeps the aborted instruction free of effects.
    if !CanRelocate(source, destination, split_lamports) {
      return Fail(ArithmeticOverflow);
    }
    SplitStatesShape(source_state.value, split_lamports, zero_branch, reserve_adjustment,
                     new_rent_exempt_reserve, source.is_signer);
    ApplySplit(source, destination, next.value, split_lamports == source_lamport_balance, split_lamports);
    r := Pass;
  }

  /** The effects of a split once every check has passed: the new states are
      written, the source is reset when its whole balance moves, and the
      lamports are relocated. */
  method ApplySplit(source: Account, destination: Account,
                    written: (Option<StakeStateV2>, Option<StakeStateV2>), reset: bool, split_lamports: u64)
    requires Coherent(source, destination)
    requires written.0.Some? ==> source != destination && |Encode(written.0.value)| <= source.data.Length
    requires written.1.Some? ==> source != destination && |Encode(written.1.value)| <= destination.data.Length
    requires reset ==> source.data.Length == STATE_SIZE
    requires CanRelocate(source, destination, split_lamports)
    modifies source, destination, source.data, destination.data
    ensures source.data[..] == ResetIf(reset, WriteRecord(old(source.data[..]), written.0))
    ensures source != destination ==> destination.data[..] == WriteRecord(old(destination.data[..]), written.1)
    ensures source != destination ==>
              source.lamports == old(source.lamports) - split_lamports
              && destination.lamports == old(destination.lamports) + split_lamports
    ensures source == destination ==> source.lamports == old(source.lamports)
  {
    var (source_next, destination_next) := written;
    if source_next.Some? {
      SetStakeState(source, source_next.value);
    }
    if destination_next.Some? {
      SetStakeState(destination, destination_next.value);
    }
    // de-initialize the source when its whole balance moves
    if reset {
      WriteUninitializedStakeToSlice(source.data);
    }
    var moved := RelocateLamports(source, destination, split_lamports);
    assert moved.Pass?;
  }

  // ------------------------------------------------------------------- merge

  /** Both accounts can take part in a merge: distinct keys, and each holds
      `Initialized` or `Stake`. */
  ghost predicate Mergeable(source: Account, destination: Account)
    reads source.data, destination.data
  {
    source.key != destination.key
    && GetStakeState(source).Ok? && MergeMeta(GetStakeState(source).value).Ok?
    && GetStakeState(destination).Ok? && MergeMeta(GetStakeState(destination).value).Ok?
  }

  /** Drains `source` into `destination`. The destination keeps its meta and
      receives the (nondeterministic) merged stake with empty flags; the source
      is reset to `Uninitialized`. */
  method ProcessMerge(destination: Account, source: Account, merged_stake: Stake) returns (r: Outcome)
    requires Coherent(source, destination)
    requires Mergeable(source, destination) ==>
               MergeMeta(GetStakeState(destination).value).value.authorized
               == MergeMeta(GetStakeState(source).value).value.authorized
    requires Mergeable(source, destination) ==>
               source.data.Length == STATE_SIZE && STAKE_STATE_LEN <= destination.data.Length
    modifies source, destination, source.data, destination.data
    ensures r.Pass? <==> old(Mergeable(source, destination))
                         && old(source.lamports) + old(destination.lamports) <= U64_MAX
    ensures r.Pass? ==>
              var destination_meta := old(MergeMeta(GetStakeState(destination).value).value);
              destination.data[..] == Overwrite(old(destination.data[..]),
                                                Encode(StakeStateV2.Stake(destination_meta, merged_stake, EMPTY_FLAGS)))
              && source.data[..] == Overwrite(old(source.data[..]), EncodeTag(0))
    ensures r.Pass? ==> source.lamports == 0
                        && destination.lamports == old(destination.lamports) + old(source.lamports)
    ensures r.Fail? ==> unchanged(source, destination, source.data, destination.data)
  {
    if source.key == destination.key {
      return Fail(InvalidArgument);
    }
    var source_state := GetStakeState(source);
    if source_state.Err? {
      return Fail(source_state.error);
    }
    var source_meta := MergeMeta(source_state.value);
    if source_meta.Err? {
      return Fail(source_meta.error);
    }
    var destination_state := GetStakeState(destination);
    if destination_state.Err? {
      return Fail(destination_state.error);
    }
    var destination_meta := MergeMeta(destination_state.value);
    if destination_meta.Err? {
      return Fail(destination_meta.error);
    }
    // The relocation at the end aborts on overflow; deciding that before the
    // first write keeps the aborted instruction free of effects.
    if !CanRelocate(source, destination, source.lamports) {
      return Fail(ArithmeticOverflow);
    }
    EncodedLength(StakeStateV2.Stake(destination_meta.value, merged_stake, EMPTY_FLAGS));
    SetStakeState(destination, StakeStateV2.Stake(destination_meta.value, merged_stake, EMPTY_FLAGS));
    WriteUninitializedStakeToSlice(source.data);
    var moved := RelocateLamports(source, destination, source.lamports);
    assert moved.Pass?;
    r := Pass;
  }
}
