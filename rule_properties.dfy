/** What the transition rules promise, for all inputs. */
module RuleProperties {
  import opened Base
  import opened State
  import opened Rules

  // ---------------------------------------------------------------- withdraw

  /** Withdrawing the whole balance is refused exactly when stake is at risk:
      a delegation not yet deactivating with nonzero stake, or one past its
      deactivation epoch whose effective stake is nonzero. Withdrawing the
      whole balance of an `Initialized` or `Uninitialized` account is always
      allowed. */
  lemma FullWithdrawal(s: StakeStateV2, epoch: u64, effective: u64, balance: u64)
    requires WithdrawReserve(s, epoch, effective).Ok?
    ensures WithdrawAllowed(WithdrawReserve(s, epoch, effective).value, balance, balance)
            <==> !s.Stake?
                 || (epoch < s.stake.delegation.deactivation_epoch && s.stake.delegation.stake == 0)
                 || (epoch >= s.stake.delegation.deactivation_epoch && effective == 0)
  {
  }

  /** A partial withdrawal succeeds exactly when the amount plus the reserve
      fits in the balance; the reserve is the rent-exempt reserve, plus the
      whole delegated stake before the deactivation epoch or the effective
      stake from it on, and nothing for an `Uninitialized` account. */
  lemma PartialWithdrawal(s: StakeStateV2, epoch: u64, effective: u64, balance: u64, withdraw_lamports: u64)
    requires !s.RewardsPool?
    requires withdraw_lamports != balance
    ensures var reserve := WithdrawReserve(s, epoch, effective);
            var required := match s
              case Uninitialized => 0
              case Initialized(meta) => meta.rent_exempt_reserve
              case Stake(meta, stake, _) =>
                (if epoch < stake.delegation.deactivation_epoch then stake.delegation.stake else effective)
                + meta.rent_exempt_reserve
              case RewardsPool => 0;
            (reserve.Ok? && WithdrawAllowed(reserve.value, balance, withdraw_lamports))
            <==> withdraw_lamports + required <= balance
  {
  }

  /** After a successful partial withdrawal the account still holds its
      rent-exempt reserve and all the stake counted as locked. */
  lemma PartialWithdrawalKeepsReserve(s: StakeStateV2, epoch: u64, effective: u64, balance: u64,
                                      withdraw_lamports: u64)
    requires withdraw_lamports != balance
    requires WithdrawReserve(s, epoch, effective).Ok?
    requires WithdrawAllowed(WithdrawReserve(s, epoch, effective).value, balance, withdraw_lamports)
    ensures withdraw_lamports < balance
    ensures s.Initialized? || s.Stake? ==> balance - withdraw_lamports >= s.meta.rent_exempt_reserve
    ensures s.Stake? ==> balance - withdraw_lamports
                         >= LockedStake(s.stake, epoch, effective) + s.meta.rent_exempt_reserve
  {
  }

  /** Counting the whole delegation as locked until the deactivation epoch is
      conservative: a withdrawal allowed before that epoch is still allowed at
      any later epoch, whatever effective stake (at most the delegation) is
      reported then. */
  lemma WithdrawalsOnlyLoosen(s: StakeStateV2, before: u64, after: u64, effective_before: u64,
                              effective_after: u64, balance: u64, withdraw_lamports: u64)
    requires s.Stake?
    requires before < s.stake.delegation.deactivation_epoch <= after
    requires effective_after <= s.stake.delegation.stake
    requires WithdrawReserve(s, before, effective_before).Ok?
    requires WithdrawAllowed(WithdrawReserve(s, before, effective_before).value, balance, withdraw_lamports)
    ensures WithdrawReserve(s, after, effective_after).Ok?
    ensures WithdrawAllowed(WithdrawReserve(s, after, effective_after).value, balance, withdraw_lamports)
  {
  }

  /** A staked account with stake 1000, rent-exempt reserve 100 and no
      deactivation scheduled, holding 1100 lamports at epoch 5, cannot give
      up 50 lamports; once deactivated at epoch 5 with no effective stake left
      it can give up 0. */
  lemma WithdrawScenario(key: Pubkey, lockup: Lockup)
    ensures var meta := Meta(100, Authorized(key, key), lockup);
            var active := StakeStateV2.Stake(meta, Stake.Stake(Delegation(key, 1000, 0, U64_MAX), 0), EMPTY_FLAGS);
            var deactivated := StakeStateV2.Stake(meta, Stake.Stake(Delegation(key, 1000, 0, 5), 0), EMPTY_FLAGS);
            !WithdrawAllowed(WithdrawReserve(active, 5, 0).value, 1100, 50)
            && WithdrawAllowed(WithdrawReserve(deactivated, 5, 0).value, 1100, 0)
  {
  }

  // ---------------------------------------------------------------- delegate

  /** Delegating an `Initialized` account succeeds exactly when the balance
      exceeds the rent-exempt reserve by the minimum delegation; it stakes
      everything above the reserve with the given voter from this epoch on,
      not deactivating, keeping the meta, with empty flags. */
  lemma DelegateInitialized(meta: Meta, balance: u64, voter_pubkey: Pubkey, epoch: u64,
                            effective: u64, credits_observed: u64)
    ensures var next := DelegatedState(Initialized(meta), balance, voter_pubkey, epoch, effective, credits_observed);
            (next.Ok? <==> balance >= meta.rent_exempt_reserve + MINIMUM_DELEGATION)
            && (next.Err? ==> next.error == InsufficientDelegation)
            && (next.Ok? ==>
                  next.value.Stake? && next.value.meta == meta && next.value.flags == EMPTY_FLAGS
                  && next.value.stake.credits_observed == credits_observed
                  && var d := next.value.stake.delegation;
                     d.voter_pubkey == voter_pubkey && d.activation_epoch == epoch
                     && d.deactivation_epoch == U64_MAX
                     && d.stake >= MINIMUM_DELEGATION
                     && d.stake + meta.rent_exempt_reserve == balance)
  {
  }

  /** With a rent-exempt reserve of 100, a balance of 150 delegates 50 and a
      balance of 100 is below the minimum. */
  lemma DelegateExamples(meta: Meta, voter_pubkey: Pubkey, epoch: u64)
    requires meta.rent_exempt_reserve == 100
    ensures var next := DelegatedState(Initialized(meta), 150, voter_pubkey, epoch, 0, 0);
            next.Ok? && next.value.stake.delegation.stake == 50
    ensures DelegatedState(Initialized(meta), 100, voter_pubkey, epoch, 0, 0) == Err(InsufficientDelegation)
  {
  }

  /** Redelegating active stake succeeds only towards the same voter in the
      epoch its deactivation is scheduled for, and then only rescinds that
      deactivation: the amount, the activation epoch, the voter and the
      credits are kept. */
  lemma RedelegateActive(stake: Stake, stake_lamports: u64, voter_pubkey: Pubkey, epoch: u64,
                         effective: u64, credits_observed: u64)
    requires effective != 0
    ensures var r := Redelegated(stake, stake_lamports, voter_pubkey, epoch, effective, credits_observed);
            (r.Ok? <==> voter_pubkey == stake.delegation.voter_pubkey
                        && epoch == stake.delegation.deactivation_epoch)
            && (r.Ok? ==>
                  r.value.delegation.deactivation_epoch == U64_MAX
                  && r.value.delegation.stake == stake.delegation.stake
                  && r.value.delegation.activation_epoch == stake.delegation.activation_epoch
                  && r.value.delegation.voter_pubkey == stake.delegation.voter_pubkey
                  && r.value.credits_observed == stake.credits_observed)
  {
  }

  /** Redelegating stake with no effective stake left is the same as
      delegating afresh. */
  lemma RedelegateInactive(stake: Stake, stake_lamports: u64, voter_pubkey: Pubkey, epoch: u64,
                           credits_observed: u64)
    ensures Redelegated(stake, stake_lamports, voter_pubkey, epoch, 0, credits_observed)
            == Ok(NewStake(stake_lamports, voter_pubkey, epoch, credits_observed))
  {
  }

  /** Every successful delegation leaves a `Stake` state with the same meta
      whose delegation is not deactivating; its amount is either the old one
      (a rescinded deactivation) or everything above the rent-exempt reserve,
      at least the minimum delegation. */
  lemma DelegateOutcome(s: StakeStateV2, balance: u64, voter_pubkey: Pubkey, epoch: u64,
                        effective: u64, credits_observed: u64)
    requires DelegatedState(s, balance, voter_pubkey, epoch, effective, credits_observed).Ok?
    ensures var next := DelegatedState(s, balance, voter_pubkey, epoch, effective, credits_observed).value;
            (s.Initialized? || s.Stake?)
            && next.Stake? && next.meta == s.meta
            && next.stake.delegation.deactivation_epoch == U64_MAX
            && ((s.Stake? && next.stake.delegation.stake == s.stake.delegation.stake)
                || (next.stake.delegation.stake >= MINIMUM_DELEGATION
                    && next.stake.delegation.stake + s.meta.rent_exempt_reserve == balance))
  {
  }

  // -------------------------------------------------------------- deactivate

  /** Deactivation accepts only a `Stake` state with no deactivation scheduled
      and changes nothing but the deactivation epoch, which becomes the
      current epoch. */
  lemma DeactivateOnlySetsEpoch(s: StakeStateV2, epoch: u64)
    ensures var next := DeactivatedState(s, epoch);
            (next.Ok? <==> s.Stake? && s.stake.delegation.deactivation_epoch == U64_MAX)
            && (next.Ok? ==>
                  next.value.Stake? && next.value.meta == s.meta && next.value.flags == s.flags
                  && next.value.stake.credits_observed == s.stake.credits_observed
                  && next.value.stake.delegation.voter_pubkey == s.stake.delegation.voter_pubkey
                  && next.value.stake.delegation.stake == s.stake.delegation.stake
                  && next.value.stake.delegation.activation_epoch == s.stake.delegation.activation_epoch
                  && next.value.stake.delegation.deactivation_epoch == epoch)
  {
  }

  // --------------------------------------------------------------- authorize

  /** Authorizing accepts `Initialized` and `Stake` and replaces exactly the
      selected authority: the other authority, the reserve, the lockup, the
      variant, the stake and the flags are kept. */
  lemma AuthorizeReplacesOneAuthority(s: StakeStateV2, new_authority: Pubkey, authority_type: StakeAuthorize)
    ensures var next := AuthorizedState(s, new_authority, authority_type);
            (next.Ok? <==> s.Initialized? || s.Stake?)
            && (next.Ok? ==>
                  next.value.Initialized? == s.Initialized? && next.value.Stake? == s.Stake?
                  && (s.Stake? ==> next.value.stake == s.stake && next.value.flags == s.flags)
                  && next.value.meta.rent_exempt_reserve == s.meta.rent_exempt_reserve
                  && next.value.meta.lockup == s.meta.lockup
                  && (authority_type == Staker ==>
                        next.value.meta.authorized == Authorized(new_authority, s.meta.authorized.withdrawer))
                  && (authority_type == Withdrawer ==>
                        next.value.meta.authorized == Authorized(s.meta.authorized.staker, new_authority)))
  {
  }

  // ------------------------------------------------------------------- split

  /** When a split of a `Stake` account succeeds. In the zero-balance branch
      the amount moved is the split lamports above the source's rent-exempt
      reserve, and it must be at least the minimum delegation and at most the
      source stake; in the other branch the source must keep at least the
      minimum delegation and the destination must get at least that much of
      the split lamports after the reserve adjustment. */
  lemma SplitStakeSucceeds(meta: Meta, stake: Stake, flags: StakeFlags, split_lamports: u64,
                           zero_branch: bool, reserve_adjustment: u64, new_rent_exempt_reserve: u64,
                           source_is_signer: bool)
    ensures SplitStates(StakeStateV2.Stake(meta, stake, flags), split_lamports, zero_branch, reserve_adjustment,
                        new_rent_exempt_reserve, source_is_signer).Ok?
            <==> if zero_branch
                 then MINIMUM_DELEGATION <= SaturatingSub(split_lamports, meta.rent_exempt_reserve)
                                         <= stake.delegation.stake
                 else SaturatingSub(stake.delegation.stake, split_lamports) >= MINIMUM_DELEGATION
                      && SaturatingSub(split_lamports, reserve_adjustment) >= MINIMUM_DELEGATION
  {
  }

  /** What a successful split of a `Stake` account writes. Both accounts hold
      `Stake` with the source's flags; the source keeps its meta and the
      destination gets it with the new rent-exempt reserve; the destination's
      delegation is the source's except for the amount, which is at least the
      minimum delegation. In the zero-balance branch the stake moved from the
      source is exactly the destination's, so the total is conserved; in the
      other branch the source gives up the split lamports and keeps at least
      the minimum. In both, no stake is created. */
  lemma SplitStakeOutcome(meta: Meta, stake: Stake, flags: StakeFlags, split_lamports: u64,
                          zero_branch: bool, reserve_adjustment: u64, new_rent_exempt_reserve: u64,
                          source_is_signer: bool)
    requires SplitStates(StakeStateV2.Stake(meta, stake, flags), split_lamports, zero_branch, reserve_adjustment,
                         new_rent_exempt_reserve, source_is_signer).Ok?
    ensures var written := SplitStates(StakeStateV2.Stake(meta, stake, flags), split_lamports, zero_branch,
                                       reserve_adjustment, new_rent_exempt_reserve, source_is_signer).value;
            written.0.Some? && written.1.Some?
            && var source := written.0.value;
               var destination := written.1.value;
               source.Stake? && destination.Stake?
               && source.meta == meta && source.flags == flags && destination.flags == flags
               && destination.meta == meta.(rent_exempt_reserve := new_rent_exempt_reserve)
               && source.stake.credits_observed == stake.credits_observed
               && destination.stake == source.stake.(delegation := source.stake.delegation.(stake := destination.stake.delegation.stake))
               && source.stake.delegation == stake.delegation.(stake := source.stake.delegation.stake)
               && destination.stake.delegation.stake >= MINIMUM_DELEGATION
               && source.stake.delegation.stake + destination.stake.delegation.stake <= stake.delegation.stake
               && (zero_branch ==>
                     destination.stake.delegation.stake == SaturatingSub(split_lamports, meta.rent_exempt_reserve)
                     && source.stake.delegation.stake + destination.stake.delegation.stake == stake.delegation.stake)
               && (!zero_branch ==>
                     source.stake.delegation.stake == stake.delegation.stake - split_lamports
                     && source.stake.delegation.stake >= MINIMUM_DELEGATION
                     && destination.stake.delegation.stake == SaturatingSub(split_lamports, reserve_adjustment))
  {
  }

  /** Splitting an `Initialized` account always succeeds and leaves the
      source's state alone; the destination gets the source's meta with the
      new rent-exempt reserve. Splitting an `Uninitialized` account writes no
      state and needs the source's signature. `RewardsPool` is refused. */
  lemma SplitOtherStates(s: StakeStateV2, split_lamports: u64, zero_branch: bool, reserve_adjustment: u64,
                         new_rent_exempt_reserve: u64, source_is_signer: bool)
    requires !s.Stake?
    ensures var written := SplitStates(s, split_lamports, zero_branch, reserve_adjustment,
                                       new_rent_exempt_reserve, source_is_signer);
            (s.Initialized? ==>
               written == Ok((None, Some(Initialized(s.meta.(rent_exempt_reserve := new_rent_exempt_reserve))))))
            && (s.Uninitialized? ==> (written.Ok? <==> source_is_signer) && (written.Ok? ==> written.value == (None, None)))
            && (s.RewardsPool? ==> written.Err?)
  {
  }
}
