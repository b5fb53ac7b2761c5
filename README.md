# Stake-account transition engine, modelled in Dafny

This project models the stake program of `cvlr-solana-stake`. The program is a
state machine over stake-account records. A record is `Uninitialized`,
`Initialized(meta)`, `Stake(meta, stake, flags)` or `RewardsPool`. Six
instruction handlers act on it: withdraw, deactivate, authorize,
delegate/redelegate, split and merge. Each handler does three things:

- it decodes the state held in an account's data buffer;
- it checks the integer rules (`checked_add`, `saturating_sub`, `u64::MAX` as
  "not deactivating", a minimum delegation of 1);
- it writes the next state back into the buffer and moves lamports between
  two accounts.

Every `panic!()` aborts the instruction with no effect. The model also covers
the byte-slice cursor (`CvlrStdIoWrite`) that the serializer writes through.

Layout:

- `base.dfy` (`Base`): machine integer widths, public keys, errors, and
  `saturating_sub` / `checked_add`.
- `state.dfy` (`State`): the record types (`Meta`, `Delegation`, `Stake`,
  `StakeStateV2`, …) and the minimum delegation.
- `codec.dfy` (`Codec`): a concrete byte layout for the records, with decoding
  proved to invert encoding.
  - It uses a 4-byte little-endian discriminant, where 0 is `Uninitialized`.
  - Integers are little-endian, and keys are 32 raw bytes.
- `writer.dfy` (`Writer`): the slice writer, as a class over an `array<byte>`
  with a cursor.
- `account.dfy` (`Accounts`): accounts whose balance and buffer change in
  place. It also holds reading and writing of the state, the reset to
  `Uninitialized`, and `relocate_lamports`.
- `rules.dfy` (`Rules`): each handler's rule as a pure function from the
  decoded state to the next state or an error.
- `processor.dfy` (`Processor`): the handlers as imperative methods. Each is
  proved to write exactly what the matching rule says, to move exactly the
  stated lamports, and to change nothing when it fails.
- `rule_properties.dfy` (`RuleProperties`): what the rules promise, proved for
  all inputs.

Values the program draws with `nondet()` are method parameters:

- the effective stake;
- `credits_observed`;
- the split branch and the reserve adjustment;
- the new rent-exempt reserve;
- the merged stake.

What the program assumes with `cvlr_assume!` is a precondition:

- the effective stake is at most the delegated stake;
- a write fits the remaining slice. For delegation this means an `Initialized` account whose balance passes the amount check has a buffer that can hold a `Stake` record. For a merge that passes every check, it means the destination buffer can hold the `Stake` record written into it, even when the destination was `Initialized`;
- a buffer reset to `Uninitialized` has the fixed record size. The model requires this only of a full withdrawal, a full split or a merge that passes every earlier check, which is where the program reaches the reset;
- merged metas have equal `authorized` fields.

## Model

| member | source | states |
|---|---|---|
| `Base.SaturatingSub` | cvlr-solana-stake/src/processor.rs:437 | the result never exceeds `a`; it is `a - b` when `b <= a`, and it is 0 with `a != b` exactly when `a < b` |
| `Base.CheckedAdd` | cvlr-solana-stake/src/processor.rs:59 | succeeds exactly when the sum fits in a `u64`, and then returns the sum |
| `Codec.LeRoundTrip` | cvlr-solana-stake/src/processor.rs:569 | reading back `n` little-endian bytes of a number below 256^n gives the number (by induction) |
| `Codec.MetaRoundTrip` | cvlr-solana-stake/src/state.rs:15-28 | decoding the 120 bytes of an encoded `Meta` gives the `Meta` back |
| `Codec.StakeRoundTrip` | cvlr-solana-stake/src/state.rs:15-28 | decoding the 64 bytes of an encoded `Stake` gives the `Stake` back |
| `Codec.DecodeEncode` | cvlr-solana-stake/src/state.rs:15-28 | decoding an encoded state gives it back, whatever bytes follow it in the buffer |
| `Codec.EncodedLength` | cvlr-solana-stake/src/processor.rs:224 | every record fits the fixed account size of 200 bytes; only `Stake` takes 189 bytes and only `Initialized` takes 124 |
| `Codec.DecodeZeroTag` | cvlr-solana-stake/src/processor.rs:566-570 | a buffer whose first four bytes are zero decodes as `Uninitialized`, whatever the remaining bytes are |
| `Writer.Overwrite` | cvlr-solana-stake/src/utils.rs:14-16 | replacing the front of a buffer keeps its length, puts the new bytes first and keeps every later byte |
| `Writer.SliceWriter.constructor` | cvlr-solana-stake/src/state.rs:27 | a new writer's remaining slice is the whole buffer |
| `Writer.SliceWriter.Write` | cvlr-solana-stake/src/utils.rs:11-18 | under the assumed fit, returns `Ok(data.len())`; the front of the old remaining slice becomes `data`; the cursor moves by exactly that much, so the new remaining slice is the old one without its first `data.len()` bytes; bytes before and after the written range are unchanged |
| `Writer.SliceWriter.WriteAll` | cvlr-solana-stake/src/utils.rs:22-25 | has the effect of one successful `Write` and returns `Ok(())` |
| `Writer.SliceWriter.Flush` | cvlr-solana-stake/src/utils.rs:27-29 | returns `Ok(())` and changes nothing |
| `Accounts.SetStakeState` | cvlr-solana-stake/src/processor.rs:545-549 | writing a state through the slice writer (discriminant, then fields, laid out contiguously) overwrites the front of the buffer with the encoding and keeps the tail; the buffer then decodes to the state written |
| `Accounts.WriteUninitializedStakeToSlice` | cvlr-solana-stake/src/processor.rs:565-570 | on a buffer of the fixed size, zeroes exactly the first 4 bytes and leaves every later byte unchanged; the buffer then decodes as `Uninitialized` |
| `Accounts.RelocateLamports` | cvlr-solana-stake/src/processor.rs:523-538 | succeeds exactly when the source does not underflow and the destination does not overflow. On success with distinct accounts it subtracts exactly `lamports` from the source and adds exactly `lamports` to the destination. The sum of two distinct balances is always conserved. A self-transfer or a failure changes nothing |
| `Accounts.GetStakeState` | cvlr-solana-stake/src/processor.rs:540-543 | the state is decoded from the account's buffer. A buffer shorter than a discriminant holds no state, and a zero discriminant means `Uninitialized` whatever follows. A decoded state always fits back into the buffer it came from |
| `Rules.WithdrawReserve` | cvlr-solana-stake/src/processor.rs:42-70 | succeeds exactly when the state is not `RewardsPool` and, for `Stake`, the locked stake plus the rent-exempt reserve fits in a `u64`. The reserve is that sum for `Stake`, the rent-exempt reserve for `Initialized` and 0 for `Uninitialized`. The account counts as staked exactly when it is `Stake` with nonzero locked stake |
| `Rules.WithdrawAllowed` | cvlr-solana-stake/src/processor.rs:78-94 | an allowed withdrawal never exceeds the balance, and a partial one leaves at least the reserve. A full withdrawal is allowed exactly when the account is not staked |
| `Rules.NewStake` | cvlr-solana-stake/src/processor.rs:447-453 | a new stake carries the given amount, voter, activation epoch and credits, and is not deactivating |
| `Processor.EffectiveWithin` | cvlr-solana-stake/src/processor.rs:551-557 | the drawn effective stake never makes the locked stake exceed the delegation, at any epoch. The bound constrains only `Stake` states |
| `Rules.ValidateDelegatedAmount` | cvlr-solana-stake/src/processor.rs:433-445 | succeeds exactly when the balance reaches the rent-exempt reserve plus the minimum delegation; the amount is then at least the minimum and is exactly the balance above the reserve; otherwise fails with insufficient delegation |
| `Processor.ProcessWithdraw` | cvlr-solana-stake/src/processor.rs:25-103 | succeeds exactly when the state decodes, is not `RewardsPool`, the reserve does not overflow, the withdrawal rule holds (`RuleProperties.FullWithdrawal`, `RuleProperties.PartialWithdrawal`) and the transfer cannot overflow. A full withdrawal resets the discriminant and keeps every later byte; a partial one leaves the data untouched. It then moves exactly `withdraw_lamports`. On failure nothing changes |
| `Processor.ProcessDeactivate` | cvlr-solana-stake/src/processor.rs:105-131 | succeeds exactly when the deactivation rule accepts the decoded state; the buffer then holds the rule's next state over its front, and on failure nothing changes |
| `Processor.MetaAuthorizedAuthorize` | cvlr-solana-stake/src/processor.rs:511-521 | the in-place update of a `Meta` gives `Authorize(meta, …)`, which replaces the selected authority (see `RuleProperties.AuthorizeReplacesOneAuthority`) |
| `Processor.ProcessAuthorize` | cvlr-solana-stake/src/processor.rs:488-509 | `do_authorize` succeeds exactly when the state is `Initialized` or `Stake`, and then writes the state with the selected authority replaced; on failure nothing changes |
| `Processor.RedelegateStake` | cvlr-solana-stake/src/processor.rs:455-486 | the field-by-field update of the stake gives exactly `Redelegated`, whose properties are `RuleProperties.RedelegateActive` and `RuleProperties.RedelegateInactive` |
| `Processor.ProcessDelegate` | cvlr-solana-stake/src/processor.rs:166-207 | succeeds exactly when the delegation rule accepts the decoded state and the balance; the buffer then holds the rule's next state, and on failure nothing changes |
| `Processor.SplitTransition` | cvlr-solana-stake/src/processor.rs:244-329 | the handler's match on the source state computes exactly the states `SplitStates` describes, with the same failures |
| `Processor.SplitStatesShape` | cvlr-solana-stake/src/processor.rs:296-320 | a split writes the source only when the source is `Stake`, writes `Stake` there, and writes the destination only from `Initialized` or `Stake`, with a record that fits |
| `Processor.ProcessSplit` | cvlr-solana-stake/src/processor.rs:209-344 | succeeds exactly when the destination buffer has the fixed size and decodes as `Uninitialized`, `split_lamports` is at most the source balance, the split rule succeeds and the transfer cannot overflow. The states the rule gives are then written, the source discriminant is zeroed when the whole balance moves, and exactly `split_lamports` move. On failure nothing changes |
| `Processor.ApplySplit` | cvlr-solana-stake/src/processor.rs:302-341 | the writes, the reset of a fully drained source and the relocation happen in the program's order and have exactly the stated effect on both buffers and balances |
| `Processor.ProcessMerge` | cvlr-solana-stake/src/processor.rs:346-432 | succeeds exactly when the keys differ, both states decode as `Initialized` or `Stake`, and the two balances fit in a `u64`. Then the destination holds `Stake` with its own meta, the merged stake and empty flags, and the source discriminant is zero. The source balance becomes 0 and the destination gains the whole former source balance. On failure nothing changes |
| `RuleProperties.FullWithdrawal` | cvlr-solana-stake/src/processor.rs:78-83 | withdrawing the whole balance is refused exactly when the account is staked: a delegation not yet deactivating with nonzero stake, or one past deactivation with nonzero effective stake |
| `RuleProperties.PartialWithdrawal` | cvlr-solana-stake/src/processor.rs:42-93 | a partial withdrawal succeeds exactly when it plus the reserve fits in the balance. The reserve is the stake plus the rent-exempt reserve before the deactivation epoch, the effective stake plus the rent-exempt reserve from that epoch on, the rent-exempt reserve for `Initialized`, and 0 for `Uninitialized` |
| `RuleProperties.PartialWithdrawalKeepsReserve` | cvlr-solana-stake/src/processor.rs:88-93 | after a successful partial withdrawal the account still holds its rent-exempt reserve and all the stake counted as locked |
| `RuleProperties.WithdrawalsOnlyLoosen` | cvlr-solana-stake/src/processor.rs:44-57 | counting the full delegation as locked until deactivation is conservative: a withdrawal allowed before the deactivation epoch is allowed at any later epoch, for any effective stake up to the delegation |
| `RuleProperties.WithdrawScenario` | cvlr-solana-stake/src/processor.rs:42-93 | stake 1000, reserve 100, balance 1100 at epoch 5: withdrawing 50 is refused while not deactivating, and withdrawing 0 is allowed once deactivated at epoch 5 with no effective stake |
| `RuleProperties.DelegateInitialized` | cvlr-solana-stake/src/processor.rs:186-194 | delegating `Initialized` succeeds exactly when the balance reaches reserve plus minimum. It then stakes exactly the balance above the reserve, with the given voter, activation at the clock epoch, no deactivation, the same meta and empty flags. Otherwise it fails with insufficient delegation |
| `RuleProperties.DelegateExamples` | cvlr-solana-stake/src/processor.rs:433-445 | with reserve 100, balance 150 stakes 50 and balance 100 fails |
| `RuleProperties.RedelegateActive` | cvlr-solana-stake/src/processor.rs:461-475 | with nonzero effective stake, redelegation succeeds exactly for the same voter in the scheduled deactivation epoch. It then only resets the deactivation epoch to `u64::MAX`, keeping the stake, activation epoch, voter and credits |
| `RuleProperties.RedelegateInactive` | cvlr-solana-stake/src/processor.rs:476-485 | with zero effective stake, redelegation is a fresh stake of the given amount, voter and epoch, not deactivating |
| `RuleProperties.DelegateOutcome` | cvlr-solana-stake/src/processor.rs:185-204 | every successful delegate leaves `Stake` with the same meta and no deactivation scheduled. The amount is either the old one (a rescinded deactivation) or the balance above the reserve, which is at least the minimum |
| `RuleProperties.DeactivateOnlySetsEpoch` | cvlr-solana-stake/src/processor.rs:118-128 | deactivation succeeds exactly on `Stake` with no deactivation scheduled and changes only the deactivation epoch, to the clock epoch |
| `RuleProperties.AuthorizeReplacesOneAuthority` | cvlr-solana-stake/src/processor.rs:495-521 | authorize succeeds exactly on `Initialized` and `Stake`. It replaces exactly the staker or the withdrawer, as selected. Variant, stake, flags, reserve, lockup and the other authority are kept |
| `RuleProperties.SplitStakeSucceeds` | cvlr-solana-stake/src/processor.rs:266-297 | splitting `Stake` succeeds exactly under one of two conditions, depending on the branch. In the zero-balance branch, the split lamports above the reserve must be at least the minimum and at most the stake. In the other branch, the source must keep at least the minimum and the adjusted split must reach the minimum |
| `RuleProperties.SplitStakeOutcome` | cvlr-solana-stake/src/processor.rs:245-311 | a successful split of `Stake` writes `Stake` into both accounts with the source's flags. The source meta is kept; the destination gets it with the new reserve. The destination copies the source delegation except the amount, which is at least the minimum. The zero-balance branch moves exactly the split lamports above the reserve and conserves the total stake. The other branch takes the split lamports off the source, which keeps at least the minimum. No stake is created |
| `RuleProperties.SplitOtherStates` | cvlr-solana-stake/src/processor.rs:312-328 | splitting `Initialized` always succeeds and gives the destination the source meta with the new reserve. Splitting `Uninitialized` writes nothing and succeeds exactly when the source signed. `RewardsPool` is refused |

## Left out

- Instruction decoding is not modelled, and neither is the account plumbing: `next_account_info`, `Clock::from_account_info` (the clock epoch is a parameter), and `RefCell` borrows.
- The lockup check, `validate_split_amount`, `MergeKind` and the vote-state read are commented out in the program, so they are not part of this model.
- Warmup/cooldown and rent formulas do not exist in the program. The values the program draws instead are parameters, with the program's bounds.
- The deprecated floating-point `warmup_cooldown_rate` field of `Delegation` is not represented. The byte layout therefore has no slot for it, and its record sizes are those of the layout here, not the library's. The fixed account size 200 is kept.
- `Codec.Encode`, `Codec.Decode`: a concrete little-endian layout stands in for the borsh library. Only the 4-byte little-endian discriminant, where 0 is `Uninitialized`, is taken from the program itself.
- `Rules.Deactivate`, `Rules.SplitStake`, `Rules.NewDelegation`: `Stake::deactivate`, `Stake::split` and `Delegation::new` are library code. Their bodies are not part of this model, and what the handlers rely on is stated here as assumptions about the library. Deactivation fails when a deactivation is already scheduled. A split fails when the remaining-stake delta exceeds the stake, and otherwise gives the destination a copy of the reduced source stake holding the split amount. A new delegation is not deactivating. Deactivating a stake that is already deactivating therefore fails instead of doing nothing.
- Relocation overflow is decided before the first write. In the program, a relocation that overflows panics after the writes, and the abort rolls them back. Deciding it first gives the same observable result.
- `Processor.ProcessMerge` follows the program's assumption that the two metas' `authorized` fields are equal, as a precondition. It does not model a failure path for metas that differ.
- `Processor.ProcessMerge` requires, for mergeable accounts, a source buffer of the fixed size and a destination buffer that can hold a `Stake` record. The program checks neither: it assumes the first when it resets the source (`cvlr-solana-stake/src/processor.rs:567`) and the second in the slice writer (`cvlr-solana-stake/src/utils.rs:12`) while writing the destination.
- `Processor.ProcessDelegate` requires that an `Initialized` account whose balance passes the amount check has a buffer that can hold a `Stake` record. The program checks no size here: it assumes the fit in the slice writer (`cvlr-solana-stake/src/utils.rs:12`) while writing the record. `Processor.WriteRecord` leaves a buffer too short for the record unchanged, and no handler reaches that case.
- The token crate only re-exports `spl_token` and swaps in its cross-program-call functions. It has no logic of its own, so it is not part of this model.
- Signatures are not checked, except the `is_signer` flag of an `Uninitialized` split source.
