# Launch vault: a verified model

This project models a token launch vault and proves what its documentation promises.

The vault holds two pools, the founder's and the treasury's, for one policy. Each period a pool may release at
most a reserved quota, computed from an oracle's capacity report, two annual rules and hard caps. Who may release
is decided by withdrawal keys that can be replaced, by the key itself or by two of three guardians, on 90 days'
notice and inside a 30-day window. Treasury recipients are approved a full period ahead. The oracle and the
controller can be replaced on 90 days' notice. Every proposal stays stored for ever.

The files, in the order in which they build on one another:

- `Basics`, `State`: integer widths, refusals, roles, masks, accounts and time arithmetic.
- `Capacity`, `Interleaving`: the quota kernel, its accounting invariant, and its independence of order.
- `Withdrawal`, `Tombstones`, `RegistryProofs`: key authority, the replay of its permanent history, and the invariant
  that every stored field agrees with that replay.
- `Control`: changes of oracle and controller, reports, and the same kind of replay.
- `Tokens`, `Launch`: token transfers, and every instruction as a step that commits whole or refuses.
- `Invariant`, `Preservation`: the invariant of all accounts, kept by every event.
- `Commits`: exactly when each instruction commits in a reachable state, and who must have signed it.
- `Safety`, `Authority`, `ControlRuns`, `Provenance`: what holds of every run from admission, and which events it takes
  to pay, cancel, arm or approve.
- `Program`: the handlers as they run, writing accounts in place, each proved to be its step.
- `Projection`, `Ceilings`, `Review`, `ControlReview`, `Snapshot`, `Acceptance`: the offline verifier, its loops over
  the histories, its exact ceilings, and exactly which reachable active states it accepts.
- `Histories`, `Soundness`: what an accepted history is entry by entry, and what an accepted snapshot guarantees whether
  or not a run leads to it.
- `ReleaseOrder`: batches of releases of one period, of which only the two pools' sums matter.
- `HistoryModel`, `Simulation`, `SimulationRuns`: the history-list model of key authority, and that every run of the
  vault is a run of it.
- `ReleaseSimulation`: the model authorizes a release exactly when the vault makes it, but for report, cliff and amount.
- `SubmissionModel`: signed admission windows over that model.
- `FirstCome`, `FirstComeRuns`: the earlier first-come vault's release, and that its kernel accepts every run of the
  vault.
- `FirstComeOrder`, `FirstComePayments`, `StarvedVault`: exactly when the first-come vault's pools cannot starve each
  other, and one policy in which one does.
- `Witness`: concrete runs, from admission to payments, a refund, replaced keys, and three that the verifier refuses.
- `Journal`, `JournalFacts`: the hash-chained observation journal, and what its files and its anomalies are.
- `Base58`: the key codec.

A run is any sequence of instructions at any clock readings, together with token events outside the program:
accounts opened, tokens moved out of wallets (also into vaults), and wallets reassigned. A refused event changes
nothing. Run theorems start from `Safety.Genesis`: an admitted policy over the token accounts of its whole mint.

Account constraints (who signs, create-once records, bindings) are guards of the steps: an address that is derived
from its contents is a map key, and a record that may be created once is a key not yet in its map. A signer is an
ordinary key; program-derived and default keys cannot sign.

## Model

| member | source | states |
|---|---|---|
| State.PeriodContains | candidates/launch-vault-v7/src/state.rs:293-302 | a time has period n exactly when it lies between the starts of periods n and n + 1, and the start of its period never overflows |
| State.CliffIsPeriodSix | candidates/launch-vault-v7/src/state.rs:3-4 | the cliff has passed exactly from period 6 on |
| Basics.MaskIsByte | candidates/launch-vault-v7/src/withdrawal.rs:34-35 | testing, setting and clearing a role in a mask is testing, setting and clearing its bit of the stored byte |
| Capacity.AnnualCapLossless | candidates/launch-vault-v7/src/capacity.rs:6-9 | the cast to 64 bits loses nothing and a cap is at most a twentieth of its basis |
| Capacity.QuotasSplitCapacity | candidates/launch-vault-v7/src/capacity.rs:11-23 | for every 64-bit input each quota is within its own cap, together they are within the capacity, and after the cliff they sum to exactly the smaller of capacity and both caps; both casts are lossless |
| Capacity.RoundingTowardTreasury | candidates/launch-vault-v7/src/capacity.rs:11-23 | after the cliff the treasury gets its exact proportional part of the capacity plus less than one unit of rounding |
| Capacity.ProductFits128 | candidates/launch-vault-v7/src/capacity.rs:18-21 | the intermediate product fits 128 bits |
| Capacity.QuotasMonotone | candidates/launch-vault-v7/src/capacity.rs:11-23 | more capacity shrinks neither quota |
| Capacity.ValidRule | candidates/launch-vault-v7/src/capacity.rs:32-50 | an annual rule is admitted exactly when it is non-empty, within the principals, at most 500 basis points, with a shared cap within its pools' caps and an end that fits |
| Capacity.LimitsExist | candidates/launch-vault-v7/src/capacity.rs:71-149 | under the accounting invariant the limits exist for every time from the stored period on that a rule covers: nothing underflows and no accounting check fails; otherwise the refusal is exactly the missing rule |
| Capacity.ConsumeExact | candidates/launch-vault-v7/src/capacity.rs:151-203 | the outcome of a release is exactly: missing rule, correction pause, quota exceeded, or success; the final capacity gate and the accounting checks never fire |
| Capacity.ConsumeKeepsBooks | candidates/launch-vault-v7/src/capacity.rs:151-203 | a successful release keeps the whole accounting invariant and leaves both vaults in agreement with the policy, adding the amount to its own pool's counters only |
| Capacity.LifetimeBound | candidates/launch-vault-v7/src/capacity.rs:25-50 | counters that keep the invariant never exceed the sum of the two annual caps, a tenth of the principal |
| Capacity.HigherReportNeverPauses | candidates/launch-vault-v7/src/capacity.rs:123-147 | a report that is not lower than one without a correction pause causes none |
| Interleaving.DrawKeepsQuotas | candidates/launch-vault-v7/src/capacity.rs:98-146 | a release never changes the quotas of its own period |
| Interleaving.RunExact | candidates/launch-vault-v7/src/capacity.rs:71-203 | within one period and report, from limits without a pause, any interleaving of positive releases succeeds exactly when each pool's sum fits its own remaining quota, and the sums alone determine the state it leaves |
| Interleaving.PathIndependence | candidates/launch-vault-v7/src/capacity.rs:71-203 | reordering or splitting releases of a period changes neither whether they succeed nor the state they leave |
| Interleaving.NoStarvation | candidates/launch-vault-v7/src/capacity.rs:71-203 | an interleaving succeeds exactly when each pool's releases would succeed alone: neither pool can starve the other |
| RegistryProofs.PrepareKeyKeeps | candidates/launch-vault-v7/src/withdrawal.rs:5-20 | a new blank key record keeps the registry invariant |
| RegistryProofs.ProposeKeeps | candidates/launch-vault-v7/src/withdrawal.rs:53-135 | an admitted proposal extends its role's history by one pending entry and keeps the registry invariant |
| RegistryProofs.PendingExactly | candidates/launch-vault-v7/src/withdrawal.rs:137-150 | under the invariant the seven pending checks of a stored proposal hold exactly when its status is pending |
| RegistryProofs.ExecuteIsEnded | candidates/launch-vault-v7/src/withdrawal.rs:152-183 | a committed execution ends the pending proposal as executed: the successor becomes current, the epoch rises by one, and only its masks move |
| RegistryProofs.CancelIsEnded | candidates/launch-vault-v7/src/withdrawal.rs:185-201 | a committed cancellation ends the pending proposal as cancelled and leaves key and epoch alone |
| RegistryProofs.ExpireIsEnded | candidates/launch-vault-v7/src/withdrawal.rs:203-212 | a committed expiry ends the pending proposal as expired, at or after its expiry, and leaves key and epoch alone |
| RegistryProofs.EndKeeps | candidates/launch-vault-v7/src/withdrawal.rs:152-212 | whatever ends a proposal keeps the registry invariant |
| RegistryProofs.ApproveKeeps | candidates/launch-vault-v7/src/lib.rs:286-331 | an approval of an eligible recipient keeps the registry invariant |
| RegistryProofs.SpendKeeps | candidates/launch-vault-v7/src/lib.rs:431-435 | spending within an approval's need keeps the registry invariant |
| RegistryProofs.RecipientStaysEligible | candidates/launch-vault-v7/src/withdrawal.rs:27-38 | an approved recipient is still eligible whatever has happened since, and was never current or pending in either role |
| RegistryProofs.PendingStaysEligible | candidates/launch-vault-v7/src/withdrawal.rs:40-50 | the pending successor is still eligible whatever has happened since it was proposed |
| RegistryProofs.PendingNeverStuck | candidates/launch-vault-v7/src/withdrawal.rs:165-212 | a pending proposal executes exactly inside its execution window and expires exactly from its expiry on; its times never overflowed and neither the re-check nor the epoch can refuse |
| Commits.PrepareKeyExactly | candidates/launch-vault-v7/src/withdrawal.rs:5-20 | a key record is made exactly once for each key but the default, in any policy not cancelled |
| Commits.ProposeWithdrawalExactly | candidates/launch-vault-v7/src/withdrawal.rs:53-135 | in every reachable state a proposal commits exactly when it names the next nonce, the current epoch and key, is signed by that key in both places or by two different ones of the three guardians, inside its window of at most 300 seconds, for a recorded key that is new to the role, no guardian and no recipient, while none is pending |
| Commits.ExecuteWithdrawalExactly | candidates/launch-vault-v7/src/withdrawal.rs:165-183 | in every reachable state the pending proposal executes exactly from 90 days after its creation to before 120 days, in a policy not cancelled |
| Commits.CancelWithdrawalExactly | candidates/launch-vault-v7/src/withdrawal.rs:185-201 | in every reachable state the pending proposal is retracted exactly by two different ones of the three guardians, by its successor alone, or by the current key alone unless it is a recovery |
| Commits.ExpireWithdrawalExactly | candidates/launch-vault-v7/src/withdrawal.rs:203-212 | in every reachable state the pending proposal expires exactly from 120 days after its creation on |
| Tombstones.HistoryFacts | candidates/launch-vault-v7/src/withdrawal.rs:165-183 | in an accepted history the keys are pairwise distinct, start with the original, contain no guardian, and were activated in order |
| Control.ProposeKeeps | candidates/launch-vault-v7/src/governance.rs:22-73 | an accepted change proposal extends the change history by one pending entry and keeps its invariant |
| Control.PendingExactly | candidates/launch-vault-v7/src/governance.rs:75-86 | under the invariant the pending checks of a stored change hold exactly when its status is pending |
| Control.CancelKeeps | candidates/launch-vault-v7/src/governance.rs:88-104 | a cancelled change keeps the invariant, with oracle, controller and epochs as they were |
| Control.ExecuteKeeps | candidates/launch-vault-v7/src/governance.rs:106-133 | an executed change keeps the invariant: replaying the history gives the new key and epoch, and an oracle change invalidates the report |
| Control.ChangeNeverStuck | candidates/launch-vault-v7/src/governance.rs:75-133 | a pending change executes at every time from the end of its 90-day notice on and at none before; its epoch never overflows |
| Control.ReportKeeps | candidates/launch-vault-v7/src/lib.rs:255-284 | an accepted report keeps the invariant: it belongs to the current oracle, its activation and its own period |
| Commits.ProposeChangeExactly | candidates/launch-vault-v7/src/governance.rs:16-73 | in every reachable state a change commits exactly when it names the next nonce and another key than the one it replaces, none is pending, and it is signed by two different ones of the three recovery keys or, if it is no recovery, by the controller in both places |
| Commits.CancelChangeExactly | candidates/launch-vault-v7/src/governance.rs:88-104 | in every reachable state the pending change is retracted exactly by two different ones of the three recovery keys, by its successor alone, or by the controller alone unless it is a recovery |
| Commits.ExecuteChangeExactly | candidates/launch-vault-v7/src/governance.rs:106-133 | in every reachable state the pending change executes exactly from 90 days after its creation on, in a policy not cancelled |
| Invariant.ValidatedTermsOk | candidates/launch-vault-v7/src/bootstrap.rs:6-61 | a preparation is admitted exactly when its terms satisfy the configuration facts that the invariant starts from, ahead of the official start and under its own identity |
| Invariant.OpenEstablishes | candidates/launch-vault-v7/src/lib.rs:47-125 | a confirmed preparation starts in the invariant |
| Commits.OpenExactly | candidates/launch-vault-v7/src/lib.rs:47-72 | a policy opens exactly when its terms are sound, spelled out down to each rule and committee, its start is ahead, it stands under its own identity, and the creator, both roles and the three recovery keys sign over the oracle it names |
| Commits.DepositExactly | candidates/launch-vault-v7/src/lib.rs:127-176 | in every reachable state a deposit commits exactly for the controller, the role's current key while nothing is pending, the exact principal and a source that the depositor owns and that covers it, once per pool and before the start; it moves exactly that amount and records that depositor |
| Commits.ArmExactly | candidates/launch-vault-v7/src/lib.rs:178-188 | arming commits exactly for the controller, before the start, with both pools deposited |
| Commits.ActivateExactly | candidates/launch-vault-v7/src/lib.rs:190-197 | activation commits exactly for an armed policy from the start on |
| Commits.CancelPolicyExactly | candidates/launch-vault-v7/src/lib.rs:199-209 | cancellation commits exactly before the start, for the controller and both roles' current keys together |
| Commits.ExpireUnarmedExactly | candidates/launch-vault-v7/src/lib.rs:211-218 | a policy left unarmed is cancelled exactly from the start on |
| Commits.RefundExactly | candidates/launch-vault-v7/src/lib.rs:220-253 | in every reachable state a refund commits exactly for the recorded depositor, to an account it owns, in a cancelled policy while the vault holds anything; it moves the whole balance there and touches no other account |
| Commits.ReportExactly | candidates/launch-vault-v7/src/lib.rs:255-284 | in every reachable state a report commits exactly for the current oracle in its epoch, with a higher sequence, observed no earlier than the last, after the oracle's activation, in the period of now and within the maximum age; it stores what was reported |
| Commits.ApproveExactly | candidates/launch-vault-v7/src/lib.rs:286-331 | in every reachable state an approval commits exactly for the treasury's current key in its epoch while nothing is pending, for a period that has not begun, whose end fits and that has no approval, to an account whose owner is recorded and is no party, guardian, current, past or pending key; it stores exactly that and marks the owner |
| Commits.TargetExactly | candidates/launch-vault-v7/src/lib.rs:300-318 | a period may be approved exactly when it has not begun and its end fits; more than a full period is then always left before its end, so the test of that notice never refuses |
| Invariant.DepositKeeps | candidates/launch-vault-v7/src/lib.rs:127-176 | a deposit keeps the invariant and the token supply |
| Invariant.RefundKeeps | candidates/launch-vault-v7/src/lib.rs:220-253 | a refund keeps the invariant and the supply, and moves the whole vault balance to the named account |
| Invariant.ReleasePays | candidates/launch-vault-v7/src/lib.rs:440-458 | the vault always covers what the kernel lets through: the final transfer of a release cannot fail |
| Invariant.ReleaseKeeps | candidates/launch-vault-v7/src/lib.rs:333-459 | a release keeps the invariant |
| Preservation.ApproveKeeps | candidates/launch-vault-v7/src/lib.rs:286-331 | an approval keeps the invariant, spending included |
| Preservation.StepKeeps | candidates/launch-vault-v7/src/lib.rs:127-513 | every committed instruction keeps the invariant |
| Preservation.RunKeeps | candidates/launch-vault-v7/src/lib.rs:47-513 | in every run, refused events and outside token movements included, every state keeps the invariant and no modelled event makes or loses a token |
| Tokens.TransferConserves | candidates/launch-vault-v7/src/lib.rs:440-458 | a transfer fails only for a missing account or missing funds, and conserves the supply, also from an account to itself |
| Tokens.TransferMoves | candidates/launch-vault-v7/src/lib.rs:440-458 | a transfer takes its amount from one account, adds it to the other, and leaves every other balance and every owner alone |
| Safety.PaidIsReleased | candidates/launch-vault-v7/src/capacity.rs:188-201 | the lifetime counters are exactly what the run's committed releases paid |
| Safety.LifetimeTheorem | candidates/launch-vault-v7/src/capacity.rs:25-50 | over any run, whatever is reported and whichever keys change, a pool pays at most the sum of its two annual caps, hence at most a tenth of its principal |
| Safety.CustodyTheorem | candidates/launch-vault-v7/src/lib.rs:127-253 | in every state of every run the supply is constant; an uncancelled funded vault holds at least the principal not yet released; an active policy has both pools exactly funded; a cancelled one never released anything |
| Safety.RefundTheorem | candidates/launch-vault-v7/src/lib.rs:220-253 | after cancellation the first refund of a funded pool succeeds for the original depositor and pays at least the whole principal |
| Safety.VaultDeposited | candidates/launch-vault-v7/src/lib.rs:127-176 | the recorded depositor of a vault is the one that signed its deposit, a committed event of the run |
| Safety.DepositorFixed | candidates/launch-vault-v7/src/lib.rs:163-173 | the recorded depositor of a vault never changes |
| Provenance.OnlyOwnersArePaid | candidates/launch-vault-v7/src/lib.rs:220-253 | over any run, an event that lowers a vault's balance is a release signed by the pool's current key in its epoch, or a refund signed by the depositor of an earlier committed deposit of that pool, in a cancelled policy, to an account that key owns |
| Provenance.HowCancelled | candidates/launch-vault-v7/src/lib.rs:199-218 | a run that reaches cancellation did so by an event before the start that the controller and both roles' current keys signed, or by leaving the policy unarmed until the start |
| Provenance.HowArmed | candidates/launch-vault-v7/src/lib.rs:178-188 | a run that is armed or active was armed before the start by its controller, with both pools deposited |
| Provenance.ApprovalMade | candidates/launch-vault-v7/src/lib.rs:286-331 | every stored approval was made by a committed event of the run, signed by the treasury's key of that moment while no proposal was pending, for the account and owner it still names |
| Safety.ReleaseRefusals | candidates/launch-vault-v7/src/lib.rs:333-459 | no release in any run is refused for lack of funds, inconsistent accounting, the final capacity gate, or an approved recipient that became ineligible |
| Authority.KeysGrowOverRun | candidates/launch-vault-v7/src/withdrawal.rs:165-183 | no event removes or reorders the keys a role ever had |
| Authority.KeysDistinct | candidates/launch-vault-v7/src/withdrawal.rs:165-183 | a role's current key is the newest of its keys, all different, and its epoch counts them |
| Authority.ReplacedNeverReturns | candidates/launch-vault-v7/src/state.rs:311-319 | a replaced key is never current again and never authenticates, whatever epoch is claimed |
| Authority.RecipientsOutsideAuthority | candidates/launch-vault-v7/src/withdrawal.rs:27-38 | in every state of every run an approved recipient is none of the keys either role ever had, awaits, or is guarded by |
| Authority.NeverStuck | candidates/launch-vault-v7/src/withdrawal.rs:165-212 | in an uncancelled policy, from maturity on exactly one of the execute and expire instructions succeeds for the pending proposal |
| Authority.ProposalsAdmitted | candidates/launch-vault-v7/src/withdrawal.rs:53-116 | every stored proposal was admitted by a committed event of the run, at its creation time and within its signed window, signed by the current key of that moment in both places or by two different ones of the role's three guardians |
| Authority.FullNotice | candidates/launch-vault-v7/src/withdrawal.rs:165-183 | an executed key change was admitted at least 90 days and less than 120 days earlier by an event of the run, signed as it must be, whose successor it makes current |
| Authority.ReportMade | candidates/launch-vault-v7/src/lib.rs:255-284 | a stored valid report was made by a committed event, signed by the oracle that is still current, with that event's capacity, sequence, epoch, observation time and period |
| Authority.ReleaseRestsOnReport | candidates/launch-vault-v7/src/lib.rs:344-358 | every committed release rests on a report that an earlier committed event made, signed by the oracle that is still current, with that event's capacity and sequence, observed after the oracle's activation, in the release's own period, and no older than the maximum age |
| Authority.ReportsOrdered | candidates/launch-vault-v7/src/lib.rs:255-284 | of two reports of a run the later has a strictly higher sequence and no earlier observation, across oracle changes |
| ControlRuns.ChangesAdmitted | candidates/launch-vault-v7/src/governance.rs:22-73 | every stored change was put forward by a committed event of the run, when it was created, with its kind, successor and nonce; a recovery was signed by two different ones of the three recovery keys, any other by the controller of that moment in both places |
| ControlRuns.FullChangeNotice | candidates/launch-vault-v7/src/governance.rs:106-133 | an executed change was put forward at least 90 days earlier by an event of the run, signed as above, whose successor becomes the oracle or the controller; the other stays, and a new oracle starts without a report, active from that moment |
| ControlRuns.NeverStuck | candidates/launch-vault-v7/src/governance.rs:75-133 | in an uncancelled policy the pending change executes at exactly the times from the end of its notice on |
| ReleaseOrder.ThroughIsRun | candidates/launch-vault-v7/src/lib.rs:333-459 | a batch of releases of one period succeeds exactly when the capacity kernel takes its draws and the treasury's sum is within its approval; it leaves the kernel's counters and spends that sum |
| ReleaseOrder.BatchExact | candidates/launch-vault-v7/src/lib.rs:333-459 | in every active state of every run, such a batch, in whatever order and split, succeeds exactly when each pool's sum fits that pool's own quota and the treasury's its approval |
| ReleaseOrder.OrderNeverMatters | candidates/launch-vault-v7/src/lib.rs:333-459 | two such batches with equal sums succeed or fail alike and leave the same books, vaults and approvals |
| ReleaseOrder.NoPoolStarves | candidates/launch-vault-v7/src/lib.rs:333-459 | such a batch succeeds exactly when each pool's releases do without the other's |
| Witness.SomeRunPays | candidates/launch-vault-v7/src/lib.rs:47-459 | there is a run from admission to an active policy that has paid out of both pools, the treasury through an approval, and whose snapshot the verifier accepts at every later time |
| Witness.SomeRunRefunds | candidates/launch-vault-v7/src/lib.rs:199-253 | there is a run in which a deposit is refunded in full after a cancellation |
| Witness.SomeRunReplaces | candidates/launch-vault-v7/src/lib.rs:467-513 | there is a run in which a withdrawal key and the oracle are both replaced after full notice |
| Program.Accounts.Process | candidates/launch-vault-v7/src/lib.rs:15-513 | one transaction, its writes made in place and undone on refusal, is exactly the step function's next state, and keeps the invariant and the supply |
| Program.Accounts.Dispatch | candidates/launch-vault-v7/src/lib.rs:127-513 | each handler, run in the program's own order, commits its step or gives exactly its refusal |
| Program.Accounts.Deposit | candidates/launch-vault-v7/src/lib.rs:127-176 | the deposit handler against its constraints and its step |
| Program.Accounts.Refund | candidates/launch-vault-v7/src/lib.rs:220-253 | the refund handler against its constraints and its step |
| Program.Accounts.ReportCapacity | candidates/launch-vault-v7/src/lib.rs:255-284 | the report handler, field by field, against its step |
| Program.Accounts.ApproveTreasury | candidates/launch-vault-v7/src/lib.rs:286-331 | the approval handler against its constraints and its step |
| Program.Accounts.Authorize | candidates/launch-vault-v7/src/lib.rs:333-436 | the checks of a release, in order, with the approval spent before the need is checked |
| Program.Accounts.CurrentLimits | candidates/launch-vault-v7/src/capacity.rs:71-149 | the limits computed with the two-slot loop are the specified limits, refusals included |
| Program.Accounts.ConsumeCapacity | candidates/launch-vault-v7/src/capacity.rs:151-203 | the counters written in place are those of the specified draw, and none is written on a refusal |
| Program.Accounts.Release | candidates/launch-vault-v7/src/lib.rs:333-459 | the release handler against its constraints and its step |
| Program.Accounts.ProposeWithdrawal | candidates/launch-vault-v7/src/withdrawal.rs:53-116 | the proposal handler, field by field, against its step |
| Program.Accounts.Finish | candidates/launch-vault-v7/src/withdrawal.rs:152-163 | clearing the link, the mask and the status in place is the specified end of a proposal |
| Program.Accounts.ExecuteWithdrawal | candidates/launch-vault-v7/src/withdrawal.rs:165-183 | the execution handler, field by field, against its step |
| Program.Accounts.CancelWithdrawal | candidates/launch-vault-v7/src/withdrawal.rs:185-201 | the cancellation handler against its step |
| Program.Accounts.ExpireWithdrawal | candidates/launch-vault-v7/src/withdrawal.rs:203-212 | the expiry handler against its step |
| Program.Accounts.ProposeChange | candidates/launch-vault-v7/src/governance.rs:22-73 | the change proposal handler against its step |
| Program.Accounts.CancelChange | candidates/launch-vault-v7/src/governance.rs:88-104 | the change cancellation handler against its step |
| Program.Accounts.ExecuteChange | candidates/launch-vault-v7/src/governance.rs:106-133 | the change execution handler, field by field, against its step |
| Projection.SameQuotas | src/launch_v7_verifier.py:133-141 | the verifier's quotas, in unbounded integers, are the on-chain quotas |
| Projection.ProjectionIsLimits | src/launch_v7_verifier.py:165-192 | wherever the on-chain limits exist the projection agrees with them field by field |
| Ceilings.ProjectionExact | src/launch_v7_verifier.py:165-192 | in every active state of every run the projection equals the on-chain limits where a rule covers the period, and is blocked exactly where none does |
| Ceilings.CeilingsExact | src/launch_v7_verifier.py:339-346 | in every active state of every run a release by the current key and epoch to where it must go succeeds if and only if its amount is positive and at most the reported ceiling |
| Ceilings.CeilingsBound | src/launch_v7_verifier.py:339-346 | no release above its ceiling succeeds, whoever signs it and whatever it brings |
| Ceilings.ReleaseExactly | candidates/launch-vault-v7/src/lib.rs:333-459 | wherever what the ceilings rest on stands, reachable or not, a release commits if and only if it is signed by the pool's current key in its epoch, goes where it must, and is positive and at most the ceiling |
| Review.VerifyLane | src/launch_v7_verifier.py:395-442 | the loop over a role's proposals accepts exactly the admissible histories, and leaves their replayed keys, times, marks and successors |
| Review.MarksMatchReplay | src/launch_v7_verifier.py:423-439 | the marks a replay expects are exactly: made current, and pending |
| Review.VerifyRecords | src/launch_v7_verifier.py:444-458 | the loop over key records passes exactly when each shows its expected marks and recipient mark |
| Review.VerifyApprovals | src/launch_v7_verifier.py:460-473 | the loop over approvals passes exactly when each has valid counters, an eligible recipient, the right author for its time, and no collision or pause |
| Review.VerifyWithdrawal | src/launch_v7_verifier.py:382-476 | the whole withdrawal review decides exactly its specification |
| ControlReview.VerifyGovernance | src/launch_v7_verifier.py:198-262 | the loop over change tombstones decides exactly whether they replay to the stored control |
| ControlReview.ReachableGovernanceVerifies | src/launch_v7_verifier.py:198-262 | replaying the change tombstones of any reachable state succeeds and rebuilds oracle, controller, epochs, pending link and activation bound |
| Acceptance.RecordsReachable | src/launch_v7_verifier.py:444-458 | every reachable key record shows exactly the marks that replaying both roles leaves |
| Acceptance.ApprovalReachable | src/launch_v7_verifier.py:363-379 | every reachable approval passes: counters, eligibility, author and epoch timing, no approval inside a pause, no recipient-successor collision |
| Acceptance.ReachableWithdrawalVerifies | src/launch_v7_verifier.py:382-476 | folding over the full withdrawal tombstones of any reachable registry succeeds |
| Snapshot.ConservedExactly | src/launch_v7_verifier.py:319-319 | the named accounts hold the mint's whole supply exactly when no other account of the mint holds anything |
| Snapshot.NamesExactly | src/launch_v7_verifier.py:292-327 | on a state that holds its whole supply, the checks of the named accounts hold exactly when one key deposited both pools, all approvals name one recipient, the source and the destination are those keys' accounts, the destinations hold exactly what was paid, the founder's under its own keys, and nothing is held elsewhere |
| Snapshot.VerifyNames | src/launch_v7_verifier.py:292-327 | the loops over the named accounts decide exactly those checks |
| Acceptance.AccountingReachable | src/launch_v7_verifier.py:275-338 | in every reachable active state all checks of phase, clock, mint, configuration, counters, custody, spent approvals, report and projection hold; those of the named accounts are `Snapshot.NamesExactly` |
| Acceptance.ReachableVerifies | src/launch_v7_verifier.py:265-346 | in every active state of every run the verifier, run at any later time, accepts a snapshot exactly when one key deposited both pools, one recipient was ever approved, the accounts it names are theirs, all different, with one to eight of the founder's, and hold exactly what the run paid, no other account holds anything, and there are at most 256 changes, 256 proposals of each role and 64 approvals |
| Acceptance.MixedNeverVerifies | src/launch_v7_verifier.py:300-326 | no snapshot of a policy with two depositors, or with two approved recipients, is ever accepted |
| Acceptance.Verify | src/launch_v7_verifier.py:265-360 | the review accepts exactly the verifying snapshots and reports exactly their ceilings |
| Histories.HistoryExactly | src/launch_v7_verifier.py:395-442 | a withdrawal history is accepted exactly when each entry, taken by itself, names the key and epoch the executed entries before it lead to, a new successor, its signed window, the notice and an ending in its time, after the one before it had ended |
| Histories.ChangesExactly | src/launch_v7_verifier.py:220-252 | a change history is accepted exactly when each entry, taken by itself, names the epochs the executed entries before it lead to, another key than the one it replaces, and the full notice, after the one before it had ended |
| Soundness.ChecksExactly | src/launch_v7_verifier.py:198-346 | in any world whose tokens fit 64 bits, reachable or not, the verifier's checks together with five facts that it does not look at are exactly the vault's invariant |
| Soundness.RegistryExactly | src/launch_v7_verifier.py:382-476 | for any registry whatever, the withdrawal checks and two of those facts are exactly the registry invariant |
| Soundness.ControlExactly | src/launch_v7_verifier.py:198-262 | for any stored control whose report stands, the governance checks are exactly the control invariant |
| Soundness.AcceptedRecords | src/launch_v7_verifier.py:444-458 | in any accepted snapshot a key record shows a role in its history exactly when that role's replay made the key current, shows it pending exactly when it awaits the key, and is a recipient's exactly when an approval names the key |
| Soundness.AcceptedHistories | src/launch_v7_verifier.py:395-442 | in any accepted snapshot both roles' histories are in order entry by entry, and the stored key, epoch and pending link are those they lead to |
| Soundness.AcceptedChanges | src/launch_v7_verifier.py:220-252 | in any accepted snapshot the change history is in order entry by entry, and the stored oracle, controller, epochs and pending link are those it leads to |
| Soundness.AcceptedApprovals | src/launch_v7_verifier.py:460-473 | in any accepted snapshot every approval is within its need, more than a period ahead of its period's end, made by the treasury's key of that time outside any pause, and pays no party, guardian or key that was or may be made current |
| Soundness.AcceptedCeilings | src/launch_v7_verifier.py:339-346 | on any accepted snapshot, reachable or not, the reported ceilings are exact: a release commits if and only if it is signed by the pool's current key in its epoch, goes where it must, and is positive and at most the ceiling |
| Witness.TwoDepositorsRefused | src/launch_v7_verifier.py:300-300 | a run whose pools two keys deposit becomes active, and no snapshot of it is ever accepted |
| Witness.TwoRecipientsRefused | src/launch_v7_verifier.py:326-326 | a run whose snapshot is accepted makes one more approval, for another recipient, and no snapshot of it is ever accepted again |
| Witness.DustRefused | src/launch_v7_verifier.py:319-319 | after one token of an accepted run moves to a wallet that no snapshot can name, no snapshot of the run is ever accepted |
| Simulation.SuccessorTestExact | src/withdrawal_recovery_model.py:129-134 | the O(1) successor test on chain is the model's scan of history, committee and approvals |
| Simulation.RecipientTestExact | src/withdrawal_recovery_model.py:119-126 | the O(1) recipient test on chain is the model's forbidden-recipient scan over both roles |
| Simulation.ProposeSimulates | src/withdrawal_recovery_model.py:137-156 | a committed proposal is a successful call of the model with related results |
| Simulation.ExecuteSimulates | src/withdrawal_recovery_model.py:192-201 | a committed execution is a successful call of the model with related results |
| Simulation.CancelSimulates | src/withdrawal_recovery_model.py:179-183 | a committed cancellation is a successful call of the model with related results |
| Simulation.ExpireSimulates | src/withdrawal_recovery_model.py:186-189 | a committed expiry is a successful call of the model with related results |
| Simulation.ApproveSimulates | src/withdrawal_recovery_model.py:211-226 | a committed approval is a successful call of the model with related results |
| Simulation.ReleaseSimulates | src/withdrawal_recovery_model.py:229-250 | a committed release is authorized by the model |
| Simulation.EndingExact | candidates/launch-vault-v7/src/withdrawal.rs:165-212 | execution and expiry succeed on chain exactly when they do in the model |
| Simulation.CancelExact | candidates/launch-vault-v7/src/withdrawal.rs:185-201 | cancellation by one key alone or by two guardians succeeds on chain exactly when it does in the model |
| Simulation.ProposeExact | candidates/launch-vault-v7/src/withdrawal.rs:53-135 | a proposal that names the current key, and is signed by one key in both places or in recovery, succeeds on chain exactly when it does in the model and now lies in its signed window, both ends included, of at most 300 seconds, whose times fit |
| Simulation.ApproveExact | candidates/launch-vault-v7/src/lib.rs:286-331 | an approval of a recorded recipient succeeds on chain exactly when it does in the model |
| ReleaseSimulation.AuthorizedExactly | src/withdrawal_recovery_model.py:229-250 | in every active state with related books the model authorizes a call exactly when it names the pool's current key and epoch, none is pending, and its destination is where the release must go |
| ReleaseSimulation.ReleaseExact | src/withdrawal_recovery_model.py:229-250 | in every active state with related books a release commits exactly when the model authorizes it and its amount is positive and at most the ceiling |
| ReleaseSimulation.RunReleaseExact | src/withdrawal_recovery_model.py:229-250 | so in every active state of every run, over the books that the model's own run of it leaves |
| SimulationRuns.RunSimulates | src/withdrawal_recovery_model.py:88-250 | over any run the model, registered with the same terms, accepts every matching call and ends in books that list exactly the keys, proposals and approvals on chain |
| HistoryModel.RegisterExactly | src/withdrawal_recovery_model.py:88-105 | the model registers exactly when both keys consent and each role has three different guardians, none of them its own key or the default |
| SubmissionModel.RunProjects | src/submission_window_model.py:87-138 | dropping the admissions of any run leaves a run of the history-list model with the same states |
| SubmissionModel.PendingHasItsAdmission | src/submission_window_model.py:108-123 | after any run each pending proposal has exactly one fitting admission, with full notice from acceptance, and its seal alone passes every consistency check |
| SubmissionModel.NeverAlreadyUsed | src/submission_window_model.py:99-105 | a submission whose proposal the model accepts is never refused as already used |
| SubmissionModel.PreparedIsAccepted | src/submission_window_model.py:78-105 | a prepared intent that its signers sealed, handed in on time, is refused only by the model underneath |
| SubmissionModel.SubmitExactly | src/submission_window_model.py:87-105 | after any run a submission succeeds exactly when it is addressed to this policy by its current key, inside its window of at most 300 seconds, every attestation seals exactly this intent, and the model underneath accepts the proposal from those who attested |
| SubmissionModel.SubmittedWasPrepared | src/submission_window_model.py:78-105 | whatever is submitted is exactly what preparing it gives |
| SubmissionModel.EndExactly | src/submission_window_model.py:108-138 | after any run the seal of the pending proposal's own admission executes, cancels or expires it exactly when the model underneath does, and any other seal does nothing |
| FirstCome.SharedIsSum | programs/launch-vault-v2/src/lib.rs:203-389 | over any reports and releases the shared counter is the sum of both vaults' use of the current period, despite separate lazy resets |
| FirstCome.FirstComeStarves | programs/launch-vault-v2/src/lib.rs:353-369 | in a new period either pool can take all the shared capacity, after which the other pool's smallest release, accepted on its own, is refused |
| FirstCome.PayExactly | programs/launch-vault-v2/src/lib.rs:265-389 | a sound policy whose accounts are present pays exactly when it is active, its authority signs, the pool's own consent is there and the kernel draws; the final transfer never refuses |
| FirstCome.ReportExactly | programs/launch-vault-v2/src/lib.rs:203-229 | a report is taken exactly when its sequence is higher, it was observed no earlier than the last, in the period of now and within the maximum age |
| FirstCome.ReleaseExactly | programs/launch-vault-v2/src/lib.rs:280-369 | the kernel draws exactly under a fresh report of the period, after the cliff for the founder, within the pool's principal and period cap, and with both pools' use of the period within the hard cap and the reported capacity |
| FirstCome.PaymentExactly | programs/launch-vault-v2/src/lib.rs:265-389 | a sound policy pays exactly when it is active and started, the pool's own authority signs, the destination is the founder's own or the one that the period's approval names under its owner, a full period after the approval and within its need, and the kernel draws as above |
| FirstCome.PayKeeps | programs/launch-vault-v2/src/lib.rs:265-389 | a release keeps the counters' agreement, both vaults' custody, every approval within its need, and the token supply |
| FirstComeOrder.BatchExact | programs/launch-vault-v2/src/lib.rs:280-369 | at the kernel, a batch of releases of one period under one report, in whatever order and split, succeeds exactly when each pool's sum fits its own cap, principal and cliff, and both together fit what is left of the shared window; the two sums determine what it leaves |
| FirstComeOrder.NoStarvationExactly | programs/launch-vault-v2/src/lib.rs:353-369 | at the kernel, every such batch succeeds exactly when each pool's part does alone, if and only if one pool has no room or both rooms together fit what is left of the shared window |
| FirstComePayments.PayBatchExact | programs/launch-vault-v2/src/lib.rs:265-389 | a batch of whole releases of one period under one report is paid exactly when the sums fit as above and the treasury's is within its approval |
| FirstComePayments.PaymentsNeverStarveExactly | programs/launch-vault-v2/src/lib.rs:265-389 | where a release of each pool is offered, neither pool can starve the other if and only if one of them has no room, or both rooms, the treasury's within its approval, fit what is left of the shared window |
| FirstComePayments.PaidFirstStarves | programs/launch-vault-v2/src/lib.rs:353-369 | after one pool has been paid the whole shared capacity, no sequence of releases in that period, before the next report, pays anything or changes any account |
| FirstComePayments.ExhaustedStarves | programs/launch-vault-v2/src/lib.rs:353-369 | once a batch has been paid all that is left of the shared window, no sequence of releases of either pool in that period, before the next report, pays anything or changes any account |
| FirstComePayments.ReportReopens | programs/launch-vault-v2/src/lib.rs:203-229 | a later report of the period sets what is left of the shared window from its own capacity and leaves both rooms as they are |
| StarvedVault.FounderStarves | programs/launch-vault-v2/src/lib.rs:353-369 | a policy whose two pools' releases are each paid alone and refused together: the condition fails there |
| StarvedVault.HigherReportEndsIt | programs/launch-vault-v2/src/lib.rs:203-229 | in that policy, after the founder's release, the treasury's is refused until a second, higher report of the period, and paid from then on |
| FirstCome.Accounts.Process | programs/launch-vault-v2/src/lib.rs:265-389 | the whole release run in place, undone on refusal, is the specified release with its lifecycle, authority, consent, counters and transfer, and keeps the policy sound |
| FirstComeRuns.DrawnIsFirstCome | programs/launch-vault-v2/src/lib.rs:280-369 | what the reserved-quota kernel draws is a first-come release with the same counters |
| FirstComeRuns.RunMatches | programs/launch-vault-v2/src/lib.rs:203-389 | the first-come kernel accepts the reports and releases of any run of the later vault, with equal shared and per-vault counters |
| Journal.HeadDetermines | src/soak_journal.py:200-269 | with a digest that never collides and never gives the zero head, two files that replay to one head hold the same records |
| Journal.ReplayCounts | src/soak_journal.py:212-247 | every session is started once, and is stopped, active, or counted unclosed; all counters count their records |
| Journal.ReplayContinues | src/soak_journal.py:166-172 | along any file released totals and counts never fall, external accounts and approval periods are never dropped, and anomalies are never cleared |
| Journal.Log.Accept | src/soak_journal.py:200-269 | accepting a record in place is the specified step, or a refusal |
| Journal.Log.Open | src/soak_journal.py:135-164 | loading succeeds exactly when the declaration is for this code with a known origin and a sensible time policy, no line exceeds the limit, and the file replays to the expected head; it then remembers exactly that replay |
| Journal.RemarksAreFree | src/soak_journal.py:174-198 | whether a sample is accepted does not depend on what its provenance says beyond the verified fields |
| Journal.AnySampleCanLock | src/soak_journal.py:271-289 | wherever a sample can be appended, so can one whose line exceeds the limit, after which the file is never opened again |
| Journal.LockOut | src/soak_journal.py:271-289 | a fresh journal commits a start and a sample with long remarks, and loading then refuses its file |
| Journal.ReopensExactly | src/soak_journal.py:271-289 | whatever was appended, an opened file opens again exactly when every appended line is within the limit |
| Journal.Log.Append | src/soak_journal.py:271-289 | the live state always equals a replay of the file; a refused event changes nothing, and a failed write ends all writing |
| JournalFacts.ReplayExactly | src/soak_journal.py:200-269 | a file replays exactly when each record fits: it continues the chain under well-formed names and stamps, a start names a new session, any other record the open one, and a sample unpacks, keeps the run's identity and drops or turns back nothing of the sample before it |
| JournalFacts.OpensExactly | src/soak_journal.py:135-164 | a stored file opens exactly when it was declared for this code, with a known origin and a sensible time policy, no line is longer than four million bytes, and each of its records fits |
| JournalFacts.AnomaliesExactly | src/soak_journal.py:218-265 | for every replayable file and each of the seven anomalies, it is noted if and only if some record raises it against the record before it, or some sample against the sample before it, in the relation of slots, bank times, wall times, boots or monotonic times that names it, in nanoseconds |
| JournalFacts.LargestGapExactly | src/soak_journal.py:218-220 | the largest gap on record is the largest wall time between two consecutive samples, or none |
| Base58.RecodeInverse | src/beneficiary_vault_verifier.py:50-70 | changing base and back is the identity on digits, leading zeros included |
| Base58.ShortestBytes | src/beneficiary_vault_verifier.py:61-61 | the byte count taken from the bit length is exactly that of the shortest bytes |
| Base58.AlphabetIndex | src/beneficiary_vault_verifier.py:34-34 | the digit of a character is its index in the alphabet, in which none repeats |
| Base58.Decode | src/beneficiary_vault_verifier.py:50-61 | the decoding loop computes the specified decoding, refusals included |
| Base58.Encode | src/beneficiary_vault_verifier.py:64-70 | the encoding loop computes the specified encoding |
| Base58.DecodeEncode | src/beneficiary_vault_verifier.py:50-70 | decoding an encoding gives the same non-empty bytes |
| Base58.EncodeDecode | src/launch_v7_verifier.py:45-47 | encoding a decoding gives the same text, so the canonical-key comparison holds after every successful decode |

## Findings

- The verifier refuses some policies that the program itself makes. It requires one depositor for both pools and one
  recipient for all approvals (src/launch_v7_verifier.py:300 and :326), but the program lets any key deposit each pool
  and approves a recipient per period. Both conditions can be checked before a deposit or an approval is signed.
  `Acceptance.ReachableVerifies` proves them, with what the named accounts hold, necessary and sufficient.
- Input for the first: key 14 deposits the founder's pool and moves its other tokens to key 15, which deposits the
  treasury's; the policy is armed and activated (`Witness.TwoDepositorsRefused`).
- Input for the second: after an accepted run, the treasury approves a recipient for period 8 other than that of
  period 6 (`Witness.TwoRecipientsRefused`).
- The verifier also refuses a policy while any token of its mint lies in an account that the snapshot cannot name:
  a snapshot shows the two vaults, one source, one destination and at most eight accounts of the founder's
  (`Snapshot.ConservedExactly`). Input: after an accepted run the depositor moves its last token to a wallet of
  another key (`Witness.DustRefused`).
- The verifier's checks fall short of the vault's invariant by five facts (`Soundness.Unchecked`): that the start is not
  before time zero, that the first oracle was a key, that what a pool released keeps within both rules' entitlements,
  that no record indexes the default key, and that every approved period ends within 64-bit time. Admission and the
  program establish them in every run (`Soundness.ChecksExactly`); the reported ceilings are exact without the last four
  (`Soundness.AcceptedCeilings`).
- The journal does not measure a line before it appends it, and refuses a line longer than the limit on loading.
  Provenance may carry more than its verified fields, so wherever a sample can be appended directly, one can be
  appended that locks the file for good (`Journal.AnySampleCanLock`). Input: a start, then a sample with four million
  and one characters of remarks (`Journal.LockOut`). The observer's own samples carry only the exporter's fields. A
  file opens again exactly when every appended line is within the limit (`Journal.ReopensExactly`).
- In the earlier first-come vault one pool can starve the other within a period, under one report. It cannot if and
  only if one pool has no room, or both rooms together fit what is left of the shared window
  (`FirstComePayments.PaymentsNeverStarveExactly`). Input: caps of 100 each, a report of 50, the founder draws 50 and
  the treasury's 40 is refused (`StarvedVault.FounderStarves`), until a higher report of the same period
  (`StarvedVault.HigherReportEndsIt`). In the vault with reserved quotas, outside a correction pause, no pool starves
  the other (`ReleaseOrder.NoPoolStarves`).

## Left out

- Hashes, derived addresses and account bytes: the policy identity is its terms, digests are opaque and injective, and account layouts, discriminators and the snapshot reader are not modelled.
- Clock: Unix time is taken to be non-negative; the program itself only requires that it never falls.
- Program.Accounts.Process: the mint's authorities and the token accounts' freeze, delegate and close fields are constants of an admitted mint, because its authorities are gone; the rollback of a refused instruction, done by the runtime, is written out as restoring a snapshot.
- Preservation.RunKeeps: holders can also burn tokens, which lowers the mint's supply, and close empty accounts; neither is an event of these runs, so the supply is constant in them.
- Program.Accounts.Deposit: a new vault's token account starts empty, as its create-once address requires.
- Program.Accounts.Authorize: an approval or recipient record of another policy is refused as a missing account rather than as an invalid approval.
- Acceptance.Verify: the snapshot's schema, scope and clock text, its account owners and layouts, and the delegate, close and state fields of token accounts are not modelled.
- Acceptance.AccountingReachable: leaves the checks of the named token accounts (lines 292-300, 319 and 322-327) to `Snapshot.NamesExactly`, because they are not true of every reachable state.
- Review.VerifyLane: enumeration ranges and account bindings hold by the types of the stored records.
- Simulation.ReleaseSimulates: the model's approvals never record what was consumed, so the need is not part of the match; `Launch.SpendApproval` keeps it.
- SubmissionModel.RunProjects: texts of programs, policies and identities are opaque numbers, and their well-formedness is not modelled.
- FirstCome.Accounts.Process: both vaults exist, as they do in every active policy; a release that names a vault never made is refused by its account.
- FirstComeRuns.RunMatches: relates the two capacity kernels; the first-come vault's own approvals, destinations and lifecycle are in `FirstCome.Pay`.
- Journal.Log.Append: files, locks and clocks are not modelled; a write either succeeds whole or fails, and the stored objects and graph of a sample are one opaque function of its content key. Seconds are real numbers.
- Journal.Log.Open: the length of a record's line is an opaque function of the record, at least as long as a sample's remarks where that matters, and so is the rule for a valid manifest; the bound on the declaration's own file and on stored objects is not modelled.
- Preparation: an immutable preparation is checked when it is confirmed, which repeats every check made when it was recorded.
- Exporters, clients, servers, examples and build tools; vaults v3 to v6, which share the kernel text of v7; the two beneficiary vault programs; the single-step purpose-bound vault.
