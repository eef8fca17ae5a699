# stellar-market contracts: a Dafny model

This project models the three smart contracts of the stellar-market freelance
marketplace. They run on Soroban, the Stellar smart-contract platform.

- **The Job Ledger** (`contracts/escrow`). A client creates a job made of
  milestones and funds the whole budget into the ledger's custody. The
  freelancer submits milestones and the client approves them, one at a time or
  in a batch. Each approval pays the milestone to the freelancer, less a fee of
  at most 10% that goes to the treasury. The client can cancel a job, or claim
  a refund after the deadline plus a grace period. A dispute settlement
  divides what is left of a job according to a four-way outcome. Either party
  may propose a revision of a job's milestones, which the other party accepts
  or rejects.
- **The Dispute Registry** (`contracts/dispute`). A dispute escrows a fee and
  a penalty stake, then collects votes from third parties, each voter voting
  once. It is resolved once a quorum is reached; the quorum doubles with every
  appeal. The loser may appeal within a window. The final round asks the Job
  Ledger to settle the job. The stake is slashed or returned according to the
  share of votes against the initiator. Winning voters may claim a share of
  the fee.
- **The reputation aggregator** (`contracts/reputation`). It stores
  stake-weighted reviews between the two parties of a completed job. It
  computes a time-decayed weighted average in hundredths of a star, maps that
  average to a tier, and awards tier badges that are only ever added.

Modules:

| module | file | holds |
|---|---|---|
| `Token` | `token.dfy` | A balance table for the single payment asset. Accounts are a user, the escrow custody, the registry custody and the treasury. |
| `Arith` | `arith.dfy` | Small arithmetic lemmas, and `Repeated`: a sum of `n` equal shares. |
| `Outcomes` | `outcomes.dfy` | The `Option` and `Result` datatypes. |
| `EscrowSpec` | `escrow_spec.dfy` | Jobs and milestones as values. The sums over milestones, the fee and the settlement split. `Held`: what custody owes one job. |
| `Escrow` | `escrow.dfy` | The class `EscrowLedger` with the corrected checks, plus its loops as methods. |
| `EscrowAsWritten` | `escrow_as_written.dfy` | The escrow checks exactly as the contract states them, and the inputs on which they lose money. |
| `DisputeSpec` | `dispute_spec.dfy` | Tallies, the quorum, the threshold, the stake and fee transfers, and reward shares. |
| `DisputeRegistry` | `dispute.dfy` | The class `Registry` and its per-dispute bookkeeping invariant. |
| `DisputeAsWritten` | `dispute_as_written.dfy` | The final-round settlement call as the registry makes it, and why it never succeeds. |
| `ReputationSpec` | `reputation_spec.dfy` | Stored weights, the decayed weight, the average, tiers and badges. |
| `Reputation` | `reputation.dfy` | The class `ReputationRegistry`. |

**Invariants the classes keep.**

- The Job Ledger keeps *custody conservation*. The custody account's balance
  equals the sum over all jobs of what each job still holds. A funded or
  in-progress job holds `total_amount − Σ(approved amounts)`; any other job
  holds nothing. Every operation preserves this. The code as written breaks it
  in seven ways, listed under Findings. The ledger models the corrected checks,
  and `EscrowAsWritten` exhibits each break on a concrete input.
- The Dispute Registry keeps the following for each dispute:
  - the tallies equal the counts of its recorded votes;
  - its voters are distinct and flagged as having voted;
  - a resolved status agrees with the tallies;
  - each round's rewards go to distinct winning voters and add up to at most
    the fee;
  - all rounds together pay at most one fee per round.
- The reputation aggregator keeps each user's counters equal to the sums over
  the reviews they received. Every stored rating is from 1 to 5, every stored
  review is flagged, and no badge is held twice.

## Model

Source paths are relative to the repository root.

| member | source | states |
|---|---|---|
| `EscrowSpec.HeldNonNegative` | contracts/escrow/src/lib.rs:815-825 | For a well-formed job (total = Σ amounts, all amounts positive), the refundable remainder `total − Σ approved` is never negative. |
| `EscrowSpec.ApprovedSumBounds` | contracts/escrow/src/lib.rs:815-825 | With positive amounts, `0 ≤ Σ approved ≤ total`, and a job with milestones has a positive total. |
| `EscrowSpec.AllApprovedSum` | contracts/escrow/src/lib.rs:600-606 | When every milestone is Approved, everything has been paid out: Σ approved = Σ amounts. |
| `EscrowSpec.NoneApprovedSum` | contracts/escrow/src/lib.rs:311-318 | A job whose milestones are all Pending has paid nothing out. |
| `EscrowSpec.HeldSumUpdate` | contracts/escrow/src/lib.rs:859 | Replacing one job changes the custody owed to all jobs by exactly the change in that job's holding. |
| `EscrowSpec.HeldSumAppend` | contracts/escrow/src/lib.rs:321-333 | A new job adds exactly its own holding to the custody owed. |
| `EscrowSpec.FirstSpecError` | contracts/escrow/src/lib.rs:303-310 | A job request is accepted iff every milestone is due in `(now, job_deadline]` and has a positive amount. |
| `EscrowSpec.FirstSpecErrorPrefix` | contracts/escrow/src/lib.rs:303-310 | The first refused milestone decides the error; later milestones do not change it. |
| `EscrowSpec.NewMilestones` | contracts/escrow/src/lib.rs:311-318 | Milestone `i` of a new job has id `i`, the requested amount and deadline, and status Pending. |
| `EscrowSpec.NewMilestonesSum` | contracts/escrow/src/lib.rs:311-326 | The job total is the sum of the requested amounts. |
| `EscrowSpec.NewMilestonesAccepted` | contracts/escrow/src/lib.rs:300-330 | An accepted request yields positive amounts, nothing approved, and total = Σ amounts. |
| `EscrowSpec.TruncDiv` | contracts/escrow/src/lib.rs:571 | Integer division as the contract computes it, rounding toward zero for negative amounts as well. |
| `EscrowSpec.FeeAtMostTenPercent` | contracts/escrow/src/lib.rs:571-572 | With `fee_bps ≤ 1000` the fee is between 0 and a tenth of the amount, and fee + freelancer amount = amount. |
| `EscrowSpec.Released` | contracts/escrow/src/lib.rs:562-590 | Releasing `amount` takes exactly `amount` out of custody, gives the fee to the treasury and the rest to the freelancer, and touches no other account. |
| `EscrowSpec.ApprovalReleases` | contracts/escrow/src/lib.rs:586-606 | Approving milestones worth `released` lowers an active job's holding by exactly `released` and keeps the job well formed. |
| `EscrowSpec.ApprovedSumUpdate` | contracts/escrow/src/lib.rs:590-598 | Changing one milestone changes the approved total by the difference of its contributions. |
| `EscrowSpec.AmountSumUpdate` | contracts/escrow/src/lib.rs:590-598 | Changing one milestone changes the total of amounts by the difference of its amounts. |
| `EscrowSpec.BatchError` | contracts/escrow/src/lib.rs:647-657 | The batch validation accepts iff every index exists, names a Submitted milestone, and appears only once. |
| `EscrowSpec.BatchErrorPrefix` | contracts/escrow/src/lib.rs:647-657 | The first bad index decides the batch's error. |
| `EscrowSpec.ApplyBatchAt` | contracts/escrow/src/lib.rs:659-674 | After the batch, a listed milestone is Approved and any other milestone is unchanged. |
| `EscrowSpec.BatchApprovedSum` | contracts/escrow/src/lib.rs:659-674 | For distinct Submitted indices, the batch raises the approved total by exactly the sum of the listed amounts. |
| `EscrowSpec.ApplyBatchKeepsAmounts` | contracts/escrow/src/lib.rs:662-672 | A batch changes statuses only: the total of amounts and their positivity are kept. |
| `EscrowSpec.IndexedSumPositive` | contracts/escrow/src/lib.rs:664-676 | With positive amounts, the released sum is positive iff the index list is non-empty. |
| `EscrowSpec.SettlementPayouts` | contracts/escrow/src/lib.rs:420-463 | The settlement split. ClientWins pays all to the client; FreelancerWins pays all to the freelancer; RefundBoth pays `⌊rem/2⌋` and the rest; Escalate or a non-positive remainder pays nothing. Apart from those two cases, the payouts add up to the remainder. |
| `EscrowSpec.ProposalError` | contracts/escrow/src/lib.rs:917-931 | A proposed list is accepted iff it is non-empty, its total is positive and every amount is positive; an accepted list makes a well-formed proposal. |
| `EscrowSpec.SettledBalances` | contracts/escrow/src/lib.rs:420-446 | The settlement takes exactly the two payouts out of custody. The client's share goes to the client and the freelancer's to the freelancer. The registry's custody, the treasury and every other user are untouched. |
| `EscrowSpec.SettlementConserves` | contracts/escrow/src/lib.rs:411-463 | Settling an active job pays out exactly what the job held. |
| `Escrow.ValidateBatch` | contracts/escrow/src/lib.rs:647-657 | The scan over the indices returns exactly `BatchError`. |
| `Escrow.ApproveListed` | contracts/escrow/src/lib.rs:659-674 | The loop approves the listed milestones (`ApplyBatch`) and sums their amounts (`IndexedSum`). |
| `Escrow.BuildMilestones` | contracts/escrow/src/lib.rs:300-319 | The loop returns the first milestone error, or else the milestones `NewMilestones(specs)` and their total. |
| `Escrow.EscrowLedger.Initialize` | contracts/escrow/src/lib.rs:186-208 | The error order is AlreadyInitialized, then a fee above 1000 bps refused with InvalidStatus. On success it stores the admin and the fee and unpauses. Custody conservation is kept. |
| `Escrow.EscrowLedger.Pause` | contracts/escrow/src/lib.rs:211-225 | Only the stored admin may pause (NotAdmin otherwise). Nothing else changes. |
| `Escrow.EscrowLedger.Unpause` | contracts/escrow/src/lib.rs:228-242 | Only the stored admin may unpause (NotAdmin otherwise). Nothing else changes. |
| `Escrow.EscrowLedger.SetFeeBps` | contracts/escrow/src/lib.rs:245-259 | It needs a configured admin and refuses a fee above 1000 bps with InvalidStatus, so the stored fee never exceeds 10%. |
| `Escrow.EscrowLedger.CreateJob` | contracts/escrow/src/lib.rs:277-347 | Errors, in order: ContractPaused, InvalidDeadline for the job deadline, then the first milestone error. On success the next id holds a Created job whose total is the sum of the amounts and whose milestones are Pending with ids `0..n-1`. No money moves. |
| `Escrow.EscrowLedger.FundJob` | contracts/escrow/src/lib.rs:350-382 | Errors, in order: ContractPaused, JobNotFound, Unauthorized for anyone but the client, AlreadyFunded unless Created. On success it moves exactly `total_amount` from the client into custody and marks the job Funded. |
| `Escrow.EscrowLedger.SubmitMilestone` | contracts/escrow/src/lib.rs:476-529 | It requires the freelancer, an active job, a Pending or InProgress milestone and `now ≤ deadline`, and an overdue milestone is always refused. Only that milestone changes, to Submitted, and the job becomes InProgress. |
| `Escrow.EscrowLedger.ApproveMilestone` | contracts/escrow/src/lib.rs:532-618 | For the client of an active job and a Submitted milestone, it releases exactly that milestone's amount, with the fee split as in `Released`. The milestone becomes Approved, and the job becomes Completed iff all milestones are Approved. Custody conservation is kept. |
| `Escrow.EscrowLedger.CommitBatch` | contracts/escrow/src/lib.rs:659-727 | Approves distinct Submitted indices and releases their sum (positive iff the list is non-empty). It raises the approved total by that sum and keeps custody conservation. |
| `Escrow.EscrowLedger.ApproveMilestonesBatch` | contracts/escrow/src/lib.rs:623-727 | All or nothing. On any error (paused, missing job, wrong caller, inactive job, bad or repeated index; the inactive-job and repeated-index refusals are corrections listed under Findings) neither the job nor any balance changes. On success it returns the sum of the listed amounts, which is also what leaves custody. |
| `Escrow.EscrowLedger.CancelJob` | contracts/escrow/src/lib.rs:730-774 | Refuses Completed and Cancelled jobs. The client receives exactly what the job held: `total − Σ approved` from an active job, nothing from a Created job. The job becomes Cancelled. |
| `Escrow.EscrowLedger.ClaimRefund` | contracts/escrow/src/lib.rs:779-842 | Errors, in order: Unauthorized, InvalidStatus, GracePeriodNotMet (`now < deadline + grace`), HasPendingMilestone, NoRefundDue. On success it refunds `total − Σ approved` to the client and cancels the job. |
| `Escrow.EscrowLedger.CallbackError` | contracts/escrow/src/lib.rs:387-405 | The callback is refused iff the ledger is paused, the job is missing, or the job is Created, Completed or Cancelled. |
| `Escrow.EscrowLedger.Settle` | contracts/escrow/src/lib.rs:411-463 | Moves the settlement payouts out of custody and applies the outcome's status. Custody conservation is kept. |
| `Escrow.EscrowLedger.ResolveDisputeCallback` | contracts/escrow/src/lib.rs:387-473 | Any refusal leaves everything unchanged. Otherwise the job gets the outcome's status and the payouts of `SettlementPayouts(remaining, outcome)` leave custody. |
| `Escrow.EscrowLedger.IsMilestoneOverdue` | contracts/escrow/src/lib.rs:1163-1174 | True iff the job and milestone exist and the milestone's deadline is before `now`. |
| `Escrow.EscrowLedger.ExtendDeadline` | contracts/escrow/src/lib.rs:1177-1210 | It refuses a new deadline that is not in the future. Only that milestone's deadline changes, and afterwards the milestone is not overdue. |
| `Escrow.EscrowLedger.ProposeRevision` | contracts/escrow/src/lib.rs:885-959 | Only a party may propose, only one proposal may be Pending, and the list must be non-empty with a positive total (`ProposalTotalMismatch`). Every milestone amount must also be positive (`InvalidAmount`, a correction listed under Findings). The proposal stores the list's sum as its total, and the job is untouched. |
| `Escrow.EscrowLedger.ApplyRevision` | contracts/escrow/src/lib.rs:1016-1057 | Replaces the milestones and the total, moves exactly `new_total − old_total` between the client and custody, and marks the proposal Accepted. Custody conservation is kept. |
| `Escrow.EscrowLedger.AcceptRevision` | contracts/escrow/src/lib.rs:989-1066 | Only the non-proposing party may accept a Pending proposal, and only for an active job whose paid-out amount the proposal keeps. The effect is `ApplyRevision`'s. |
| `Escrow.EscrowLedger.RejectRevision` | contracts/escrow/src/lib.rs:1087-1128 | Only the non-proposing party may reject a Pending proposal. Only the proposal's status changes. |
| `EscrowAsWritten.SpecErrorAsWritten` | contracts/escrow/src/lib.rs:303-310 | As written, a milestone is refused iff its deadline is outside `(now, job_deadline]`; its amount is not checked. |
| `EscrowAsWritten.ProposalErrorAsWritten` | contracts/escrow/src/lib.rs:917-931 | As written, a proposed list is refused iff it is empty or its total is not positive; single amounts are not checked. |
| `EscrowAsWritten.BatchErrorAsWritten` | contracts/escrow/src/lib.rs:647-657 | As written, the batch passes iff each index passes on its own; repeats are not checked. |
| `EscrowAsWritten.BatchPaidOut` | contracts/escrow/src/lib.rs:664-700 | As written, the batch releases the summed amounts when the sum is positive, and nothing otherwise. |
| `EscrowAsWritten.ApproveErrorAsWritten` | contracts/escrow/src/lib.rs:536-559 | As written, approval needs only the client, an existing milestone and Submitted; the job's status is not checked. |
| `EscrowAsWritten.SettlementPayoutsAsWritten` | contracts/escrow/src/lib.rs:431-443 | As written, the split differs from the corrected one only for RefundBoth with one unit remaining. |
| `EscrowAsWritten.AcceptRevisionAsWritten` | contracts/escrow/src/lib.rs:1016-1047 | As written, the moved delta matches the change in holding only for an active job whose paid-out amount the proposal keeps. A job that is not active holds nothing either way. |
| `EscrowAsWritten.DuplicateIndexPaidTwice` | contracts/escrow/src/lib.rs:647-674 | Counterexample: `[0, 0]` passes validation and releases 200 from a job holding 100. |
| `EscrowAsWritten.RefundBothStrandsOneUnit` | contracts/escrow/src/lib.rs:431-443 | Counterexample: RefundBoth with one unit remaining pays nobody, yet the job is Cancelled and no longer holds the unit. |
| `EscrowAsWritten.ApproveAfterCancelPays` | contracts/escrow/src/lib.rs:536-606 | Counterexample: a Submitted milestone of a cancelled job passes the approval checks. The release takes 100 out of escrow custody, although the job held nothing before and holds nothing after. |
| `EscrowAsWritten.BatchAfterCancelPays` | contracts/escrow/src/lib.rs:639-700 | Counterexample: index `[0]` of a cancelled job's Submitted milestone of 100 passes the batch checks and takes 100 out of escrow custody, although the job holds nothing before and after. |
| `EscrowAsWritten.RevisionOfCancelledJobRefunds` | contracts/escrow/src/lib.rs:1016-1047 | Counterexample: accepting a lower budget on a cancelled job refunds 60 that the job does not hold. |
| `EscrowAsWritten.NegativeAmountInflatesHolding` | contracts/escrow/src/lib.rs:303-318 | Counterexample: a milestone of −3 is accepted; approving it moves nothing but raises the job's holding by 3. |
| `EscrowAsWritten.NegativeProposalInflatesHolding` | contracts/escrow/src/lib.rs:917-931 | Counterexample: the proposal `[10, −3]` totals 7 and is accepted on a job of 7 at no cost. Approving the −3 then moves nothing but raises the job's holding to 10. The corrected check refuses the list with InvalidAmount. |
| `DisputeSpec.TalliesCoverVotes` | contracts/dispute/src/lib.rs:349-352 | Every vote is for one side: the two tallies add up to the number of votes. |
| `DisputeSpec.VotersWithLast` | contracts/dispute/src/lib.rs:338-343 | Appending a vote adds its voter to the voters of the chosen side, and to no other side. |
| `DisputeSpec.LastVoterIsNew` | contracts/dispute/src/lib.rs:325-328 | With the voted flag, the latest voter did not vote earlier. |
| `DisputeSpec.TallyCountsVoters` | contracts/dispute/src/lib.rs:325-352 | With distinct voters, a side's tally equals the number of distinct addresses that voted for it. |
| `DisputeSpec.QuorumDoubles` | contracts/dispute/src/lib.rs:394 | The quorum `min_votes·2^appeals` doubles with each appeal and is never below `min_votes`. |
| `DisputeSpec.StakeRecipient` | contracts/dispute/src/lib.rs:459-491 | Below the threshold, the stake returns to the initiator. Above it, it goes to the winner, and at FinalResolution that is always the freelancer. |
| `DisputeSpec.FeeRecipient` | contracts/dispute/src/lib.rs:436-448 | The fee goes to the client exactly when the client wins the vote (or is also the freelancer). |
| `DisputeSpec.ResolutionTransfers` | contracts/dispute/src/lib.rs:436-493 | The registry's custody pays out the fee (when malicious and positive) to the vote's winner, and a positive stake to `StakeRecipient`. No other user, nor the escrow custody or the treasury, is touched. |
| `DisputeSpec.RoundRewardsWithinFee` | contracts/dispute/src/lib.rs:661-671 | However many distinct winning voters of one round claim `fee / winning_count`, their rewards add up to at most the fee. |
| `DisputeRegistry.ResolvedStatus` | contracts/dispute/src/lib.rs:400-413 | The result is FinalResolution iff `appeal_count ≥ max_appeals`; otherwise it is ResolvedForClient iff `for_client ≥ for_freelancer` (a tie goes to the client). |
| `DisputeRegistry.Tallied` | contracts/dispute/src/lib.rs:349-354 | A vote raises exactly the chosen tally by one, leaves the other tally, and sets Voting. |
| `DisputeRegistry.HasVoteFor` | contracts/dispute/src/lib.rs:649-655 | The scan finds the voter iff they voted for the given side. |
| `DisputeRegistry.ResolutionKeepsWinner` | contracts/dispute/src/lib.rs:638-647 | Re-resolving with the same tallies keeps the winning side, the reward share and the fee cap. |
| `DisputeRegistry.NewEntryOk` | contracts/dispute/src/lib.rs:255-275 | A newly raised dispute satisfies the per-dispute invariant. |
| `DisputeRegistry.VoteKeepsEntry` | contracts/dispute/src/lib.rs:325-358 | A vote by an unflagged voter keeps the per-dispute invariant and flags the voter. |
| `DisputeRegistry.ResolveKeepsEntry` | contracts/dispute/src/lib.rs:387-421 | Resolution keeps the per-dispute invariant. |
| `DisputeRegistry.AppealKeepsEntry` | contracts/dispute/src/lib.rs:566-575 | An appeal keeps the invariant: the round's claims restart while all earlier payments stay counted. |
| `DisputeRegistry.ClaimKeepsEntry` | contracts/dispute/src/lib.rs:626-681 | Paying one more distinct winning voter keeps the invariant, including the round's rewards staying within the fee. |
| `DisputeRegistry.Registry.Initialize` | contracts/dispute/src/lib.rs:142-152 | A second initialisation fails with AlreadyConfigured. On success it stores the admin and the threshold. |
| `DisputeRegistry.Registry.SetMaliciousThreshold` | contracts/dispute/src/lib.rs:155-166 | It needs a configured admin and replaces only the threshold. |
| `DisputeRegistry.Registry.SetAdmin` | contracts/dispute/src/lib.rs:169-180 | It needs a configured admin and replaces only the admin. |
| `DisputeRegistry.Registry.IsMaliciousDispute` | contracts/dispute/src/lib.rs:183-215 | A missing dispute gives DisputeNotFound. Otherwise the result is true iff the dispute is ResolvedFor* and more than `threshold`% of its votes are against the initiator. |
| `DisputeRegistry.Registry.RaiseDispute` | contracts/dispute/src/lib.rs:219-293 | It refuses an initiator who is neither party (InvalidParty). Otherwise it stores an Open dispute with zero tallies, `min_votes` floored at 3, no appeals and at most 2 appeals, and escrows the fee and the stake when each is positive. |
| `DisputeRegistry.Registry.RecordVote` | contracts/dispute/src/lib.rs:330-358 | It appends the vote, tallies it, sets the voter's flag, and keeps the registry invariant. The round's claimers and all reward payouts are unchanged. |
| `DisputeRegistry.Registry.CastVote` | contracts/dispute/src/lib.rs:296-369 | Errors, in order: DisputeNotFound, VotingClosed outside Open/Voting/Appealed, InvalidParty for either party, AlreadyVoted. On success it appends one vote, raises exactly one tally and sets Voting. Reward bookkeeping is unchanged. |
| `DisputeRegistry.Registry.PayResolution` | contracts/dispute/src/lib.rs:436-493 | It performs exactly the transfers of `ResolutionTransfers`. |
| `DisputeRegistry.Registry.RecordResolution` | contracts/dispute/src/lib.rs:405-493 | It stores the new status, times and malicious flag, and makes the fee and stake transfers. |
| `DisputeAsWritten.DecodeOutcome` | contracts/escrow/src/lib.rs:387-391 | The callback's `resolution` argument converts iff it is a value of the outcome enumeration, and then to that value. |
| `DisputeAsWritten.CallbackArgAsWritten` | contracts/dispute/src/lib.rs:423-431 | As written, the registry passes a boolean, true iff the client wins the vote. |
| `DisputeAsWritten.ResolveAsWritten` | contracts/dispute/src/lib.rs:374-432 | As written, resolution traps exactly when the final round has its quorum; otherwise its result is the corrected `ResolvedAs`. |
| `DisputeAsWritten.FinalRoundAlwaysReverts` | contracts/dispute/src/lib.rs:423-431 | Counterexample for every final round with its quorum: the boolean does not convert and the call reverts, while `Outcome(d)` converts and gives the corrected result. |
| `DisputeRegistry.Registry.ResolveFinal` | contracts/dispute/src/lib.rs:403-432 | The final round settles the job in the escrow, with ClientWins iff the client won the vote. This passes the outcome where the code passes a boolean, a correction listed under Findings. If the escrow refuses, nothing changes anywhere. |
| `DisputeRegistry.Registry.ResolveAt` | contracts/dispute/src/lib.rs:387-499 | Error order and effects of resolution for a stored dispute, as in `ResolveDispute`. |
| `DisputeRegistry.ResolvedAs` | contracts/dispute/src/lib.rs:387-434 | The result of resolution: AlreadyResolved, NotEnoughVotes below `min_votes·2^appeals`, the escrow's refusal in the final round, or the new status. |
| `DisputeRegistry.Registry.ResolveDispute` | contracts/dispute/src/lib.rs:374-514 | The result is `ResolvedAs`. On success it sets `appeal_deadline = sequence + 100`. Only the final round touches the escrow, where the job is settled and the payouts leave escrow custody. Fee and stake go as in `ResolutionTransfers`. On error nothing changes. |
| `DisputeRegistry.Registry.RaiseAppeal` | contracts/dispute/src/lib.rs:517-589 | Errors, in order: MaxAppealsReached, CannotAppealBeforeResolution, MaxAppealsReached for FinalResolution, AppealWindowExpired, NotLosingParty. On success the appeal count rises by one, the dispute is Appealed with zero tallies and no votes, the quorum doubles, and earlier voters stay flagged. The new round has no claimers and has paid nothing. What earlier rounds paid is kept. |
| `DisputeRegistry.Registry.Claimable` | contracts/dispute/src/lib.rs:694-759 | A positive claimable amount means a resolved, non-malicious dispute, an unclaimed voter on the winning side, and the amount `fee / winning_count`. |
| `DisputeRegistry.Registry.GetClaimableReward` | contracts/dispute/src/lib.rs:694-759 | It returns `Claimable`. |
| `DisputeRegistry.Registry.PayReward` | contracts/dispute/src/lib.rs:673-681 | It pays the share from the registry's custody to the voter and flags the voter. The same amount is booked as paid in the round and in total, with the voter among the round's claimers (`Booked`). It keeps the invariant. |
| `DisputeRegistry.Registry.ClaimVoterReward` | contracts/dispute/src/lib.rs:593-691 | It succeeds iff the claimable amount is positive, and then pays exactly that amount and flags the voter. The amount paid is the amount booked for the voter in the reward bookkeeping. Errors, in order: DisputeNotFound, DisputeNotResolved, NoRewardAvailable (malicious or no fee), AlreadyClaimed, NotWinningVoter, NoRewardAvailable. |
| `DisputeRegistry.Registry.RewardsBounded` | contracts/dispute/src/lib.rs:661-681 | One round's rewards stay within the fee. All rounds together stay within `(appeals + 1)·fee`, which is at most `3·fee`. The bookkeeping bounded here is what `ClaimVoterReward` books for each payment it makes. `RaiseAppeal` resets only the round's part; no other operation changes it. |
| `ReputationSpec.CalculateTier` | contracts/reputation/src/lib.rs:120-131 | The tier is None iff the average is below 100, and Platinum iff it is at least 700. |
| `ReputationSpec.TierMonotone` | contracts/reputation/src/lib.rs:120-131 | A higher average never gives a lower tier. |
| `ReputationSpec.StoredWeight` | contracts/reputation/src/lib.rs:187-191 | A review's weight is its stake when positive (cast to u64), and 1 otherwise. |
| `ReputationSpec.AccumulatedMatches` | contracts/reputation/src/lib.rs:193-208 | Adding `rating·weight`, `weight` and one review to the counters keeps them equal to the sums over the review list. |
| `ReputationSpec.InitialWeight` | contracts/reputation/src/lib.rs:333-337 | The undecayed weight is at least 1, and equals a positive stake. |
| `ReputationSpec.SatU64` | contracts/reputation/src/lib.rs:346 | Saturating u64 arithmetic never exceeds the exact value or the u64 range. |
| `ReputationSpec.SatI128` | contracts/reputation/src/lib.rs:353 | Saturating i128 arithmetic never exceeds the exact value or the i128 maximum. |
| `ReputationSpec.Scaled` | contracts/reputation/src/lib.rs:353 | Scaling by a factor of at most 100 percent never raises the weight. |
| `ReputationSpec.EffectiveWeight` | contracts/reputation/src/lib.rs:330-354 | The decayed weight never exceeds the initial weight. It equals the initial weight when the rate is 0, and is 0 once `rate·age/year ≥ 100`. |
| `ReputationSpec.EffectiveWeightDecays` | contracts/reputation/src/lib.rs:330-354 | A review's weight never grows with time. |
| `ReputationSpec.SummedWeight` | contracts/reputation/src/lib.rs:367-372 | The weight the average sums is within u64 and never exceeds the effective weight. |
| `ReputationSpec.DecayedStep` | contracts/reputation/src/lib.rs:367-375 | Each review adds its `rating·weight` and its weight to the two sums. |
| `ReputationSpec.AverageRating` | contracts/reputation/src/lib.rs:356-382 | The average is 0 with no reviews or when all weight has decayed. |
| `ReputationSpec.ScoreWithinWeight` | contracts/reputation/src/lib.rs:367-375 | With ratings from 1 to 5, the weight ≤ the score sum ≤ 5·weight. |
| `ReputationSpec.RatioBounds` | contracts/reputation/src/lib.rs:381 | A score between the weight and five times it gives a ratio in hundredths between 100 and 500. |
| `ReputationSpec.AverageInRange` | contracts/reputation/src/lib.rs:356-382 | The average is 0 iff all weight has decayed; otherwise it lies in [100, 500]. |
| `ReputationSpec.PlatinumUnreachable` | contracts/reputation/src/lib.rs:356-382 | With valid ratings, no average ever reaches the Platinum tier. |
| `ReputationSpec.Awarded` | contracts/reputation/src/lib.rs:239-267 | Badges are only appended, at most one at a time and only for a real tier; the reached tier is then held, and no tier is held twice. |
| `Reputation.RecordKeepsTables` | contracts/reputation/src/lib.rs:193-236 | Recording a valid review keeps ratings in range, keeps the counters equal to the review sums, and flags the review. |
| `Reputation.ComputeAverage` | contracts/reputation/src/lib.rs:356-382 | The loop over the reviews computes exactly `AverageRating`. |
| `Reputation.HasTierBadge` | contracts/reputation/src/lib.rs:250-251 | The scan finds a badge iff one of that tier is held. |
| `Reputation.ReputationRegistry.Initialize` | contracts/reputation/src/lib.rs:291-302 | A second initialisation is refused; a decay rate above 100 is refused with InvalidDecayRate. |
| `Reputation.ReputationRegistry.SetDecayRate` | contracts/reputation/src/lib.rs:305-326 | It needs the stored admin and refuses a rate above 100. Only the rate changes. |
| `Reputation.ReputationRegistry.GetAverageRating` | contracts/reputation/src/lib.rs:356-382 | It returns `AverageRating` over the user's stored reviews at the stored decay rate. |
| `Reputation.ReputationRegistry.RecordReview` | contracts/reputation/src/lib.rs:193-236 | It appends the review, accumulates the counters and flags the triple, keeping the invariant. |
| `Reputation.ReputationRegistry.AwardBadge` | contracts/reputation/src/lib.rs:253-260 | It appends a badge for a tier not yet held; the badges stay distinct. |
| `Reputation.ReputationRegistry.SubmitReview` | contracts/reputation/src/lib.rs:143-276 | Errors, in order: InvalidRating outside 1..5, SelfReview, AlreadyReviewed, JobNotFound, JobNotCompleted, NotJobParticipant (the reviewer and reviewee must be the client and freelancer, in either order). On success the review is stored and counted and a badge for the new tier is appended if not held. No badge is ever removed. |

## Left out

- Token transfers always succeed. An insufficient balance or a failing
  transfer belongs to the foreign token contract. All three contracts share
  one asset; per-job token addresses and the token allow-list
  (`TokenNotAllowed`) are not modelled.
- `set_treasury` is not modelled. The treasury is one fixed account. The
  fallback that keeps the fee in the contract when no treasury is set is not
  modelled.
- Storage TTL bumps, events, `require_auth` signature checks, and descriptions,
  reasons and other strings carry no logic and are left out. Authorisation is
  an equality test on a caller parameter.
- The ledger time, the ledger sequence, the escrow ledger the registry calls,
  the job lookup of the reputation contract and the `malicious` argument are
  parameters. Cross-contract calls are direct calls: `invoke_contract` and
  `try_get_job` are not modelled as such.
- `DisputeRegistry.Registry.ResolveFinal`: the registry passes a boolean to
  the settlement callback, while the escrow expects an outcome. As written the
  argument cannot convert, so every final round reverts and no dispute
  reaches FinalResolution (Findings). The model passes `Outcome(d)`:
  ClientWins when the client wins the vote, FreelancerWins otherwise.
- `Escrow.EscrowLedger.ResolveDisputeCallback`: no caller check. Anybody may
  settle a job, exactly as in the source.
- `DisputeRegistry.Registry.ResolveFinal`: a refused callback aborts the whole
  resolution (`CallbackFailed`), as a failing contract call would.
- `DisputeRegistry.Registry.ResolveDispute`: a resolved but not final dispute
  can be resolved again. Each resolution pays the stake, and the fee when
  malicious, once more from the registry's custody, as the source does. The
  model does not claim the registry's custody covers these repeated payments.
- `DisputeRegistry.Registry.RewardsBounded`: neither the fee nor the claimed
  flags are reset on appeal. Rewards are therefore bounded per round by the
  fee, and overall only by `(appeals + 1)·fee`.
- The `HasVoted` flags are not cleared on appeal, as in the source: an earlier
  voter stays blocked in later rounds (stated by `RaiseAppeal`).
- `Reputation.ReputationRegistry.Initialize`: the "already initialised" test is
  modelled as "an admin is stored".
- Fixed-width overflow is not modelled; these are unbounded integers:
  - in the registry: the tallies, `votes·100` and `2^appeal_count`;
  - in the aggregator: the u64 score sums and the u32 `review_count`
    (contracts/reputation/src/lib.rs:206-208), and the u64 sums
    `total_score`, `total_weight` and `total_score·100` of the average
    (contracts/reputation/src/lib.rs:373-381). An overflow panic there would
    also abort `submit_review`, which computes the average
    (contracts/reputation/src/lib.rs:239);
  - in the ledger: `total += amount` in `create_job`
    (contracts/escrow/src/lib.rs:311), the fee product `amount·fee_bps`
    (contracts/escrow/src/lib.rs:570) and `job_deadline + auto_refund_after`
    in `claim_refund` (contracts/escrow/src/lib.rs:800).
- `Escrow.EscrowLedger.ProposeRevision`: a proposed total that overflows i128
  is refused with ProposalTotalMismatch (contracts/escrow/src/lib.rs:924-927).
  The model has no such error path: it sums without bound.
- The saturating u64 and i128 arithmetic of the effective weight, and the u64
  cast of a stake, are modelled explicitly.
- Read-only getters are not modelled: `get_job`, `get_job_count`,
  `get_revision_proposal`, `get_dispute`, `get_votes`, `get_dispute_count`,
  `get_reputation`, `get_reviews`, `get_review_count`, `get_tier` and
  `get_badges`. Each only returns stored state, which the classes expose as
  fields and as `JobAt`, `DisputeAt`, `ReviewsOf`, `BadgesOf` and
  `ReputationOf`.
- `Escrow.EscrowLedger`: the ledger applies the corrections under Findings
  rather than the code as written. The code as written is in
  `EscrowAsWritten`.

## Findings

| source | as written | input that shows it | evidently intended | confidence | as-written member | corrected member |
|---|---|---|---|---|---|---|
| contracts/escrow/src/lib.rs:647-674 | The batch validation checks each index on its own, so a repeated index passes and is paid once per occurrence. | One Submitted milestone of 100 and indices `[0, 0]`: 200 leaves custody for a job holding 100. | Refuse a repeated index (`InvalidMilestoneIndex`, defined but unused). | high (not executed) | `EscrowAsWritten.DuplicateIndexPaidTwice` | `Escrow.EscrowLedger.ApproveMilestonesBatch` |
| contracts/escrow/src/lib.rs:431-443 | RefundBoth pays nothing when `remaining / 2 == 0` but still cancels the job. | An active job with one unit remaining, settled by RefundBoth. | Pay the odd unit to the freelancer, so the job's remainder always leaves custody. | high (not executed) | `EscrowAsWritten.RefundBothStrandsOneUnit` | `EscrowSpec.SettlementConserves` |
| contracts/escrow/src/lib.rs:536-559 | `approve_milestone` does not check the job's status, so a cancelled job's Submitted milestone can be paid. | A Cancelled job with one Submitted milestone of 100. | Refuse approval unless the job is Funded or InProgress. | high (not executed) | `EscrowAsWritten.ApproveAfterCancelPays` | `Escrow.EscrowLedger.ApproveMilestone` |
| contracts/escrow/src/lib.rs:639-656 | `approve_milestones_batch` does not check the job's status either, so a cancelled job's Submitted milestones can be paid in a batch. | A Cancelled job with one Submitted milestone of 100 and indices `[0]`: 100 leaves custody for a job holding nothing. | Refuse the batch unless the job is Funded or InProgress, as for a single approval. | high (not executed) | `EscrowAsWritten.BatchAfterCancelPays` | `Escrow.EscrowLedger.ApproveMilestonesBatch` |
| contracts/escrow/src/lib.rs:989-1047 | `accept_revision` does not check the job's status or the approved milestones, yet moves `new_total − old_total`. | A Cancelled job of 100 and a proposal totalling 40: 60 is refunded from other jobs' funds. | Accept only for an active job whose approved total the proposal keeps. | medium (not executed) | `EscrowAsWritten.RevisionOfCancelledJobRefunds` | `Escrow.EscrowLedger.AcceptRevision` |
| contracts/escrow/src/lib.rs:303-318 | `create_job` does not check milestone amounts, so a negative amount is accepted. | Milestones of 10 and −3 (total 7); approving the −3 releases nothing but raises the job's holding to 10. | Refuse a non-positive amount. | medium (not executed) | `EscrowAsWritten.NegativeAmountInflatesHolding` | `Escrow.EscrowLedger.CreateJob` |
| contracts/escrow/src/lib.rs:917-931 | `propose_revision` checks only that the total is positive, so a negative milestone amount is accepted. | A job of 7 and the proposal `[10, −3]`: accepting it moves nothing; approving the −3 releases nothing but raises the job's holding to 10. | Refuse a non-positive amount (`InvalidAmount`), as for `create_job`. | medium (not executed) | `EscrowAsWritten.NegativeProposalInflatesHolding` | `Escrow.EscrowLedger.ProposeRevision` |
| contracts/dispute/src/lib.rs:423-431 | The final round passes `resolved_for_client`, a boolean, to `resolve_dispute_callback`, whose parameter is the `DisputeResolution` enumeration (contracts/escrow/src/lib.rs:387-391). | Any dispute whose final round reaches its quorum: the argument does not convert, the call traps and the resolution reverts. | Pass the outcome: ClientWins when the client wins the vote, else FreelancerWins. | medium (not executed; depends on the platform's argument conversion) | `DisputeAsWritten.FinalRoundAlwaysReverts` | `DisputeRegistry.Registry.ResolveFinal` |
