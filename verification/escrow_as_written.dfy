/**
 * The escrow checks exactly as the contract states them, where they differ
 * from the corrected ledger in `Escrow`, each with a concrete input on which
 * custody conservation fails: the money that leaves the escrow account is
 * not what the job stops holding.
 */
module EscrowAsWritten {
  import opened Token
  import opened Outcomes
  import opened EscrowSpec

  /** `create_job` checks only the deadlines of a milestone, never its amount. */
  function SpecErrorAsWritten(s: MilestoneSpec, now: nat, jobDeadline: nat): (e: Option<EscrowError>)
    ensures e.None? <==> now < s.deadline <= jobDeadline
    ensures e.Some? ==> e == Some(InvalidDeadline)
  {
    if s.deadline <= now then Some(InvalidDeadline)
    else if s.deadline > jobDeadline then Some(InvalidDeadline)
    else None
  }

  /** The batch validation pass checks each index on its own; repeats pass. */
  function BatchErrorAsWritten(ms: seq<Milestone>, indices: seq<nat>): (e: Option<EscrowError>)
    ensures e.None? <==> forall j :: 0 <= j < |indices| ==> IndexError(ms, indices[j]).None?
  {
    if indices == [] then None
    else
      var n := |indices| - 1;
      var e := BatchErrorAsWritten(ms, indices[..n]);
      if e.Some? then e else IndexError(ms, indices[n])
  }

  /** What leaves custody in a batch as written: nothing unless the sum is positive. */
  function BatchPaidOut(ms: seq<Milestone>, indices: seq<nat>): (paid: int)
    requires forall j :: 0 <= j < |indices| ==> indices[j] < |ms|
    ensures paid >= 0
    ensures paid == 0 || paid == IndexedSum(ms, indices)
  {
    if IndexedSum(ms, indices) > 0 then IndexedSum(ms, indices) else 0
  }

  /** `propose_revision`'s amount checks as written: only the total must be positive. */
  function ProposalErrorAsWritten(ms: seq<Milestone>): (e: Option<EscrowError>)
    ensures e.None? <==> ms != [] && AmountSum(ms) > 0
    ensures e.Some? ==> e == Some(EmptyMilestonesProposed) || e == Some(ProposalTotalMismatch)
  {
    if ms == [] then Some(EmptyMilestonesProposed)
    else if AmountSum(ms) <= 0 then Some(ProposalTotalMismatch)
    else None
  }

  /** `approve_milestone`'s checks as written: no check of the job's status. */
  function ApproveErrorAsWritten(job: Job, idx: nat, client: Address): (e: Option<EscrowError>)
    ensures e.None? <==> client == job.client && idx < |job.milestones| && job.milestones[idx].status.Submitted?
  {
    if job.client != client then Some(Unauthorized)
    else if idx >= |job.milestones| then Some(MilestoneNotFound)
    else if !job.milestones[idx].status.Submitted? then Some(InvalidStatus)
    else None
  }

  /** The settlement split as written: RefundBoth pays nothing when half rounds to 0. */
  function SettlementPayoutsAsWritten(remaining: int, resolution: DisputeResolution): (r: (int, int))
    ensures r.0 >= 0 && r.1 >= 0
    ensures r != SettlementPayouts(remaining, resolution) <==> remaining == 1 && resolution.RefundBoth?
  {
    if remaining <= 0 then (0, 0)
    else match resolution
      case ClientWins => (remaining, 0)
      case FreelancerWins => (0, remaining)
      case RefundBoth => if remaining / 2 > 0 then (remaining / 2, remaining - remaining / 2) else (0, 0)
      case Escalate => (0, 0)
  }

  /**
   * `accept_revision` as written: the job takes the proposal whatever its
   * status, and the difference of totals moves. That difference is what the
   * job's holding changes by only for an active job whose paid-out amount
   * the proposal keeps.
   */
  function AcceptRevisionAsWritten(job: Job, p: RevisionProposal): (r: (Job, int))
    ensures r.0.status == job.status && r.0.milestones == p.newMilestones && r.0.totalAmount == p.newTotal
    ensures IsActive(job.status) && ApprovedSum(p.newMilestones) == ApprovedSum(job.milestones)
            ==> Held(r.0) == Held(job) + r.1
    ensures !IsActive(job.status) ==> Held(r.0) == Held(job)
  {
    (job.(milestones := p.newMilestones, totalAmount := p.newTotal), p.newTotal - job.totalAmount)
  }

  // -------------------------------------------------------------------
  // Inputs on which custody conservation fails as written
  // -------------------------------------------------------------------

  /**
   * A repeated index passes validation and is paid twice: 200 leaves
   * custody for a job that held 100. The corrected batch refuses it.
   */
  lemma DuplicateIndexPaidTwice()
    ensures var ms := [Milestone(0, 100, Submitted, 10)];
      var job := Job(1, 1, 2, 100, JobStatus.InProgress, ms, 10, 0);
      && BatchErrorAsWritten(ms, [0, 0]).None?
      && BatchPaidOut(ms, [0, 0]) == 200
      && Held(job) - Held(WithApproved(job, ApplyBatch(ms, [0, 0]))) == 100
      && BatchError(ms, [0, 0]) == Some(InvalidMilestoneIndex)
  {
    var ms := [Milestone(0, 100, Submitted, 10)];
    assert [0, 0][..1] == [0];
    assert [0][..0] == [];
    assert ApplyBatch(ms, [0, 0]) == [Milestone(0, 100, Approved, 10)];
  }

  /**
   * Settling an active job with one unit remaining by RefundBoth pays nobody
   * yet cancels the job, so the unit stays in custody with no job holding it.
   */
  lemma RefundBothStrandsOneUnit(job: Job)
    requires IsActive(job.status) && Remaining(job) == 1
    ensures Held(job) == 1
    ensures SettlementPayoutsAsWritten(Remaining(job), RefundBoth) == (0, 0)
    ensures Held(job.(status := SettledStatus(job.status, RefundBoth))) == 0
    ensures SettlementPayouts(Remaining(job), RefundBoth) == (0, 1)
  {
  }

  /**
   * A cancelled job whose milestone was Submitted can still be approved:
   * its amount leaves custody a second time, from other jobs' funds, while
   * the job's holding stays 0.
   */
  lemma ApproveAfterCancelPays(b: map<Account, int>, feeBps: nat)
    requires feeBps <= MAX_FEE_BPS
    ensures var job := Job(1, 1, 2, 100, Cancelled, [Milestone(0, 100, Submitted, 10)], 10, 0);
      && ApproveErrorAsWritten(job, 0, 1).None?
      && Held(job) == 0
      && Bal(Released(b, job.milestones[0].amount, feeBps, job.freelancer), EscrowCustody) == Bal(b, EscrowCustody) - 100
      && Held(WithApproved(job, [Milestone(0, 100, Approved, 10)])) == 0
  {
  }

  /**
   * The batch path has the same gap: `approve_milestones_batch` checks the
   * client and the indices but not the job's status, so the Submitted
   * milestone of a cancelled job is paid out of custody again. The
   * corrected batch refuses it with InvalidStatus.
   */
  lemma BatchAfterCancelPays(b: map<Account, int>, feeBps: nat)
    requires feeBps <= MAX_FEE_BPS
    ensures var ms := [Milestone(0, 100, Submitted, 10)];
      var job := Job(1, 1, 2, 100, Cancelled, ms, 10, 0);
      && BatchErrorAsWritten(ms, [0]).None?
      && BatchPaidOut(ms, [0]) == 100
      && Held(job) == 0
      && Bal(Released(b, BatchPaidOut(ms, [0]), feeBps, job.freelancer), EscrowCustody) == Bal(b, EscrowCustody) - 100
      && Held(WithApproved(job, ApplyBatch(ms, [0]))) == 0
      && !IsActive(job.status)
  {
    var ms := [Milestone(0, 100, Submitted, 10)];
    assert [0][..0] == [];
    assert IndexedSum(ms, [0]) == 100;
  }

  /**
   * Accepting a lower budget on a cancelled job refunds the difference to
   * the client although the job holds nothing any more.
   */
  lemma RevisionOfCancelledJobRefunds()
    ensures var ms := [Milestone(0, 100, MilestoneStatus.Pending, 10)];
      var job := Job(1, 1, 2, 100, Cancelled, ms, 10, 0);
      var p := RevisionProposal(2, [Milestone(0, 40, MilestoneStatus.Pending, 10)], 40, ProposalStatus.Pending, 0);
      var r := AcceptRevisionAsWritten(job, p);
      && r.1 == -60
      && Held(job) == 0 && Held(r.0) == 0
  {
  }

  /**
   * A milestone of amount -3 is accepted; approving it alone releases a
   * negative sum, so nothing moves, yet the job's holding grows by 3.
   * The corrected ledger refuses the amount with InvalidAmount.
   */
  lemma NegativeAmountInflatesHolding()
    ensures var ms := [Milestone(0, 10, MilestoneStatus.Pending, 10), Milestone(1, -3, Submitted, 10)];
      var job := Job(1, 1, 2, 7, JobStatus.InProgress, ms, 10, 0);
      && SpecErrorAsWritten(MilestoneSpec(-3, 10), 0, 10).None?
      && BatchErrorAsWritten(ms, [1]).None?
      && BatchPaidOut(ms, [1]) == 0
      && Held(job) == 7
      && Held(WithApproved(job, ApplyBatch(ms, [1]))) == 10
      && SpecError(MilestoneSpec(-3, 10), 0, 10) == Some(InvalidAmount)
  {
    var ms := [Milestone(0, 10, MilestoneStatus.Pending, 10), Milestone(1, -3, Submitted, 10)];
    assert [1][..0] == [];
    var ms' := ApplyBatch(ms, [1]);
    assert ms' == [Milestone(0, 10, MilestoneStatus.Pending, 10), Milestone(1, -3, Approved, 10)];
    assert ms'[..1] == [ms'[0]] && ms[..1] == [ms[0]];
    assert [ms[0]][..0] == [];
    assert ApprovedSum(ms) == 0;
    assert ApprovedSum(ms') == -3;
    assert !AllApproved(ms');
  }

  /**
   * The same -3 slipped in through a revision: the proposal [10, -3] has a
   * positive total and is accepted at no cost, and approving its -3 then
   * grows the job's holding by 3 with nothing moving. The corrected ledger
   * refuses the proposal with InvalidAmount.
   */
  lemma NegativeProposalInflatesHolding(ms: seq<Milestone>, job: Job)
    requires ms == [Milestone(0, 10, MilestoneStatus.Pending, 10), Milestone(1, -3, Submitted, 10)]
    requires job == Job(1, 1, 2, 7, JobStatus.InProgress, [Milestone(0, 7, MilestoneStatus.Pending, 10)], 10, 0)
    ensures ProposalErrorAsWritten(ms).None?
    ensures var r := AcceptRevisionAsWritten(job, RevisionProposal(2, ms, 7, ProposalStatus.Pending, 0));
      && r.1 == 0
      && Held(job) == 7 && Held(r.0) == 7
      && Held(WithApproved(r.0, ApplyBatch(ms, [1]))) == 10
    ensures BatchErrorAsWritten(ms, [1]).None? && BatchPaidOut(ms, [1]) == 0
    ensures ProposalError(ms) == Some(InvalidAmount)
  {
    assert job.milestones[..0] == [];
    assert ms[..1] == [ms[0]];
    assert [ms[0]][..0] == [];
    assert AmountSum([ms[0]]) == 10;
    assert AmountSum(ms) == 7;
    var r := AcceptRevisionAsWritten(job, RevisionProposal(2, ms, 7, ProposalStatus.Pending, 0));
    // The revised job is the one of NegativeAmountInflatesHolding.
    assert r.0 == Job(1, 1, 2, 7, JobStatus.InProgress, ms, 10, 0);
    NegativeAmountInflatesHolding();
    assert !PositiveAmounts(ms) by { assert ms[1].amount <= 0; }
  }
}
