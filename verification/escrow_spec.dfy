/**
 * Values and pure arithmetic of the Job Ledger (the escrow contract):
 * jobs, milestones and revision proposals, the sums the contract folds over
 * a job's milestones, the fee formula, the settlement split, and the amount
 * the ledger holds in custody for each job.
 */
module EscrowSpec {
  import opened Token
  import opened Arith
  import opened Outcomes

  /** Largest fee the configuration accepts, in basis points (10%). */
  const MAX_FEE_BPS: nat := 1000
  /** One whole amount in basis points. */
  const BPS_SCALE: nat := 10000

  /**
   * The contract's error codes. `InvalidAmount` is not in the source: the
   * corrected ledger uses it to refuse non-positive milestone amounts.
   */
  datatype EscrowError =
    | JobNotFound | Unauthorized | InvalidStatus | MilestoneNotFound
    | InsufficientFunds | AlreadyFunded | InvalidDeadline
    | MilestoneDeadlineExceeded | HasPendingMilestone | NoRefundDue
    | GracePeriodNotMet | InvalidMilestoneIndex | TokenNotAllowed
    | AlreadyInitialized | ContractPaused | NotAdmin
    | RevisionProposalAlreadyExists | RevisionProposalNotFound
    | NotAuthorizedForProposalAction | ProposalNotPending
    | InsufficientTopUp | ProposalTotalMismatch | EmptyMilestonesProposed
    | InvalidAmount

  datatype JobStatus = Created | Funded | InProgress | Completed | Disputed | Cancelled

  /** The four outcomes the settlement callback accepts. */
  datatype DisputeResolution = ClientWins | FreelancerWins | RefundBoth | Escalate

  datatype MilestoneStatus = Pending | InProgress | Submitted | Approved

  datatype ProposalStatus = Pending | Accepted | Rejected

  /** A milestone; its description carries no logic and is left out. */
  datatype Milestone = Milestone(id: nat, amount: int, status: MilestoneStatus, deadline: nat)

  datatype Job = Job(
    id: nat,
    client: Address,
    freelancer: Address,
    totalAmount: int,
    status: JobStatus,
    milestones: seq<Milestone>,
    jobDeadline: nat,
    autoRefundAfter: nat)

  datatype RevisionProposal = RevisionProposal(
    proposer: Address,
    newMilestones: seq<Milestone>,
    newTotal: int,
    status: ProposalStatus,
    createdAt: nat)

  /** One requested milestone of `create_job`: its amount and deadline. */
  datatype MilestoneSpec = MilestoneSpec(amount: int, deadline: nat)

  // ---------------------------------------------------------------------
  // Sums over milestones
  // ---------------------------------------------------------------------

  /** Sum of all milestone amounts. */
  function AmountSum(ms: seq<Milestone>): int {
    if ms == [] then 0 else AmountSum(ms[..|ms| - 1]) + ms[|ms| - 1].amount
  }

  /** What a milestone adds to the approved total. */
  function Contribution(m: Milestone): int {
    if m.status.Approved? then m.amount else 0
  }

  /** Sum of the amounts of the Approved milestones: what has been paid out. */
  function ApprovedSum(ms: seq<Milestone>): int {
    if ms == [] then 0 else ApprovedSum(ms[..|ms| - 1]) + Contribution(ms[|ms| - 1])
  }

  predicate AllApproved(ms: seq<Milestone>) {
    forall i :: 0 <= i < |ms| ==> ms[i].status.Approved?
  }

  predicate NoneApproved(ms: seq<Milestone>) {
    forall i :: 0 <= i < |ms| ==> !ms[i].status.Approved?
  }

  predicate AnySubmitted(ms: seq<Milestone>) {
    exists i :: 0 <= i < |ms| && ms[i].status.Submitted?
  }

  predicate PositiveAmounts(ms: seq<Milestone>) {
    forall i :: 0 <= i < |ms| ==> ms[i].amount > 0
  }

  lemma {:induction false} ApprovedSumUpdate(ms: seq<Milestone>, i: nat, m: Milestone)
    requires i < |ms|
    ensures ApprovedSum(ms[i := m]) == ApprovedSum(ms) - Contribution(ms[i]) + Contribution(m)
  {
    var n := |ms|;
    if i == n - 1 {
      assert ms[i := m][..n - 1] == ms[..n - 1];
    } else {
      assert ms[i := m][..n - 1] == ms[..n - 1][i := m];
      ApprovedSumUpdate(ms[..n - 1], i, m);
    }
  }

  lemma {:induction false} AmountSumUpdate(ms: seq<Milestone>, i: nat, m: Milestone)
    requires i < |ms|
    ensures AmountSum(ms[i := m]) == AmountSum(ms) - ms[i].amount + m.amount
  {
    var n := |ms|;
    if i == n - 1 {
      assert ms[i := m][..n - 1] == ms[..n - 1];
    } else {
      assert ms[i := m][..n - 1] == ms[..n - 1][i := m];
      AmountSumUpdate(ms[..n - 1], i, m);
    }
  }

  /** Once every milestone is approved, the whole total has been paid out. */
  lemma {:induction false} AllApprovedSum(ms: seq<Milestone>)
    requires AllApproved(ms)
    ensures ApprovedSum(ms) == AmountSum(ms)
  {
    if ms != [] {
      AllApprovedSum(ms[..|ms| - 1]);
    }
  }

  /** A job none of whose milestones is approved has paid nothing out. */
  lemma {:induction false} NoneApprovedSum(ms: seq<Milestone>)
    requires NoneApproved(ms)
    ensures ApprovedSum(ms) == 0
  {
    if ms != [] {
      NoneApprovedSum(ms[..|ms| - 1]);
    }
  }

  /** With positive amounts the paid-out part never exceeds the total. */
  lemma {:induction false} ApprovedSumBounds(ms: seq<Milestone>)
    requires PositiveAmounts(ms)
    ensures 0 <= ApprovedSum(ms) <= AmountSum(ms)
    ensures ms != [] ==> AmountSum(ms) > 0
  {
    if ms != [] {
      ApprovedSumBounds(ms[..|ms| - 1]);
    }
  }

  // ---------------------------------------------------------------------
  // Custody
  // ---------------------------------------------------------------------

  /** Funded or InProgress: the states in which the ledger holds the job's money. */
  predicate IsActive(s: JobStatus) {
    s == Funded || s == JobStatus.InProgress
  }

  /** What the job has not yet paid out: `total_amount - Σ approved`. */
  function Remaining(job: Job): int {
    job.totalAmount - ApprovedSum(job.milestones)
  }

  /** The part of the custody account that belongs to `job`. */
  function Held(job: Job): int {
    if IsActive(job.status) then Remaining(job) else 0
  }

  /** What the custody account must hold for all jobs together. */
  function HeldSum(jobs: seq<Job>): int {
    if jobs == [] then 0 else HeldSum(jobs[..|jobs| - 1]) + Held(jobs[|jobs| - 1])
  }

  lemma {:induction false} HeldSumUpdate(jobs: seq<Job>, k: nat, j: Job)
    requires k < |jobs|
    ensures HeldSum(jobs[k := j]) == HeldSum(jobs) - Held(jobs[k]) + Held(j)
  {
    var n := |jobs|;
    if k == n - 1 {
      assert jobs[k := j][..n - 1] == jobs[..n - 1];
    } else {
      assert jobs[k := j][..n - 1] == jobs[..n - 1][k := j];
      HeldSumUpdate(jobs[..n - 1], k, j);
    }
  }

  lemma HeldSumAppend(jobs: seq<Job>, j: Job)
    ensures HeldSum(jobs + [j]) == HeldSum(jobs) + Held(j)
  {
    assert (jobs + [j])[..|jobs|] == jobs;
  }

  /**
   * The invariants each stored job keeps: its id is its position, nothing
   * ever sets Disputed, `total_amount` is the sum of the milestone amounts,
   * amounts are positive, and an unfunded job has approved nothing.
   */
  ghost predicate WellFormedJob(job: Job, id: nat) {
    && job.id == id
    && job.status != Disputed
    && job.totalAmount == AmountSum(job.milestones)
    && PositiveAmounts(job.milestones)
    && (job.status == Created ==> NoneApproved(job.milestones))
  }

  ghost predicate WellFormedProposal(p: RevisionProposal) {
    && p.newMilestones != []
    && p.newTotal == AmountSum(p.newMilestones)
    && PositiveAmounts(p.newMilestones)
  }

  /**
   * Why `propose_revision` refuses a milestone list, if it does: an empty
   * list, a total that is not positive (as the source checks) or, in the
   * corrected ledger, a milestone amount that is not positive. Exactly the
   * lists it accepts make a well-formed proposal.
   */
  function ProposalError(ms: seq<Milestone>): (e: Option<EscrowError>)
    ensures e.None? <==> ms != [] && AmountSum(ms) > 0 && PositiveAmounts(ms)
    ensures e.None? ==> WellFormedProposal(RevisionProposal(0, ms, AmountSum(ms), ProposalStatus.Pending, 0))
  {
    if ms == [] then Some(EmptyMilestonesProposed)
    else if AmountSum(ms) <= 0 then Some(ProposalTotalMismatch)
    else if !PositiveAmounts(ms) then Some(InvalidAmount)
    else None
  }

  /** For a well-formed job, the held amount is never negative. */
  lemma HeldNonNegative(job: Job, id: nat)
    requires WellFormedJob(job, id)
    ensures Remaining(job) >= 0 && Held(job) >= 0
  {
    ApprovedSumBounds(job.milestones);
  }

  // ---------------------------------------------------------------------
  // create_job
  // ---------------------------------------------------------------------

  /**
   * Why a requested milestone is refused, if it is: a deadline outside
   * `(now, jobDeadline]` (as the source checks) or, in the corrected
   * ledger, a non-positive amount.
   */
  function SpecError(s: MilestoneSpec, now: nat, jobDeadline: nat): Option<EscrowError> {
    if s.deadline <= now then Some(InvalidDeadline)
    else if s.deadline > jobDeadline then Some(InvalidDeadline)
    else if s.amount <= 0 then Some(InvalidAmount)
    else None
  }

  /** The error of the first refused milestone, scanning left to right. */
  function FirstSpecError(specs: seq<MilestoneSpec>, now: nat, jobDeadline: nat): (e: Option<EscrowError>)
    ensures e.None? <==> forall i :: 0 <= i < |specs| ==> SpecError(specs[i], now, jobDeadline).None?
  {
    if specs == [] then None
    else
      var e := FirstSpecError(specs[..|specs| - 1], now, jobDeadline);
      if e.Some? then e else SpecError(specs[|specs| - 1], now, jobDeadline)
  }

  /** Once a prefix has a refused milestone, the whole list fails with that error. */
  lemma {:induction false} FirstSpecErrorPrefix(specs: seq<MilestoneSpec>, j: nat, now: nat, jobDeadline: nat)
    requires j <= |specs|
    requires FirstSpecError(specs[..j], now, jobDeadline).Some?
    ensures FirstSpecError(specs, now, jobDeadline) == FirstSpecError(specs[..j], now, jobDeadline)
  {
    if j < |specs| {
      var n := |specs| - 1;
      assert specs[..n][..j] == specs[..j];
      FirstSpecErrorPrefix(specs[..n], j, now, jobDeadline);
    } else {
      assert specs[..j] == specs;
    }
  }

  /** Milestone `i` gets id `i`, the requested amount and deadline, and status Pending. */
  function NewMilestones(specs: seq<MilestoneSpec>): (ms: seq<Milestone>)
    ensures |ms| == |specs|
    ensures forall i :: 0 <= i < |ms| ==>
      ms[i] == Milestone(i, specs[i].amount, MilestoneStatus.Pending, specs[i].deadline)
  {
    if specs == [] then []
    else
      var n := |specs| - 1;
      NewMilestones(specs[..n]) + [Milestone(n, specs[n].amount, MilestoneStatus.Pending, specs[n].deadline)]
  }

  function SpecAmountSum(specs: seq<MilestoneSpec>): int {
    if specs == [] then 0 else SpecAmountSum(specs[..|specs| - 1]) + specs[|specs| - 1].amount
  }

  /** The job total is the sum of the requested amounts. */
  lemma {:induction false} NewMilestonesSum(specs: seq<MilestoneSpec>)
    ensures AmountSum(NewMilestones(specs)) == SpecAmountSum(specs)
  {
    if specs != [] {
      var n := |specs| - 1;
      assert NewMilestones(specs)[..n] == NewMilestones(specs[..n]);
      NewMilestonesSum(specs[..n]);
    }
  }

  /**
   * Accepted milestone requests make a well-formed unfunded job: positive
   * amounts, nothing approved, and the requested amounts as its total.
   */
  lemma NewMilestonesAccepted(specs: seq<MilestoneSpec>, now: nat, jobDeadline: nat)
    requires FirstSpecError(specs, now, jobDeadline).None?
    ensures PositiveAmounts(NewMilestones(specs))
    ensures NoneApproved(NewMilestones(specs))
    ensures AmountSum(NewMilestones(specs)) == SpecAmountSum(specs)
  {
    var ms := NewMilestones(specs);
    forall i | 0 <= i < |ms|
      ensures ms[i].amount > 0
    {
      assert SpecError(specs[i], now, jobDeadline).None?;
    }
    NewMilestonesSum(specs);
  }

  // ---------------------------------------------------------------------
  // Fees
  // ---------------------------------------------------------------------

  /** Integer division rounding toward zero, as Rust's `/` on `i128`. */
  function TruncDiv(a: int, b: nat): (q: int)
    requires b > 0
    ensures a >= 0 ==> q == a / b
    ensures a < 0 ==> q == -((-a) / b)
  {
    if a >= 0 then a / b else -((-a) / b)
  }

  /** `amount * fee_bps / 10000`, the part of a payment that goes to the treasury. */
  function Fee(amount: int, feeBps: nat): int {
    TruncDiv(amount * feeBps, BPS_SCALE)
  }

  /** With the configured bound, the fee is at most a tenth of a non-negative amount. */
  lemma FeeAtMostTenPercent(amount: int, feeBps: nat)
    requires amount >= 0 && feeBps <= MAX_FEE_BPS
    ensures 0 <= Fee(amount, feeBps) <= amount / 10
    ensures Fee(amount, feeBps) + (amount - Fee(amount, feeBps)) == amount
  {
    assert amount * feeBps <= amount * 1000 by {
      assert amount * (1000 - feeBps) >= 0;
    }
    assert (amount * 1000) / 10000 == amount / 10;
    DivMonotone(amount * feeBps, amount * 1000, 10000);
  }

  /**
   * The balances after releasing `amount` from custody: the fee to the
   * treasury and the rest to the payee, nothing else moving.
   */
  function Released(b: map<Account, int>, amount: int, feeBps: nat, payee: Address): (b': map<Account, int>)
    requires amount >= 0 && feeBps <= MAX_FEE_BPS
    ensures 0 <= Fee(amount, feeBps) <= amount / 10
    ensures Bal(b', EscrowCustody) == Bal(b, EscrowCustody) - amount
    ensures Bal(b', Treasury) == Bal(b, Treasury) + Fee(amount, feeBps)
    ensures Bal(b', User(payee)) == Bal(b, User(payee)) + (amount - Fee(amount, feeBps))
    ensures forall a :: a != EscrowCustody && a != Treasury && a != User(payee) ==> Bal(b', a) == Bal(b, a)
  {
    FeeAtMostTenPercent(amount, feeBps);
    var fee := Fee(amount, feeBps);
    Moved(MovedIfPositive(b, EscrowCustody, Treasury, fee), EscrowCustody, User(payee), amount - fee)
  }

  // ---------------------------------------------------------------------
  // Approval
  // ---------------------------------------------------------------------

  /** The job with its milestones replaced by `ms`, Completed once all are approved. */
  function WithApproved(job: Job, ms: seq<Milestone>): Job {
    job.(milestones := ms, status := if AllApproved(ms) then Completed else job.status)
  }

  /**
   * An approval step that keeps the amounts and raises the approved total
   * by `released` lowers what an active job holds by exactly `released`,
   * and leaves the job well formed.
   */
  lemma ApprovalReleases(job: Job, id: nat, ms: seq<Milestone>, released: int)
    requires WellFormedJob(job, id) && IsActive(job.status)
    requires AmountSum(ms) == AmountSum(job.milestones) && PositiveAmounts(ms)
    requires ApprovedSum(ms) == ApprovedSum(job.milestones) + released
    ensures WellFormedJob(WithApproved(job, ms), id)
    ensures Held(WithApproved(job, ms)) == Held(job) - released
  {
    if AllApproved(ms) {
      AllApprovedSum(ms);
    }
  }

  // ---------------------------------------------------------------------
  // approve_milestones_batch
  // ---------------------------------------------------------------------

  /** Why the source refuses a single index of a batch, if it does. */
  function IndexError(ms: seq<Milestone>, i: nat): Option<EscrowError> {
    if i >= |ms| then Some(MilestoneNotFound)
    else if !ms[i].status.Submitted? then Some(InvalidStatus)
    else None
  }

  predicate Distinct(indices: seq<nat>) {
    forall i, j :: 0 <= i < j < |indices| ==> indices[i] != indices[j]
  }

  /**
   * The validation pass of the corrected batch: the source's checks on each
   * index in order, and in addition a repeated index is refused with
   * `InvalidMilestoneIndex`.
   */
  function BatchError(ms: seq<Milestone>, indices: seq<nat>): (e: Option<EscrowError>)
    ensures e.None? <==>
      (forall j :: 0 <= j < |indices| ==> IndexError(ms, indices[j]).None?) && Distinct(indices)
  {
    if indices == [] then None
    else
      var n := |indices| - 1;
      var e := BatchError(ms, indices[..n]);
      if e.Some? then e
      else if IndexError(ms, indices[n]).Some? then IndexError(ms, indices[n])
      else if indices[n] in indices[..n] then Some(InvalidMilestoneIndex)
      else None
  }

  /** Once a prefix of the batch is refused, the whole batch fails with that error. */
  lemma {:induction false} BatchErrorPrefix(ms: seq<Milestone>, indices: seq<nat>, j: nat)
    requires j <= |indices|
    requires BatchError(ms, indices[..j]).Some?
    ensures BatchError(ms, indices) == BatchError(ms, indices[..j])
  {
    if j < |indices| {
      var n := |indices| - 1;
      assert indices[..n][..j] == indices[..j];
      BatchErrorPrefix(ms, indices[..n], j);
    } else {
      assert indices[..j] == indices;
    }
  }

  predicate AllIndicesSubmitted(ms: seq<Milestone>, indices: seq<nat>) {
    forall j :: 0 <= j < |indices| ==> indices[j] < |ms| && ms[indices[j]].status.Submitted?
  }

  /** The milestones after the second pass has approved each listed index in turn. */
  function ApplyBatch(ms: seq<Milestone>, indices: seq<nat>): (r: seq<Milestone>)
    requires forall j :: 0 <= j < |indices| ==> indices[j] < |ms|
    ensures |r| == |ms|
  {
    if indices == [] then ms
    else
      var n := |indices| - 1;
      var prev := ApplyBatch(ms, indices[..n]);
      prev[indices[n] := prev[indices[n]].(status := Approved)]
  }

  /** `total_released`: the listed amounts added up, once per listed index. */
  function IndexedSum(ms: seq<Milestone>, indices: seq<nat>): int
    requires forall j :: 0 <= j < |indices| ==> indices[j] < |ms|
  {
    if indices == [] then 0
    else IndexedSum(ms, indices[..|indices| - 1]) + ms[indices[|indices| - 1]].amount
  }

  /** The batch approves exactly the listed milestones and leaves the others alone. */
  lemma {:induction false} ApplyBatchAt(ms: seq<Milestone>, indices: seq<nat>, i: nat)
    requires forall j :: 0 <= j < |indices| ==> indices[j] < |ms|
    requires i < |ms|
    ensures ApplyBatch(ms, indices)[i] == if i in indices then ms[i].(status := Approved) else ms[i]
  {
    if indices != [] {
      var n := |indices| - 1;
      ApplyBatchAt(ms, indices[..n], i);
      assert i in indices <==> i in indices[..n] || i == indices[n] by {
        assert indices == indices[..n] + [indices[n]];
      }
    }
  }

  /**
   * With distinct Submitted indices, the approved total grows by exactly the
   * released amount: the fact custody conservation rests on.
   */
  lemma {:induction false} BatchApprovedSum(ms: seq<Milestone>, indices: seq<nat>)
    requires AllIndicesSubmitted(ms, indices) && Distinct(indices)
    ensures ApprovedSum(ApplyBatch(ms, indices)) == ApprovedSum(ms) + IndexedSum(ms, indices)
  {
    if indices != [] {
      var n := |indices| - 1;
      var last := indices[n];
      BatchApprovedSum(ms, indices[..n]);
      var prev := ApplyBatch(ms, indices[..n]);
      ApplyBatchAt(ms, indices[..n], last);
      assert last !in indices[..n];
      ApprovedSumUpdate(prev, last, prev[last].(status := Approved));
    }
  }

  lemma {:induction false} ApplyBatchKeepsAmounts(ms: seq<Milestone>, indices: seq<nat>)
    requires forall j :: 0 <= j < |indices| ==> indices[j] < |ms|
    ensures AmountSum(ApplyBatch(ms, indices)) == AmountSum(ms)
    ensures PositiveAmounts(ms) ==> PositiveAmounts(ApplyBatch(ms, indices))
  {
    if indices != [] {
      var n := |indices| - 1;
      ApplyBatchKeepsAmounts(ms, indices[..n]);
      var prev := ApplyBatch(ms, indices[..n]);
      AmountSumUpdate(prev, indices[n], prev[indices[n]].(status := Approved));
    }
  }

  /** With positive amounts, a non-empty batch releases a positive total. */
  lemma {:induction false} IndexedSumPositive(ms: seq<Milestone>, indices: seq<nat>)
    requires forall j :: 0 <= j < |indices| ==> indices[j] < |ms|
    requires PositiveAmounts(ms)
    ensures indices == [] ==> IndexedSum(ms, indices) == 0
    ensures indices != [] ==> IndexedSum(ms, indices) > 0
  {
    if indices != [] {
      IndexedSumPositive(ms, indices[..|indices| - 1]);
    }
  }

  // ---------------------------------------------------------------------
  // Settlement
  // ---------------------------------------------------------------------

  /**
   * How the settlement splits the remaining custody (client share,
   * freelancer share). RefundBoth gives the client half rounded down and the
   * freelancer the rest; the freelancer's share is paid even when the
   * client's half is 0.
   */
  function SettlementPayouts(remaining: int, resolution: DisputeResolution): (r: (int, int))
    ensures r.0 >= 0 && r.1 >= 0
    ensures remaining > 0 && !resolution.Escalate? ==> r.0 + r.1 == remaining
    ensures remaining <= 0 || resolution.Escalate? ==> r == (0, 0)
    ensures resolution.ClientWins? ==> r.1 == 0
    ensures resolution.FreelancerWins? ==> r.0 == 0
    ensures resolution.RefundBoth? ==> r.0 <= r.1 <= r.0 + 1
  {
    if remaining <= 0 then (0, 0)
    else match resolution
      case ClientWins => (remaining, 0)
      case FreelancerWins => (0, remaining)
      case RefundBoth => (remaining / 2, remaining - remaining / 2)
      case Escalate => (0, 0)
  }

  /** Statuses a dispute settlement applies to: funded, in progress or disputed. */
  predicate IsSettleable(s: JobStatus) {
    s.Funded? || s.InProgress? || s.Disputed?
  }

  /**
   * The balances after the settlement payouts for `job` leave custody: the
   * client's share to the client, the freelancer's to the freelancer, and
   * no other account moves.
   */
  function SettledBalances(b: map<Account, int>, job: Job, resolution: DisputeResolution): (b': map<Account, int>)
    ensures var p := SettlementPayouts(Remaining(job), resolution);
      Bal(b', EscrowCustody) == Bal(b, EscrowCustody) - p.0 - p.1
    ensures var p := SettlementPayouts(Remaining(job), resolution);
      forall a: Address :: Bal(b', User(a)) == Bal(b, User(a))
        + (if a == job.client then p.0 else 0) + (if a == job.freelancer then p.1 else 0)
    ensures Bal(b', RegistryCustody) == Bal(b, RegistryCustody)
    ensures Bal(b', Treasury) == Bal(b, Treasury)
  {
    var p := SettlementPayouts(Remaining(job), resolution);
    MovedIfPositive(MovedIfPositive(b, EscrowCustody, User(job.client), p.0), EscrowCustody, User(job.freelancer), p.1)
  }

  /** The status mapping of the settlement, the same whether or not funds remain. */
  function SettledStatus(s: JobStatus, resolution: DisputeResolution): JobStatus {
    match resolution
    case ClientWins => Cancelled
    case RefundBoth => Cancelled
    case FreelancerWins => Completed
    case Escalate => s
  }

  /**
   * Settling an active job pays out exactly what the job held: what the two
   * payouts add up to is what leaves the job's share of custody.
   */
  lemma SettlementConserves(job: Job, id: nat, resolution: DisputeResolution)
    requires WellFormedJob(job, id) && IsActive(job.status)
    ensures var p := SettlementPayouts(Remaining(job), resolution);
      Held(job) == Held(job.(status := SettledStatus(job.status, resolution))) + p.0 + p.1
  {
    HeldNonNegative(job, id);
  }
}
