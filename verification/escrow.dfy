/**
 * The Job Ledger (escrow contract) with the corrections listed under
 * Findings: a job's status is checked before money leaves custody, a batch
 * refuses repeated indices, a settlement of one remaining unit still pays it
 * out, a revision may only replace an active job's milestones without
 * changing what has been paid, and milestone amounts must be positive.
 *
 * The central invariant, kept by every operation, is custody conservation:
 * the escrow's balance in the payment asset equals what all jobs still hold,
 * `HeldSum(jobs)`.
 */
module Escrow {
  import opened Token
  import opened Outcomes
  import opened EscrowSpec

  /** The validation pass of a batch approval: `BatchError`, computed by a scan. */
  method ValidateBatch(ms: seq<Milestone>, indices: seq<nat>) returns (e: Option<EscrowError>)
    ensures e == BatchError(ms, indices)
  {
    var i := 0;
    while i < |indices|
      invariant 0 <= i <= |indices|
      invariant BatchError(ms, indices[..i]).None?
    {
      var x := indices[i];
      assert indices[..i + 1][..i] == indices[..i];
      if x >= |ms| {
        BatchErrorPrefix(ms, indices, i + 1);
        return Some(MilestoneNotFound);
      }
      if !ms[x].status.Submitted? {
        BatchErrorPrefix(ms, indices, i + 1);
        return Some(InvalidStatus);
      }
      if x in indices[..i] {
        BatchErrorPrefix(ms, indices, i + 1);
        return Some(InvalidMilestoneIndex);
      }
      i := i + 1;
    }
    assert indices[..i] == indices;
    e := None;
  }

  /**
   * The approval pass of a batch: marks each listed milestone Approved in
   * turn and adds up the listed amounts.
   */
  method ApproveListed(ms: seq<Milestone>, indices: seq<nat>) returns (cur: seq<Milestone>, released: int)
    requires forall j :: 0 <= j < |indices| ==> indices[j] < |ms|
    ensures cur == ApplyBatch(ms, indices)
    ensures released == IndexedSum(ms, indices)
  {
    released := 0;
    cur := ms;
    var i := 0;
    while i < |indices|
      invariant 0 <= i <= |indices|
      invariant cur == ApplyBatch(ms, indices[..i])
      invariant released == IndexedSum(ms, indices[..i])
    {
      var x := indices[i];
      ApplyBatchAt(ms, indices[..i], x);
      assert indices[..i + 1][..i] == indices[..i];
      released := released + cur[x].amount;
      cur := cur[x := cur[x].(status := Approved)];
      i := i + 1;
    }
    assert indices[..i] == indices;
  }

  /**
   * Checks each milestone's deadline and amount in order while building the
   * Pending milestones and their total; the first bad one is refused.
   */
  method BuildMilestones(specs: seq<MilestoneSpec>, now: nat, jobDeadline: nat)
    returns (r: Result<(seq<Milestone>, int), EscrowError>)
    ensures r == (if FirstSpecError(specs, now, jobDeadline).Some? then Err(FirstSpecError(specs, now, jobDeadline).value)
                  else Ok((NewMilestones(specs), SpecAmountSum(specs))))
  {
    var total := 0;
    var ms: seq<Milestone> := [];
    var i := 0;
    while i < |specs|
      invariant 0 <= i <= |specs|
      invariant FirstSpecError(specs[..i], now, jobDeadline).None?
      invariant ms == NewMilestones(specs[..i])
      invariant total == SpecAmountSum(specs[..i])
    {
      var s := specs[i];
      assert specs[..i + 1][..i] == specs[..i];
      if s.deadline <= now || s.deadline > jobDeadline {
        FirstSpecErrorPrefix(specs, i + 1, now, jobDeadline);
        return Err(InvalidDeadline);
      }
      if s.amount <= 0 {
        FirstSpecErrorPrefix(specs, i + 1, now, jobDeadline);
        return Err(InvalidAmount);
      }
      total := total + s.amount;
      ms := ms + [Milestone(i, s.amount, MilestoneStatus.Pending, s.deadline)];
      i := i + 1;
    }
    assert specs[..i] == specs;
    r := Ok((ms, total));
  }

  class EscrowLedger {
    /** The payment asset; the ledger's own account in it is `EscrowCustody`. */
    const token: TokenLedger
    var admin: Option<Address>
    var feeBps: nat
    var paused: bool
    /** Job `id` is stored at index `id - 1`; `|jobs|` is the job counter. */
    var jobs: seq<Job>
    /** The latest revision proposal of each job, by job id. */
    var proposals: map<nat, RevisionProposal>

    /** The stored configuration, jobs and proposals are well formed. */
    ghost predicate Consistent()
      reads this
    {
      && feeBps <= MAX_FEE_BPS
      && (forall k :: 0 <= k < |jobs| ==> WellFormedJob(jobs[k], k + 1))
      && (forall id :: id in proposals ==> WellFormedProposal(proposals[id]))
    }

    /** Consistent, and custody holds exactly what the jobs still hold. */
    ghost predicate Valid()
      reads this, token
    {
      Consistent() && Bal(token.bal, EscrowCustody) == HeldSum(jobs)
    }

    predicate HasJob(id: nat)
      reads this
    {
      1 <= id <= |jobs|
    }

    function JobAt(id: nat): Job
      reads this
      requires HasJob(id)
    {
      jobs[id - 1]
    }

    /** A fresh deployment: no admin, no fee, not paused, no jobs. */
    constructor (token: TokenLedger)
      requires Bal(token.bal, EscrowCustody) == 0
      ensures Valid()
      ensures this.token == token && admin == None && feeBps == 0 && !paused
      ensures jobs == [] && proposals == map[]
    {
      this.token := token;
      admin, feeBps, paused := None, 0, false;
      jobs, proposals := [], map[];
    }

    /**
     * Replaces job `k + 1` by `job`, given that custody already reflects
     * the new job's share.
     */
    method StoreJob(k: nat, job: Job)
      requires Consistent() && k < |jobs| && WellFormedJob(job, k + 1)
      requires Bal(token.bal, EscrowCustody) == HeldSum(jobs) - Held(jobs[k]) + Held(job)
      modifies this
      ensures Valid()
      ensures jobs == old(jobs)[k := job]
      ensures admin == old(admin) && feeBps == old(feeBps) && paused == old(paused)
      ensures proposals == old(proposals)
    {
      HeldSumUpdate(jobs, k, job);
      jobs := jobs[k := job];
    }

    /** Stores `job` under the next id; a Created job holds nothing in custody. */
    method AppendJob(job: Job)
      requires Valid() && WellFormedJob(job, |jobs| + 1) && job.status == Created
      modifies this
      ensures Valid()
      ensures jobs == old(jobs) + [job]
      ensures admin == old(admin) && feeBps == old(feeBps) && paused == old(paused)
      ensures proposals == old(proposals)
    {
      HeldSumAppend(jobs, job);
      jobs := jobs + [job];
    }

    /** Pays `amount` out of custody to `payee`, less the fee that goes to the treasury. */
    method Release(amount: int, payee: Address)
      requires amount >= 0 && feeBps <= MAX_FEE_BPS
      modifies token
      ensures token.bal == Released(old(token.bal), amount, feeBps, payee)
    {
      var fee := Fee(amount, feeBps);
      if fee > 0 {
        token.Transfer(EscrowCustody, Treasury, fee);
      }
      token.Transfer(EscrowCustody, User(payee), amount - fee);
    }

    // -------------------------------------------------------------------
    // Administration
    // -------------------------------------------------------------------

    /** One-time set-up; a fee above 10% is refused with InvalidStatus. */
    method Initialize(newAdmin: Address, fee: nat) returns (r: Result<(), EscrowError>)
      requires Valid()
      modifies this
      ensures Valid()
      ensures r == (if old(admin).Some? then Err(AlreadyInitialized)
                    else if fee > MAX_FEE_BPS then Err(InvalidStatus)
                    else Ok(()))
      ensures r.Err? ==> unchanged(this)
      ensures r.Ok? ==> admin == Some(newAdmin) && feeBps == fee && !paused
      ensures jobs == old(jobs) && proposals == old(proposals)
    {
      if admin.Some? {
        return Err(AlreadyInitialized);
      }
      if fee > MAX_FEE_BPS {
        return Err(InvalidStatus);
      }
      admin, feeBps, paused := Some(newAdmin), fee, false;
      r := Ok(());
    }

    method Pause(caller: Address) returns (r: Result<(), EscrowError>)
      requires Valid()
      modifies this
      ensures Valid()
      ensures r == (if old(admin) != Some(caller) then Err(NotAdmin) else Ok(()))
      ensures r.Err? ==> unchanged(this)
      ensures r.Ok? ==> paused
      ensures admin == old(admin) && feeBps == old(feeBps)
      ensures jobs == old(jobs) && proposals == old(proposals)
    {
      if admin != Some(caller) {
        return Err(NotAdmin);
      }
      paused := true;
      r := Ok(());
    }

    method Unpause(caller: Address) returns (r: Result<(), EscrowError>)
      requires Valid()
      modifies this
      ensures Valid()
      ensures r == (if old(admin) != Some(caller) then Err(NotAdmin) else Ok(()))
      ensures r.Err? ==> unchanged(this)
      ensures r.Ok? ==> !paused
      ensures admin == old(admin) && feeBps == old(feeBps)
      ensures jobs == old(jobs) && proposals == old(proposals)
    {
      if admin != Some(caller) {
        return Err(NotAdmin);
      }
      paused := false;
      r := Ok(());
    }

    /** The stored admin authorises the change; the fee stays at most 10%. */
    method SetFeeBps(newFee: nat) returns (r: Result<(), EscrowError>)
      requires Valid()
      modifies this
      ensures Valid()
      ensures r == (if old(admin).None? then Err(Unauthorized)
                    else if newFee > MAX_FEE_BPS then Err(InvalidStatus)
                    else Ok(()))
      ensures r.Err? ==> unchanged(this)
      ensures r.Ok? ==> feeBps == newFee
      ensures admin == old(admin) && paused == old(paused)
      ensures jobs == old(jobs) && proposals == old(proposals)
    {
      if admin.None? {
        return Err(Unauthorized);
      }
      if newFee > MAX_FEE_BPS {
        return Err(InvalidStatus);
      }
      feeBps := newFee;
      r := Ok(());
    }

    // -------------------------------------------------------------------
    // Job life cycle
    // -------------------------------------------------------------------

    /**
     * Stores a new job under the next id. Each requested milestone must be
     * due in `(now, jobDeadline]` and have a positive amount; the job total
     * is the sum of the amounts. Nothing moves in the asset.
     */
    method CreateJob(client: Address, freelancer: Address, specs: seq<MilestoneSpec>,
                     jobDeadline: nat, autoRefundAfter: nat, now: nat)
      returns (r: Result<nat, EscrowError>)
      requires Valid()
      modifies this
      ensures Valid()
      ensures r == (if old(paused) then Err(ContractPaused)
                    else if jobDeadline <= now then Err(InvalidDeadline)
                    else if FirstSpecError(specs, now, jobDeadline).Some?
                    then Err(FirstSpecError(specs, now, jobDeadline).value)
                    else Ok(|old(jobs)| + 1))
      ensures r.Err? ==> unchanged(this)
      ensures r.Ok? ==>
        jobs == old(jobs) + [Job(r.value, client, freelancer, SpecAmountSum(specs), Created,
                                 NewMilestones(specs), jobDeadline, autoRefundAfter)]
      ensures admin == old(admin) && feeBps == old(feeBps) && paused == old(paused)
      ensures proposals == old(proposals)
    {
      if paused {
        return Err(ContractPaused);
      }
      if jobDeadline <= now {
        return Err(InvalidDeadline);
      }
      var built := BuildMilestones(specs, now, jobDeadline);
      if built.Err? {
        return Err(built.error);
      }
      NewMilestonesAccepted(specs, now, jobDeadline);
      var job := Job(|jobs| + 1, client, freelancer, built.value.1, Created, built.value.0,
                     jobDeadline, autoRefundAfter);
      AppendJob(job);
      r := Ok(|jobs|);
    }

    /** The client moves the job total into custody; the job becomes Funded. */
    method FundJob(jobId: nat, client: Address) returns (r: Result<(), EscrowError>)
      requires Valid()
      modifies this, token
      ensures Valid()
      ensures r == (if old(paused) then Err(ContractPaused)
                    else if !old(HasJob(jobId)) then Err(JobNotFound)
                    else if old(JobAt(jobId)).client != client then Err(Unauthorized)
                    else if old(JobAt(jobId)).status != Created then Err(AlreadyFunded)
                    else Ok(()))
      ensures r.Err? ==> unchanged(this) && unchanged(token)
      ensures r.Ok? ==> var job := old(JobAt(jobId));
        && jobs == old(jobs)[jobId - 1 := job.(status := Funded)]
        && token.bal == Moved(old(token.bal), User(client), EscrowCustody, job.totalAmount)
      ensures admin == old(admin) && feeBps == old(feeBps) && paused == old(paused)
      ensures proposals == old(proposals)
    {
      if paused {
        return Err(ContractPaused);
      }
      if !HasJob(jobId) {
        return Err(JobNotFound);
      }
      var k := jobId - 1;
      var job := jobs[k];
      if job.client != client {
        return Err(Unauthorized);
      }
      if job.status != Created {
        return Err(AlreadyFunded);
      }
      assert WellFormedJob(job, jobId);
      NoneApprovedSum(job.milestones);
      token.Transfer(User(client), EscrowCustody, job.totalAmount);
      StoreJob(k, job.(status := Funded));
      r := Ok(());
    }

    /**
     * The freelancer marks a Pending or InProgress milestone of an active
     * job Submitted, no later than its deadline; the job becomes InProgress.
     */
    method SubmitMilestone(jobId: nat, idx: nat, freelancer: Address, now: nat)
      returns (r: Result<(), EscrowError>)
      requires Valid()
      modifies this
      ensures Valid()
      ensures r == (if old(paused) then Err(ContractPaused)
                    else if !old(HasJob(jobId)) then Err(JobNotFound)
                    else if old(JobAt(jobId)).freelancer != freelancer then Err(Unauthorized)
                    else if !IsActive(old(JobAt(jobId)).status) then Err(InvalidStatus)
                    else if idx >= |old(JobAt(jobId)).milestones| then Err(MilestoneNotFound)
                    else if !(old(JobAt(jobId)).milestones[idx].status in
                              {MilestoneStatus.Pending, MilestoneStatus.InProgress})
                    then Err(InvalidStatus)
                    else if now > old(JobAt(jobId)).milestones[idx].deadline
                    then Err(MilestoneDeadlineExceeded)
                    else Ok(()))
      ensures old(IsMilestoneOverdue(jobId, idx, now)) ==> r.Err?
      ensures r.Err? ==> unchanged(this)
      ensures r.Ok? ==> var job := old(JobAt(jobId));
        jobs == old(jobs)[jobId - 1 := job.(
          milestones := job.milestones[idx := job.milestones[idx].(status := Submitted)],
          status := JobStatus.InProgress)]
      ensures admin == old(admin) && feeBps == old(feeBps) && paused == old(paused)
      ensures proposals == old(proposals)
    {
      if paused {
        return Err(ContractPaused);
      }
      if !HasJob(jobId) {
        return Err(JobNotFound);
      }
      var k := jobId - 1;
      var job := jobs[k];
      if job.freelancer != freelancer {
        return Err(Unauthorized);
      }
      if !IsActive(job.status) {
        return Err(InvalidStatus);
      }
      if idx >= |job.milestones| {
        return Err(MilestoneNotFound);
      }
      var m := job.milestones[idx];
      if m.status != MilestoneStatus.Pending && m.status != MilestoneStatus.InProgress {
        return Err(InvalidStatus);
      }
      if now > m.deadline {
        return Err(MilestoneDeadlineExceeded);
      }
      var m' := m.(status := Submitted);
      var job' := job.(milestones := job.milestones[idx := m'], status := JobStatus.InProgress);
      assert WellFormedJob(job, jobId);
      ApprovedSumUpdate(job.milestones, idx, m');
      AmountSumUpdate(job.milestones, idx, m');
      StoreJob(k, job');
      r := Ok(());
    }

    /**
     * The client approves a Submitted milestone of an active job: the fee
     * goes to the treasury, the rest to the freelancer, and the job is
     * Completed once every milestone is approved.
     */
    method ApproveMilestone(jobId: nat, idx: nat, client: Address) returns (r: Result<(), EscrowError>)
      requires Valid()
      modifies this, token
      ensures Valid()
      ensures r == (if old(paused) then Err(ContractPaused)
                    else if !old(HasJob(jobId)) then Err(JobNotFound)
                    else if old(JobAt(jobId)).client != client then Err(Unauthorized)
                    else if !IsActive(old(JobAt(jobId)).status) then Err(InvalidStatus)
                    else if idx >= |old(JobAt(jobId)).milestones| then Err(MilestoneNotFound)
                    else if !old(JobAt(jobId)).milestones[idx].status.Submitted? then Err(InvalidStatus)
                    else Ok(()))
      ensures r.Err? ==> unchanged(this) && unchanged(token)
      ensures r.Ok? ==>
        var job := old(JobAt(jobId));
        var m := job.milestones[idx];
        && m.amount > 0
        && jobs == old(jobs)[jobId - 1 := WithApproved(job, job.milestones[idx := m.(status := Approved)])]
        && token.bal == Released(old(token.bal), m.amount, old(feeBps), job.freelancer)
      ensures admin == old(admin) && feeBps == old(feeBps) && paused == old(paused)
      ensures proposals == old(proposals)
    {
      if paused {
        return Err(ContractPaused);
      }
      if !HasJob(jobId) {
        return Err(JobNotFound);
      }
      var k := jobId - 1;
      var job := jobs[k];
      if job.client != client {
        return Err(Unauthorized);
      }
      if !IsActive(job.status) {
        return Err(InvalidStatus);
      }
      if idx >= |job.milestones| {
        return Err(MilestoneNotFound);
      }
      var m := job.milestones[idx];
      if !m.status.Submitted? {
        return Err(InvalidStatus);
      }
      assert WellFormedJob(job, jobId);
      Release(m.amount, job.freelancer);
      var m' := m.(status := Approved);
      var ms := job.milestones[idx := m'];
      ApprovedSumUpdate(job.milestones, idx, m');
      AmountSumUpdate(job.milestones, idx, m');
      ApprovalReleases(job, jobId, ms, m.amount);
      StoreJob(k, WithApproved(job, ms));
      r := Ok(());
    }

    /** Approves the listed, distinct Submitted milestones of active job `k + 1` and pays them out. */
    method CommitBatch(k: nat, indices: seq<nat>) returns (released: int)
      requires Valid() && k < |jobs| && IsActive(jobs[k].status)
      requires AllIndicesSubmitted(jobs[k].milestones, indices) && Distinct(indices)
      modifies this, token
      ensures Valid()
      ensures released == IndexedSum(old(jobs[k]).milestones, indices)
      ensures released > 0 <==> indices != []
      ensures var ms := ApplyBatch(old(jobs[k]).milestones, indices);
        && ApprovedSum(ms) == ApprovedSum(old(jobs[k]).milestones) + released
        && jobs == old(jobs)[k := WithApproved(old(jobs[k]), ms)]
      ensures token.bal == (if released > 0 then Released(old(token.bal), released, feeBps, old(jobs[k]).freelancer)
                            else old(token.bal))
      ensures admin == old(admin) && feeBps == old(feeBps) && paused == old(paused)
      ensures proposals == old(proposals)
    {
      var job := jobs[k];
      var ms := job.milestones;
      var cur;
      cur, released := ApproveListed(ms, indices);
      assert WellFormedJob(job, k + 1);
      IndexedSumPositive(ms, indices);
      BatchApprovedSum(ms, indices);
      ApplyBatchKeepsAmounts(ms, indices);
      ApprovalReleases(job, k + 1, cur, released);
      if released > 0 {
        Release(released, job.freelancer);
      }
      StoreJob(k, WithApproved(job, cur));
    }

    /**
     * Approves several Submitted milestones of an active job in one call and
     * returns the amount released. Every index is checked before anything
     * changes; a repeated index is refused.
     */
    method ApproveMilestonesBatch(jobId: nat, indices: seq<nat>, client: Address)
      returns (r: Result<int, EscrowError>)
      requires Valid()
      modifies this, token
      ensures Valid()
      ensures r == (if old(paused) then Err(ContractPaused)
                    else if !old(HasJob(jobId)) then Err(JobNotFound)
                    else if old(JobAt(jobId)).client != client then Err(Unauthorized)
                    else if !IsActive(old(JobAt(jobId)).status) then Err(InvalidStatus)
                    else if BatchError(old(JobAt(jobId)).milestones, indices).Some?
                    then Err(BatchError(old(JobAt(jobId)).milestones, indices).value)
                    else Ok(IndexedSum(old(JobAt(jobId)).milestones, indices)))
      ensures r.Err? ==> unchanged(this) && unchanged(token)
      ensures r.Ok? ==>
        var job := old(JobAt(jobId));
        var ms := ApplyBatch(job.milestones, indices);
        var released := r.value;
        && (released > 0 <==> indices != [])
        && ApprovedSum(ms) == ApprovedSum(job.milestones) + released
        && jobs == old(jobs)[jobId - 1 := WithApproved(job, ms)]
        && token.bal == (if released > 0 then Released(old(token.bal), released, old(feeBps), job.freelancer)
                         else old(token.bal))
      ensures admin == old(admin) && feeBps == old(feeBps) && paused == old(paused)
      ensures proposals == old(proposals)
    {
      if paused {
        return Err(ContractPaused);
      }
      if !HasJob(jobId) {
        return Err(JobNotFound);
      }
      var k := jobId - 1;
      var job := jobs[k];
      if job.client != client {
        return Err(Unauthorized);
      }
      if !IsActive(job.status) {
        return Err(InvalidStatus);
      }
      var ms := job.milestones;
      // Every index is checked before anything changes.
      var e := ValidateBatch(ms, indices);
      if e.Some? {
        return Err(e.value);
      }
      assert AllIndicesSubmitted(ms, indices);
      var released := CommitBatch(k, indices);
      r := Ok(released);
    }

    /**
     * The client cancels a job that is neither Completed nor Cancelled; the
     * unpaid part of a funded job goes back to the client.
     */
    method CancelJob(jobId: nat, client: Address) returns (r: Result<(), EscrowError>)
      requires Valid()
      modifies this, token
      ensures Valid()
      ensures r == (if old(paused) then Err(ContractPaused)
                    else if !old(HasJob(jobId)) then Err(JobNotFound)
                    else if old(JobAt(jobId)).client != client then Err(Unauthorized)
                    else if old(JobAt(jobId)).status in {Completed, Cancelled} then Err(InvalidStatus)
                    else Ok(()))
      ensures r.Err? ==> unchanged(this) && unchanged(token)
      ensures r.Ok? ==>
        var job := old(JobAt(jobId));
        && jobs == old(jobs)[jobId - 1 := job.(status := Cancelled)]
        && token.bal == (if Remaining(job) > 0 && IsActive(job.status)
                         then Moved(old(token.bal), EscrowCustody, User(client), Remaining(job))
                         else old(token.bal))
        && Bal(token.bal, User(client)) == Bal(old(token.bal), User(client)) + Held(job)
      ensures admin == old(admin) && feeBps == old(feeBps) && paused == old(paused)
      ensures proposals == old(proposals)
    {
      if paused {
        return Err(ContractPaused);
      }
      if !HasJob(jobId) {
        return Err(JobNotFound);
      }
      var k := jobId - 1;
      var job := jobs[k];
      if job.client != client {
        return Err(Unauthorized);
      }
      if job.status == Completed || job.status == Cancelled {
        return Err(InvalidStatus);
      }
      assert WellFormedJob(job, jobId);
      HeldNonNegative(job, jobId);
      var refund := job.totalAmount - ApprovedSum(job.milestones);
      if refund > 0 && (job.status == Funded || job.status == JobStatus.InProgress) {
        token.Transfer(EscrowCustody, User(client), refund);
      }
      StoreJob(k, job.(status := Cancelled));
      r := Ok(());
    }

    /**
     * After the job deadline plus the grace period, the client recovers the
     * unpaid part of an active job with no milestone awaiting approval.
     */
    method ClaimRefund(jobId: nat, client: Address, now: nat) returns (r: Result<(), EscrowError>)
      requires Valid()
      modifies this, token
      ensures Valid()
      ensures r == (if old(paused) then Err(ContractPaused)
                    else if !old(HasJob(jobId)) then Err(JobNotFound)
                    else if old(JobAt(jobId)).client != client then Err(Unauthorized)
                    else if !IsActive(old(JobAt(jobId)).status) then Err(InvalidStatus)
                    else if now < old(JobAt(jobId)).jobDeadline + old(JobAt(jobId)).autoRefundAfter
                    then Err(GracePeriodNotMet)
                    else if AnySubmitted(old(JobAt(jobId)).milestones) then Err(HasPendingMilestone)
                    else if Remaining(old(JobAt(jobId))) <= 0 then Err(NoRefundDue)
                    else Ok(()))
      ensures r.Err? ==> unchanged(this) && unchanged(token)
      ensures r.Ok? ==>
        var job := old(JobAt(jobId));
        && jobs == old(jobs)[jobId - 1 := job.(status := Cancelled)]
        && token.bal == Moved(old(token.bal), EscrowCustody, User(client), Remaining(job))
      ensures admin == old(admin) && feeBps == old(feeBps) && paused == old(paused)
      ensures proposals == old(proposals)
    {
      if paused {
        return Err(ContractPaused);
      }
      if !HasJob(jobId) {
        return Err(JobNotFound);
      }
      var k := jobId - 1;
      var job := jobs[k];
      if job.client != client {
        return Err(Unauthorized);
      }
      if job.status != Funded && job.status != JobStatus.InProgress {
        return Err(InvalidStatus);
      }
      if now < job.jobDeadline + job.autoRefundAfter {
        return Err(GracePeriodNotMet);
      }
      if AnySubmitted(job.milestones) {
        return Err(HasPendingMilestone);
      }
      var refund := job.totalAmount - ApprovedSum(job.milestones);
      if refund <= 0 {
        return Err(NoRefundDue);
      }
      token.Transfer(EscrowCustody, User(client), refund);
      StoreJob(k, job.(status := Cancelled));
      r := Ok(());
    }

    /** Why the settlement callback refuses `jobId`, if it does. */
    function CallbackError(jobId: nat): (e: Option<EscrowError>)
      reads this
      ensures e.None? <==> !paused && HasJob(jobId) && IsSettleable(JobAt(jobId).status)
    {
      if paused then Some(ContractPaused)
      else if !HasJob(jobId) then Some(JobNotFound)
      else if jobs[jobId - 1].status in {Created, Completed, Cancelled} then Some(InvalidStatus)
      else None
    }

    /** Pays out the unpaid part of job `k + 1` as `resolution` splits it and records the settled status. */
    method Settle(k: nat, resolution: DisputeResolution)
      requires Valid() && k < |jobs| && IsSettleable(jobs[k].status)
      modifies this, token
      ensures Valid()
      ensures jobs == old(jobs)[k := old(jobs[k]).(status := SettledStatus(old(jobs[k]).status, resolution))]
      ensures token.bal == SettledBalances(old(token.bal), old(jobs[k]), resolution)
      ensures admin == old(admin) && feeBps == old(feeBps) && paused == old(paused)
      ensures proposals == old(proposals)
    {
      var job := jobs[k];
      var remaining := job.totalAmount - ApprovedSum(job.milestones);
      var p := SettlementPayouts(remaining, resolution);
      if p.0 > 0 {
        token.Transfer(EscrowCustody, User(job.client), p.0);
      }
      if p.1 > 0 {
        token.Transfer(EscrowCustody, User(job.freelancer), p.1);
      }
      assert WellFormedJob(job, k + 1);
      SettlementConserves(job, k + 1, resolution);
      StoreJob(k, job.(status := SettledStatus(job.status, resolution)));
    }

    /**
     * Settlement requested by the dispute registry: pays the unpaid part of
     * the job as `SettlementPayouts` splits it and maps the outcome to the
     * job's new status. No caller is checked.
     */
    method ResolveDisputeCallback(jobId: nat, resolution: DisputeResolution)
      returns (r: Result<(), EscrowError>)
      requires Valid()
      modifies this, token
      ensures Valid()
      ensures r == (if old(CallbackError(jobId)).Some? then Err(old(CallbackError(jobId)).value) else Ok(()))
      ensures r.Err? ==> unchanged(this) && unchanged(token)
      ensures r.Ok? ==>
        var job := old(JobAt(jobId));
        && jobs == old(jobs)[jobId - 1 := job.(status := SettledStatus(job.status, resolution))]
        && token.bal == SettledBalances(old(token.bal), job, resolution)
      ensures admin == old(admin) && feeBps == old(feeBps) && paused == old(paused)
      ensures proposals == old(proposals)
    {
      if paused {
        return Err(ContractPaused);
      }
      if !HasJob(jobId) {
        return Err(JobNotFound);
      }
      var k := jobId - 1;
      var job := jobs[k];
      if job.status == Created || job.status == Completed || job.status == Cancelled {
        return Err(InvalidStatus);
      }
      Settle(k, resolution);
      r := Ok(());
    }

    /** True when the milestone exists and its deadline has passed. */
    function IsMilestoneOverdue(jobId: nat, idx: nat, now: nat): (overdue: bool)
      reads this
      ensures overdue <==>
        HasJob(jobId) && idx < |JobAt(jobId).milestones| && JobAt(jobId).milestones[idx].deadline < now
    {
      if HasJob(jobId) && idx < |jobs[jobId - 1].milestones| then now > jobs[jobId - 1].milestones[idx].deadline
      else false
    }

    /**
     * Moves one milestone's deadline to a future time; both parties
     * authorise it, so no caller is named.
     */
    method ExtendDeadline(jobId: nat, idx: nat, newDeadline: nat, now: nat)
      returns (r: Result<(), EscrowError>)
      requires Valid()
      modifies this
      ensures Valid()
      ensures r == (if old(paused) then Err(ContractPaused)
                    else if !old(HasJob(jobId)) then Err(JobNotFound)
                    else if newDeadline <= now then Err(InvalidDeadline)
                    else if idx >= |old(JobAt(jobId)).milestones| then Err(MilestoneNotFound)
                    else Ok(()))
      ensures r.Err? ==> unchanged(this)
      ensures r.Ok? ==> var job := old(JobAt(jobId));
        jobs == old(jobs)[jobId - 1 := job.(
          milestones := job.milestones[idx := job.milestones[idx].(deadline := newDeadline)])]
      ensures r.Ok? ==> !IsMilestoneOverdue(jobId, idx, now)
      ensures admin == old(admin) && feeBps == old(feeBps) && paused == old(paused)
      ensures proposals == old(proposals)
    {
      if paused {
        return Err(ContractPaused);
      }
      if !HasJob(jobId) {
        return Err(JobNotFound);
      }
      var k := jobId - 1;
      var job := jobs[k];
      if newDeadline <= now {
        return Err(InvalidDeadline);
      }
      if idx >= |job.milestones| {
        return Err(MilestoneNotFound);
      }
      var m' := job.milestones[idx].(deadline := newDeadline);
      var job' := job.(milestones := job.milestones[idx := m']);
      assert WellFormedJob(job, jobId);
      ApprovedSumUpdate(job.milestones, idx, m');
      AmountSumUpdate(job.milestones, idx, m');
      StoreJob(k, job');
      r := Ok(());
    }

    // -------------------------------------------------------------------
    // Revision proposals
    // -------------------------------------------------------------------

    /**
     * A party of the job proposes replacement milestones; at most one
     * proposal per job is Pending. The proposed amounts must be positive.
     */
    method ProposeRevision(caller: Address, jobId: nat, newMilestones: seq<Milestone>, now: nat)
      returns (r: Result<(), EscrowError>)
      requires Valid()
      modifies this
      ensures Valid()
      ensures r == (if !old(HasJob(jobId)) then Err(JobNotFound)
                    else if caller != old(JobAt(jobId)).client && caller != old(JobAt(jobId)).freelancer
                    then Err(NotAuthorizedForProposalAction)
                    else if jobId in old(proposals) && old(proposals)[jobId].status.Pending?
                    then Err(RevisionProposalAlreadyExists)
                    else if ProposalError(newMilestones).Some? then Err(ProposalError(newMilestones).value)
                    else Ok(()))
      ensures r.Err? ==> unchanged(this)
      ensures r.Ok? ==> proposals == old(proposals)[jobId := RevisionProposal(
        caller, newMilestones, AmountSum(newMilestones), ProposalStatus.Pending, now)]
      ensures admin == old(admin) && feeBps == old(feeBps) && paused == old(paused)
      ensures jobs == old(jobs)
    {
      if !HasJob(jobId) {
        return Err(JobNotFound);
      }
      var job := jobs[jobId - 1];
      if caller != job.client && caller != job.freelancer {
        return Err(NotAuthorizedForProposalAction);
      }
      if jobId in proposals && proposals[jobId].status == ProposalStatus.Pending {
        return Err(RevisionProposalAlreadyExists);
      }
      if newMilestones == [] {
        return Err(EmptyMilestonesProposed);
      }
      var newTotal := AmountSum(newMilestones);
      if newTotal <= 0 {
        return Err(ProposalTotalMismatch);
      }
      if !PositiveAmounts(newMilestones) {
        return Err(InvalidAmount);
      }
      proposals := proposals[jobId := RevisionProposal(caller, newMilestones, newTotal, ProposalStatus.Pending, now)];
      r := Ok(());
    }

    /**
     * Gives active job `k + 1` the milestones and total of its proposal,
     * which keeps the paid-out amount, moves the difference between the
     * client and custody and marks the proposal Accepted.
     */
    method ApplyRevision(k: nat)
      requires Valid() && k < |jobs| && k + 1 in proposals
      requires IsActive(jobs[k].status)
      requires ApprovedSum(proposals[k + 1].newMilestones) == ApprovedSum(jobs[k].milestones)
      modifies this, token
      ensures Valid()
      ensures var job := old(jobs[k]);
        var p := old(proposals[k + 1]);
        var delta := p.newTotal - job.totalAmount;
        && jobs == old(jobs)[k := job.(milestones := p.newMilestones, totalAmount := p.newTotal)]
        && proposals == old(proposals)[k + 1 := p.(status := Accepted)]
        && token.bal == (if delta > 0 then Moved(old(token.bal), User(job.client), EscrowCustody, delta)
                         else if delta < 0 then Moved(old(token.bal), EscrowCustody, User(job.client), -delta)
                         else old(token.bal))
      ensures admin == old(admin) && feeBps == old(feeBps) && paused == old(paused)
    {
      var job := jobs[k];
      var p := proposals[k + 1];
      var delta := p.newTotal - job.totalAmount;
      if delta > 0 {
        token.Transfer(User(job.client), EscrowCustody, delta);
      } else if delta < 0 {
        token.Transfer(EscrowCustody, User(job.client), -delta);
      }
      StoreJob(k, job.(milestones := p.newMilestones, totalAmount := p.newTotal));
      proposals := proposals[k + 1 := p.(status := Accepted)];
    }

    /**
     * The other party accepts a Pending proposal: the job takes the new
     * milestones and total and the difference moves between the client and
     * custody. Only an active job whose paid-out amount the proposal keeps
     * may be revised.
     */
    method AcceptRevision(caller: Address, jobId: nat) returns (r: Result<(), EscrowError>)
      requires Valid()
      modifies this, token
      ensures Valid()
      ensures r == (if !old(HasJob(jobId)) then Err(JobNotFound)
                    else if jobId !in old(proposals) then Err(RevisionProposalNotFound)
                    else if !old(proposals)[jobId].status.Pending? then Err(ProposalNotPending)
                    else if caller != old(JobAt(jobId)).client && caller != old(JobAt(jobId)).freelancer
                    then Err(NotAuthorizedForProposalAction)
                    else if caller == old(proposals)[jobId].proposer then Err(NotAuthorizedForProposalAction)
                    else if !IsActive(old(JobAt(jobId)).status)
                         || ApprovedSum(old(proposals)[jobId].newMilestones) != ApprovedSum(old(JobAt(jobId)).milestones)
                    then Err(InvalidStatus)
                    else Ok(()))
      ensures r.Err? ==> unchanged(this) && unchanged(token)
      ensures r.Ok? ==>
        var job := old(JobAt(jobId));
        var p := old(proposals)[jobId];
        var delta := p.newTotal - job.totalAmount;
        && jobs == old(jobs)[jobId - 1 := job.(milestones := p.newMilestones, totalAmount := p.newTotal)]
        && proposals == old(proposals)[jobId := p.(status := Accepted)]
        && token.bal == (if delta > 0 then Moved(old(token.bal), User(job.client), EscrowCustody, delta)
                         else if delta < 0 then Moved(old(token.bal), EscrowCustody, User(job.client), -delta)
                         else old(token.bal))
      ensures admin == old(admin) && feeBps == old(feeBps) && paused == old(paused)
    {
      if !HasJob(jobId) {
        return Err(JobNotFound);
      }
      var k := jobId - 1;
      var job := jobs[k];
      if jobId !in proposals {
        return Err(RevisionProposalNotFound);
      }
      var p := proposals[jobId];
      if p.status != ProposalStatus.Pending {
        return Err(ProposalNotPending);
      }
      if caller != job.client && caller != job.freelancer {
        return Err(NotAuthorizedForProposalAction);
      }
      if caller == p.proposer {
        return Err(NotAuthorizedForProposalAction);
      }
      if !IsActive(job.status) || ApprovedSum(p.newMilestones) != ApprovedSum(job.milestones) {
        return Err(InvalidStatus);
      }
      ApplyRevision(k);
      r := Ok(());
    }

    /** The other party rejects a Pending proposal; nothing else changes. */
    method RejectRevision(caller: Address, jobId: nat) returns (r: Result<(), EscrowError>)
      requires Valid()
      modifies this
      ensures Valid()
      ensures r == (if !old(HasJob(jobId)) then Err(JobNotFound)
                    else if jobId !in old(proposals) then Err(RevisionProposalNotFound)
                    else if !old(proposals)[jobId].status.Pending? then Err(ProposalNotPending)
                    else if caller != old(JobAt(jobId)).client && caller != old(JobAt(jobId)).freelancer
                    then Err(NotAuthorizedForProposalAction)
                    else if caller == old(proposals)[jobId].proposer then Err(NotAuthorizedForProposalAction)
                    else Ok(()))
      ensures r.Err? ==> unchanged(this)
      ensures r.Ok? ==> proposals == old(proposals)[jobId := old(proposals)[jobId].(status := Rejected)]
      ensures admin == old(admin) && feeBps == old(feeBps) && paused == old(paused)
      ensures jobs == old(jobs)
    {
      if !HasJob(jobId) {
        return Err(JobNotFound);
      }
      var job := jobs[jobId - 1];
      if jobId !in proposals {
        return Err(RevisionProposalNotFound);
      }
      var p := proposals[jobId];
      if p.status != ProposalStatus.Pending {
        return Err(ProposalNotPending);
      }
      if caller != job.client && caller != job.freelancer {
        return Err(NotAuthorizedForProposalAction);
      }
      if caller == p.proposer {
        return Err(NotAuthorizedForProposalAction);
      }
      proposals := proposals[jobId := p.(status := Rejected)];
      r := Ok(());
    }
  }
}
