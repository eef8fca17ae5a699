/**
 * The final round of `resolve_dispute` as the registry calls the escrow:
 * it passes the boolean "resolved for client" where the callback's
 * parameter is the outcome enumeration. A contract argument of one type
 * does not convert to another, so the callee traps before its body runs
 * and the failed call reverts the whole resolution. The corrected registry
 * passes `Outcome(d)` instead.
 */
module DisputeAsWritten {
  import opened Outcomes
  import opened EscrowSpec
  import opened DisputeSpec
  import opened DisputeRegistry

  /** An argument value crossing the contract boundary, with its type. */
  datatype CallbackArg = BoolArg(b: bool) | OutcomeArg(o: DisputeResolution)

  /**
   * The callee's conversion of its `resolution` argument: only a value of
   * the outcome enumeration converts, and to itself.
   */
  function DecodeOutcome(a: CallbackArg): (r: Option<DisputeResolution>)
    ensures r.Some? <==> a.OutcomeArg?
    ensures a.OutcomeArg? ==> r == Some(a.o)
  {
    match a
    case BoolArg(_) => None
    case OutcomeArg(o) => Some(o)
  }

  /** What the registry passes as written: `votes_for_client >= votes_for_freelancer`. */
  function CallbackArgAsWritten(d: Dispute): (a: CallbackArg)
    ensures a.BoolArg? && (a.b <==> ClientWinsVote(d))
  {
    BoolArg(d.votesForClient >= d.votesForFreelancer)
  }

  /**
   * `resolve_dispute` on dispute `k + 1` of `ds` as written, where `cb` is
   * why the escrow would refuse the settlement. `None` is a call that traps
   * and so changes nothing; it happens exactly when the final round is
   * reached with its quorum, because the argument never converts.
   */
  function ResolveAsWritten(ds: seq<Dispute>, k: nat, cb: Option<EscrowError>): (r: Option<Result<DisputeStatus, DisputeError>>)
    requires k < |ds|
    ensures r.None? <==>
      && ds[k].status != FinalResolution
      && ds[k].votesForClient + ds[k].votesForFreelancer >= RequiredVotes(ds[k].minVotes, ds[k].appealCount)
      && ds[k].appealCount >= ds[k].maxAppeals
    ensures r.Some? ==> ResolvedAs(ds, k, cb, r.value)
  {
    var d := ds[k];
    if d.status == FinalResolution then Some(Err(AlreadyResolved))
    else if d.votesForClient + d.votesForFreelancer < RequiredVotes(d.minVotes, d.appealCount) then Some(Err(NotEnoughVotes))
    // The final round calls the escrow with `CallbackArgAsWritten(d)`,
    // which the callee cannot convert (`FinalRoundAlwaysReverts`).
    else if d.appealCount >= d.maxAppeals then None
    else Some(Ok(ResolvedStatus(d)))
  }

  /**
   * As written no dispute ever reaches FinalResolution: every final round
   * with its quorum traps. Passing `Outcome(d)` converts, and the result is
   * then the one the corrected registry's `ResolveDispute` promises.
   */
  lemma FinalRoundAlwaysReverts(ds: seq<Dispute>, k: nat, cb: Option<EscrowError>)
    requires k < |ds| && ds[k].status != FinalResolution
    requires ds[k].votesForClient + ds[k].votesForFreelancer >= RequiredVotes(ds[k].minVotes, ds[k].appealCount)
    requires ds[k].appealCount >= ds[k].maxAppeals
    ensures DecodeOutcome(CallbackArgAsWritten(ds[k])).None?
    ensures ResolveAsWritten(ds, k, cb).None?
    ensures DecodeOutcome(OutcomeArg(Outcome(ds[k]))) == Some(Outcome(ds[k]))
    ensures ResolvedAs(ds, k, cb, if cb.Some? then Err(CallbackFailed(cb.value)) else Ok(FinalResolution))
  {
  }
}
