/**
 * The Dispute Registry: disputes raised on escrow jobs, votes by third
 * parties, resolution with a quorum that doubles with each appeal, the
 * escrow settlement callback on the final resolution, the fee and penalty
 * stake payouts, and per-voter rewards out of the dispute fee.
 *
 * Besides the stored state, the registry keeps ghost bookkeeping of the
 * rewards it pays: who claimed in the current voting round, what that round
 * paid, and what all rounds of a dispute paid. `Valid` ties that bookkeeping
 * to the fee, so that one round never pays more than the fee.
 */
module DisputeRegistry {
  import opened Token
  import opened Outcomes
  import opened EscrowSpec
  import opened Escrow
  import opened DisputeSpec
  import opened Arith

  /** The status a resolution gives a dispute that passed the quorum check. */
  function ResolvedStatus(d: Dispute): (s: DisputeStatus)
    ensures IsResolved(s)
    ensures s == FinalResolution <==> d.appealCount >= d.maxAppeals
    ensures s == ResolvedForClient <==> d.appealCount < d.maxAppeals && ClientWinsVote(d)
  {
    if d.appealCount >= d.maxAppeals then FinalResolution
    else if d.votesForClient >= d.votesForFreelancer then ResolvedForClient
    else ResolvedForFreelancer
  }

  /** The dispute after a vote for `c`: one more for that side, and voting under way. */
  function Tallied(d: Dispute, c: VoteChoice): (d': Dispute)
    ensures d'.votesForClient + d'.votesForFreelancer == d.votesForClient + d.votesForFreelancer + 1
    ensures c == ForClient ==> d'.votesForClient == d.votesForClient + 1 && d'.votesForFreelancer == d.votesForFreelancer
    ensures c == ForFreelancer ==> d'.votesForFreelancer == d.votesForFreelancer + 1 && d'.votesForClient == d.votesForClient
    ensures d'.status == Voting
    ensures d' == d.(status := Voting, votesForClient := d'.votesForClient, votesForFreelancer := d'.votesForFreelancer)
  {
    match c
    case ForClient => d.(status := Voting, votesForClient := d.votesForClient + 1)
    case ForFreelancer => d.(status := Voting, votesForFreelancer := d.votesForFreelancer + 1)
  }

  /** Only the side a resolution went against may appeal it. */
  predicate IsLosingParty(d: Dispute, a: Address) {
    match d.status
    case ResolvedForClient => a == d.freelancer
    case ResolvedForFreelancer => a == d.client
    case _ => false
  }

  /** The outcome the final resolution asks the escrow to settle. */
  function Outcome(d: Dispute): DisputeResolution {
    if ClientWinsVote(d) then ClientWins else FreelancerWins
  }

  /**
   * The result of resolving dispute `k + 1` of `ds`, where `cb` is why the
   * escrow would refuse to settle its job: already final, short of the
   * round's quorum, refused by the escrow in the final round, or the new
   * status.
   */
  predicate ResolvedAs(ds: seq<Dispute>, k: nat, cb: Option<EscrowError>, r: Result<DisputeStatus, DisputeError>) {
    k < |ds| &&
    var d := ds[k];
    r == (if d.status == FinalResolution then Err(AlreadyResolved)
          else if d.votesForClient + d.votesForFreelancer < RequiredVotes(d.minVotes, d.appealCount)
          then Err(NotEnoughVotes)
          else if d.appealCount >= d.maxAppeals && cb.Some? then Err(CallbackFailed(cb.value))
          else Ok(ResolvedStatus(d)))
  }

  /** The dispute, its votes and reward bookkeeping agree. */
  ghost predicate WellFormedDispute(d: Dispute, id: nat, vs: seq<Vote>) {
    && d.id == id
    && d.minVotes >= MIN_VOTES_FLOOR
    && d.maxAppeals == MAX_APPEALS
    && d.appealCount <= d.maxAppeals
    && (d.status == FinalResolution ==> d.appealCount >= d.maxAppeals)
    && (d.status == ResolvedForClient || d.status == ResolvedForFreelancer ==> d.appealCount < d.maxAppeals)
    && (d.status == ResolvedForClient ==> ClientWinsVote(d))
    && (d.status == ResolvedForFreelancer ==> !ClientWinsVote(d))
    && d.votesForClient == CountChoice(vs, ForClient)
    && d.votesForFreelancer == CountChoice(vs, ForFreelancer)
    && DistinctVoters(vs)
  }

  /**
   * Reward bookkeeping of one dispute: nobody has claimed in a round that is
   * still voting, claimers voted for the winning side, the round paid one
   * share per claimer, and all rounds together paid at most one fee per
   * earlier round on top of the current round.
   */
  ghost predicate RoundAccounting(d: Dispute, vs: seq<Vote>, claimers: set<Address>, roundPaid: int, paid: int) {
    && (IsVotingOpen(d.status) ==> claimers == {})
    && claimers <= VotersWith(vs, WinningChoice(d))
    && roundPaid == Repeated(|claimers|, RewardShare(d))
    && paid <= Repeated(d.appealCount, FeeCap(d)) + roundPaid
  }

  /**
   * One stored dispute is consistent: with its votes, with its reward
   * bookkeeping, and with the voted and rewarded flags.
   */
  ghost predicate EntryOk(id: nat, d: Dispute, vs: seq<Vote>, claimers: set<Address>, roundPaid: int, paid: int,
                          hasVoted: set<(nat, Address)>, rewarded: set<(nat, Address)>) {
    && WellFormedDispute(d, id, vs)
    && RoundAccounting(d, vs, claimers, roundPaid, paid)
    && (forall i :: 0 <= i < |vs| ==> (id, vs[i].voter) in hasVoted)
    && (forall a :: a in claimers ==> (id, a) in rewarded)
  }

  /** Adding flags keeps an entry consistent. */
  lemma EntryOkMonotone(id: nat, d: Dispute, vs: seq<Vote>, claimers: set<Address>, roundPaid: int, paid: int,
                        hv: set<(nat, Address)>, rw: set<(nat, Address)>,
                        hv': set<(nat, Address)>, rw': set<(nat, Address)>)
    requires EntryOk(id, d, vs, claimers, roundPaid, paid, hv, rw)
    requires hv <= hv' && rw <= rw'
    ensures EntryOk(id, d, vs, claimers, roundPaid, paid, hv', rw')
  {
  }

  /** Every stored dispute's entry is consistent, entry `k` being dispute `k + 1`. */
  ghost predicate EntriesOk(ds: seq<Dispute>, vss: seq<seq<Vote>>, cls: seq<set<Address>>, rps: seq<int>,
                            pds: seq<int>, hv: set<(nat, Address)>, rw: set<(nat, Address)>)
    requires |vss| == |cls| == |rps| == |pds| == |ds|
  {
    forall k :: 0 <= k < |ds| ==> EntryOk(k + 1, ds[k], vss[k], cls[k], rps[k], pds[k], hv, rw)
  }

  /** Replacing one consistent entry, with flag sets that only grow, keeps every entry consistent. */
  lemma EntriesPut(ds: seq<Dispute>, vss: seq<seq<Vote>>, cls: seq<set<Address>>, rps: seq<int>, pds: seq<int>,
                   hv: set<(nat, Address)>, rw: set<(nat, Address)>,
                   k: nat, d: Dispute, vs: seq<Vote>, claimers: set<Address>, rp: int, paid: int,
                   hv': set<(nat, Address)>, rw': set<(nat, Address)>)
    requires |vss| == |cls| == |rps| == |pds| == |ds| && k < |ds|
    requires EntriesOk(ds, vss, cls, rps, pds, hv, rw)
    requires hv <= hv' && rw <= rw'
    requires EntryOk(k + 1, d, vs, claimers, rp, paid, hv', rw')
    ensures EntriesOk(ds[k := d], vss[k := vs], cls[k := claimers], rps[k := rp], pds[k := paid], hv', rw')
  {
    var ds', vss', cls', rps', pds' := ds[k := d], vss[k := vs], cls[k := claimers], rps[k := rp], pds[k := paid];
    forall j | 0 <= j < |ds'|
      ensures EntryOk(j + 1, ds'[j], vss'[j], cls'[j], rps'[j], pds'[j], hv', rw')
    {
      if j != k {
        EntryOkMonotone(j + 1, ds[j], vss[j], cls[j], rps[j], pds[j], hv, rw, hv', rw');
      }
    }
  }

  /** A resolution keeps the winning side and the share of an already resolved dispute. */
  lemma ResolutionKeepsWinner(d: Dispute, d': Dispute)
    requires d.status == ResolvedForClient ==> ClientWinsVote(d)
    requires d.status == ResolvedForFreelancer ==> !ClientWinsVote(d)
    requires d'.status == ResolvedForClient ==> ClientWinsVote(d')
    requires d'.votesForClient == d.votesForClient && d'.votesForFreelancer == d.votesForFreelancer
    requires d'.fee == d.fee
    ensures WinningChoice(d') == WinningChoice(d)
    ensures RewardShare(d') == RewardShare(d) && FeeCap(d') == FeeCap(d)
  {
  }

  // ---------------------------------------------------------------------
  // Each operation keeps a dispute's entry consistent
  // ---------------------------------------------------------------------

  /** A fresh dispute, with no votes and nothing paid, is consistent. */
  lemma NewEntryOk(id: nat, d: Dispute, hv: set<(nat, Address)>, rw: set<(nat, Address)>)
    requires d.id == id && d.status == Open && d.votesForClient == 0 && d.votesForFreelancer == 0
    requires d.minVotes >= MIN_VOTES_FLOOR && d.maxAppeals == MAX_APPEALS && d.appealCount == 0
    ensures EntryOk(id, d, [], {}, 0, 0, hv, rw)
  {
  }

  /** A vote in an open round by someone not yet flagged keeps the entry consistent. */
  lemma VoteKeepsEntry(id: nat, d: Dispute, vs: seq<Vote>, claimers: set<Address>, roundPaid: int, paid: int,
                       hv: set<(nat, Address)>, rw: set<(nat, Address)>, v: Vote)
    requires EntryOk(id, d, vs, claimers, roundPaid, paid, hv, rw)
    requires IsVotingOpen(d.status) && (id, v.voter) !in hv
    ensures claimers == {} && roundPaid == 0
    ensures EntryOk(id, Tallied(d, v.choice), vs + [v], claimers, roundPaid, paid, hv + {(id, v.voter)}, rw)
  {
    var vs' := vs + [v];
    assert vs'[..|vs'| - 1] == vs;
    assert forall i :: 0 <= i < |vs| ==> vs'[i] == vs[i];
  }

  /** A resolution keeps the entry consistent, whatever the previous non-final status. */
  lemma ResolveKeepsEntry(id: nat, d: Dispute, vs: seq<Vote>, claimers: set<Address>, roundPaid: int, paid: int,
                          hv: set<(nat, Address)>, rw: set<(nat, Address)>,
                          now: nat, deadline: nat, malicious: bool)
    requires EntryOk(id, d, vs, claimers, roundPaid, paid, hv, rw)
    requires d.status != FinalResolution
    ensures EntryOk(id, d.(status := ResolvedStatus(d), resolvedAt := now, appealDeadline := deadline,
                           malicious := malicious),
                    vs, claimers, roundPaid, paid, hv, rw)
  {
    var d' := d.(status := ResolvedStatus(d), resolvedAt := now, appealDeadline := deadline, malicious := malicious);
    if !IsVotingOpen(d.status) {
      ResolutionKeepsWinner(d, d');
    }
  }

  /**
   * An appeal starts an empty round; what earlier rounds paid stays within
   * one fee per round because the closed round paid at most one fee.
   */
  lemma AppealKeepsEntry(id: nat, d: Dispute, vs: seq<Vote>, claimers: set<Address>, roundPaid: int, paid: int,
                         hv: set<(nat, Address)>, rw: set<(nat, Address)>)
    requires EntryOk(id, d, vs, claimers, roundPaid, paid, hv, rw)
    requires d.appealCount < d.maxAppeals
    ensures EntryOk(id, d.(appealCount := d.appealCount + 1, status := Appealed,
                           votesForClient := 0, votesForFreelancer := 0),
                    [], {}, 0, paid, hv, rw)
  {
    RoundRewardsWithinFee(d, vs, claimers);
  }

  /** A reward paid to a winning voter not yet rewarded keeps the entry consistent. */
  lemma ClaimKeepsEntry(id: nat, d: Dispute, vs: seq<Vote>, claimers: set<Address>, roundPaid: int, paid: int,
                        hv: set<(nat, Address)>, rw: set<(nat, Address)>, voter: Address)
    requires EntryOk(id, d, vs, claimers, roundPaid, paid, hv, rw)
    requires IsResolved(d.status)
    requires (id, voter) !in rw && voter in VotersWith(vs, WinningChoice(d))
    ensures EntryOk(id, d, vs, claimers + {voter}, roundPaid + RewardShare(d), paid + RewardShare(d),
                    hv, rw + {(id, voter)})
  {
    assert voter !in claimers;
    assert |claimers + {voter}| == |claimers| + 1;
  }

  /** Searches `vs` for a vote by `voter` for `c`. */
  method HasVoteFor(vs: seq<Vote>, voter: Address, c: VoteChoice) returns (found: bool)
    ensures found <==> voter in VotersWith(vs, c)
  {
    var i := 0;
    while i < |vs|
      invariant 0 <= i <= |vs|
      invariant forall j :: 0 <= j < i ==> !(vs[j].voter == voter && vs[j].choice == c)
    {
      if vs[i].voter == voter && vs[i].choice == c {
        return true;
      }
      i := i + 1;
    }
    return false;
  }

  class Registry {
    /** The asset fees, stakes and rewards are paid in. */
    const token: TokenLedger
    var admin: Option<Address>
    var threshold: Option<nat>
    /** Dispute `id` is `disputes[id - 1]`; its current round's votes are `votes[id - 1]`. */
    var disputes: seq<Dispute>
    var votes: seq<seq<Vote>>
    /** `(id, voter)` once `voter` has voted on dispute `id`; never cleared. */
    var hasVoted: set<(nat, Address)>
    /** `(id, voter)` once `voter` has been paid a reward for dispute `id`; never cleared. */
    var rewarded: set<(nat, Address)>
    ghost var roundClaimers: seq<set<Address>>
    ghost var roundPaid: seq<int>
    ghost var rewardsPaid: seq<int>

    ghost predicate Shaped()
      reads this
    {
      && |votes| == |disputes|
      && |roundClaimers| == |disputes|
      && |roundPaid| == |disputes|
      && |rewardsPaid| == |disputes|
    }

    ghost predicate Valid()
      reads this
    {
      && Shaped()
      && EntriesOk(disputes, votes, roundClaimers, roundPaid, rewardsPaid, hasVoted, rewarded)
    }

    /** Stores a new dispute with an empty round. */
    method Append(d: Dispute)
      requires Valid()
      requires EntryOk(|disputes| + 1, d, [], {}, 0, 0, hasVoted, rewarded)
      modifies this
      ensures Valid()
      ensures disputes == old(disputes) + [d] && votes == old(votes) + [[]]
      ensures roundClaimers == old(roundClaimers) + [{}]
      ensures roundPaid == old(roundPaid) + [0] && rewardsPaid == old(rewardsPaid) + [0]
      ensures hasVoted == old(hasVoted) && rewarded == old(rewarded)
      ensures admin == old(admin) && threshold == old(threshold)
    {
      disputes := disputes + [d];
      votes := votes + [[]];
      roundClaimers := roundClaimers + [{}];
      roundPaid := roundPaid + [0];
      rewardsPaid := rewardsPaid + [0];
    }

    /** Stores entry `k` and the flag sets; flags only ever grow. */
    method Put(k: nat, d: Dispute, vs: seq<Vote>, ghost claimers: set<Address>, ghost rp: int, ghost paid: int,
               hv: set<(nat, Address)>, rw: set<(nat, Address)>)
      requires Valid() && k < |disputes|
      requires hasVoted <= hv && rewarded <= rw
      requires EntryOk(k + 1, d, vs, claimers, rp, paid, hv, rw)
      modifies this
      ensures Valid()
      ensures disputes == old(disputes)[k := d] && votes == old(votes)[k := vs]
      ensures roundClaimers == old(roundClaimers)[k := claimers]
      ensures roundPaid == old(roundPaid)[k := rp] && rewardsPaid == old(rewardsPaid)[k := paid]
      ensures hasVoted == hv && rewarded == rw
      ensures admin == old(admin) && threshold == old(threshold)
    {
      EntriesPut(disputes, votes, roundClaimers, roundPaid, rewardsPaid, hasVoted, rewarded,
                 k, d, vs, claimers, rp, paid, hv, rw);
      disputes := disputes[k := d];
      votes := votes[k := vs];
      roundClaimers := roundClaimers[k := claimers];
      roundPaid := roundPaid[k := rp];
      rewardsPaid := rewardsPaid[k := paid];
      hasVoted := hv;
      rewarded := rw;
    }

    /** The reward bookkeeping: claimers and payout of each current round, and payout of all rounds. */
    ghost function Bookkeeping(): (seq<set<Address>>, seq<int>, seq<int>)
      reads this
    {
      (roundClaimers, roundPaid, rewardsPaid)
    }

    /**
     * The bookkeeping once `voter` is paid `amount` from dispute `k + 1`:
     * a claimer more in its round, and `amount` more paid in the round and
     * in all.
     */
    ghost function Booked(k: nat, voter: Address, amount: int): (b: (seq<set<Address>>, seq<int>, seq<int>))
      reads this
      requires Shaped() && k < |disputes|
      ensures |b.0| == |b.1| == |b.2| == |disputes|
      ensures b.0[k] == roundClaimers[k] + {voter}
      ensures b.1[k] == roundPaid[k] + amount && b.2[k] == rewardsPaid[k] + amount
      ensures forall j :: 0 <= j < |disputes| && j != k ==>
        b.0[j] == roundClaimers[j] && b.1[j] == roundPaid[j] && b.2[j] == rewardsPaid[j]
    {
      (roundClaimers[k := roundClaimers[k] + {voter}], roundPaid[k := roundPaid[k] + amount],
       rewardsPaid[k := rewardsPaid[k] + amount])
    }

    predicate HasDispute(id: nat)
      reads this
    {
      1 <= id <= |disputes|
    }

    function DisputeAt(id: nat): Dispute
      reads this
      requires HasDispute(id)
    {
      disputes[id - 1]
    }

    /** The malicious threshold in percent; 80 until one is configured. */
    function Threshold(): nat
      reads this
    {
      if threshold.Some? then threshold.value else DEFAULT_THRESHOLD
    }

    constructor (token: TokenLedger)
      ensures Valid()
      ensures this.token == token
      ensures admin == None && threshold == None
      ensures disputes == [] && votes == [] && hasVoted == {} && rewarded == {}
    {
      this.token := token;
      admin := None;
      threshold := None;
      disputes := [];
      votes := [];
      hasVoted := {};
      rewarded := {};
      roundClaimers := [];
      roundPaid := [];
      rewardsPaid := [];
    }

    /** Configures the admin and threshold once. */
    method Initialize(newAdmin: Address, newThreshold: nat) returns (r: Result<(), DisputeError>)
      requires Valid()
      modifies this
      ensures Valid()
      ensures r == (if old(admin).Some? then Err(AlreadyConfigured) else Ok(()))
      ensures r.Ok? ==> admin == Some(newAdmin) && threshold == Some(newThreshold)
      ensures r.Err? ==> admin == old(admin) && threshold == old(threshold)
      ensures disputes == old(disputes) && votes == old(votes)
      ensures hasVoted == old(hasVoted) && rewarded == old(rewarded)
      ensures roundClaimers == old(roundClaimers) && roundPaid == old(roundPaid) && rewardsPaid == old(rewardsPaid)
    {
      if admin.Some? {
        return Err(AlreadyConfigured);
      }
      admin := Some(newAdmin);
      threshold := Some(newThreshold);
      r := Ok(());
    }

    method SetMaliciousThreshold(newThreshold: nat) returns (r: Result<(), DisputeError>)
      requires Valid()
      modifies this
      ensures Valid()
      ensures r == (if old(admin).None? then Err(NotConfigured) else Ok(()))
      ensures threshold == (if r.Ok? then Some(newThreshold) else old(threshold))
      ensures admin == old(admin)
      ensures disputes == old(disputes) && votes == old(votes)
      ensures hasVoted == old(hasVoted) && rewarded == old(rewarded)
      ensures roundClaimers == old(roundClaimers) && roundPaid == old(roundPaid) && rewardsPaid == old(rewardsPaid)
    {
      if admin.None? {
        return Err(NotConfigured);
      }
      threshold := Some(newThreshold);
      r := Ok(());
    }

    method SetAdmin(newAdmin: Address) returns (r: Result<(), DisputeError>)
      requires Valid()
      modifies this
      ensures Valid()
      ensures r == (if old(admin).None? then Err(NotConfigured) else Ok(()))
      ensures admin == (if r.Ok? then Some(newAdmin) else old(admin))
      ensures threshold == old(threshold)
      ensures disputes == old(disputes) && votes == old(votes)
      ensures hasVoted == old(hasVoted) && rewarded == old(rewarded)
      ensures roundClaimers == old(roundClaimers) && roundPaid == old(roundPaid) && rewardsPaid == old(rewardsPaid)
    {
      if admin.None? {
        return Err(NotConfigured);
      }
      admin := Some(newAdmin);
      r := Ok(());
    }

    /**
     * The view `is_malicious_dispute`: only a dispute resolved for a side,
     * and not a final one, can be reported malicious.
     */
    function IsMaliciousDispute(id: nat): (r: Result<bool, DisputeError>)
      reads this
      ensures r.Err? <==> !HasDispute(id)
      ensures r.Err? ==> r.error == DisputeNotFound
      ensures r.Ok? ==>
        (r.value <==> (DisputeAt(id).status == ResolvedForClient || DisputeAt(id).status == ResolvedForFreelancer)
                      && ExceedsThreshold(DisputeAt(id), Threshold()))
    {
      if !HasDispute(id) then Err(DisputeNotFound)
      else
        var d := disputes[id - 1];
        if d.status != ResolvedForClient && d.status != ResolvedForFreelancer then Ok(false)
        else
          var total := d.votesForClient + d.votesForFreelancer;
          if total == 0 then Ok(false)
          else
            var against := if d.initiator == d.client then d.votesForFreelancer else d.votesForClient;
            Ok(against * 100 / total > Threshold())
    }

    /**
     * Opens dispute number `|disputes| + 1` for a job; the initiator, who
     * must be one of the two parties, pays the fee and the penalty stake
     * into the registry's custody.
     */
    method RaiseDispute(jobId: nat, client: Address, freelancer: Address, initiator: Address,
                        minVotes: nat, fee: int, stake: int, now: nat)
      returns (r: Result<nat, DisputeError>)
      requires Valid()
      modifies this, token
      ensures Valid()
      ensures r == (if initiator != client && initiator != freelancer then Err(InvalidParty)
                    else Ok(|old(disputes)| + 1))
      ensures r.Err? ==> unchanged(this) && unchanged(token)
      ensures r.Ok? ==>
        && disputes == old(disputes) + [Dispute(r.value, jobId, client, freelancer, initiator, Open, 0, 0,
                                                if minVotes < MIN_VOTES_FLOOR then MIN_VOTES_FLOOR else minVotes,
                                                stake, now, 0, MAX_APPEALS, 0, 0, fee, false)]
        && votes == old(votes) + [[]]
        && roundClaimers == old(roundClaimers) + [{}]
        && roundPaid == old(roundPaid) + [0] && rewardsPaid == old(rewardsPaid) + [0]
        && token.bal == MovedIfPositive(MovedIfPositive(old(token.bal), User(initiator), RegistryCustody, fee),
                                        User(initiator), RegistryCustody, stake)
      ensures hasVoted == old(hasVoted) && rewarded == old(rewarded)
      ensures admin == old(admin) && threshold == old(threshold)
    {
      if initiator != client && initiator != freelancer {
        return Err(InvalidParty);
      }
      if fee > 0 {
        token.Transfer(User(initiator), RegistryCustody, fee);
      }
      if stake > 0 {
        token.Transfer(User(initiator), RegistryCustody, stake);
      }
      var id := |disputes| + 1;
      var d := Dispute(id, jobId, client, freelancer, initiator, Open, 0, 0,
                       if minVotes < MIN_VOTES_FLOOR then MIN_VOTES_FLOOR else minVotes,
                       stake, now, 0, MAX_APPEALS, 0, 0, fee, false);
      NewEntryOk(id, d, hasVoted, rewarded);
      Append(d);
      r := Ok(id);
    }

    /** Adds a first vote on open dispute `k + 1` to its round and tallies and flags the voter. */
    method RecordVote(k: nat, v: Vote)
      requires Valid() && k < |disputes| && IsVotingOpen(disputes[k].status) && (k + 1, v.voter) !in hasVoted
      modifies this
      ensures Valid()
      ensures disputes == old(disputes)[k := Tallied(old(disputes[k]), v.choice)]
      ensures votes == old(votes)[k := old(votes[k]) + [v]]
      ensures hasVoted == old(hasVoted) + {(k + 1, v.voter)}
      ensures rewarded == old(rewarded)
      ensures roundClaimers == old(roundClaimers) && roundPaid == old(roundPaid) && rewardsPaid == old(rewardsPaid)
      ensures admin == old(admin) && threshold == old(threshold)
    {
      VoteKeepsEntry(k + 1, disputes[k], votes[k], roundClaimers[k], roundPaid[k], rewardsPaid[k],
                     hasVoted, rewarded, v);
      Put(k, Tallied(disputes[k], v.choice), votes[k] + [v], roundClaimers[k], roundPaid[k], rewardsPaid[k],
          hasVoted + {(k + 1, v.voter)}, rewarded);
    }

    /**
     * Records a vote by a third party who has not voted on the dispute
     * before, in any round, and adds one to the chosen side's tally.
     */
    method CastVote(id: nat, voter: Address, choice: VoteChoice, now: nat) returns (r: Result<(), DisputeError>)
      requires Valid()
      modifies this
      ensures Valid()
      ensures r == (if !old(HasDispute(id)) then Err(DisputeNotFound)
                    else var d := old(DisputeAt(id));
                    if !IsVotingOpen(d.status) then Err(VotingClosed)
                    else if voter == d.client || voter == d.freelancer then Err(InvalidParty)
                    else if (id, voter) in old(hasVoted) then Err(AlreadyVoted)
                    else Ok(()))
      ensures r.Err? ==> unchanged(this)
      ensures r.Ok? ==>
        var d := old(DisputeAt(id));
        && disputes == old(disputes)[id - 1 := d.(
             status := Voting,
             votesForClient := d.votesForClient + (if choice == ForClient then 1 else 0),
             votesForFreelancer := d.votesForFreelancer + (if choice == ForFreelancer then 1 else 0))]
        && votes == old(votes)[id - 1 := old(votes)[id - 1] + [Vote(voter, choice, now)]]
        && hasVoted == old(hasVoted) + {(id, voter)}
      ensures rewarded == old(rewarded)
      ensures roundClaimers == old(roundClaimers) && roundPaid == old(roundPaid) && rewardsPaid == old(rewardsPaid)
      ensures admin == old(admin) && threshold == old(threshold)
    {
      if !HasDispute(id) {
        return Err(DisputeNotFound);
      }
      var k := id - 1;
      var d := disputes[k];
      if d.status != Open && d.status != Voting && d.status != Appealed {
        return Err(VotingClosed);
      }
      if voter == d.client || voter == d.freelancer {
        return Err(InvalidParty);
      }
      if (id, voter) in hasVoted {
        return Err(AlreadyVoted);
      }
      RecordVote(k, Vote(voter, choice, now));
      r := Ok(());
    }

    /**
     * The payouts of a resolution: the fee back to the vote winner when the
     * dispute is declared malicious, and a positive stake to the winner when
     * the votes against the initiator exceed the threshold, else back to the
     * initiator.
     */
    method PayResolution(d: Dispute, malicious: bool, status: DisputeStatus)
      modifies token
      ensures token.bal == ResolutionTransfers(old(token.bal), d, malicious, Threshold(), status)
    {
      if malicious && d.fee > 0 {
        token.Transfer(RegistryCustody, User(if ClientWinsVote(d) then d.client else d.freelancer), d.fee);
      }
      if d.stake > 0 {
        var total := d.votesForClient + d.votesForFreelancer;
        var against := if d.initiator == d.client then d.votesForFreelancer else d.votesForClient;
        var isMalicious := if total > 0 then against * 100 / total > Threshold() else false;
        var recipient := if !isMalicious then d.initiator
                         else if status == ResolvedForClient then d.client
                         else d.freelancer;
        assert recipient == StakeRecipient(d, Threshold(), status);
        token.Transfer(RegistryCustody, User(recipient), d.stake);
      }
    }

    /** Pays `voter` their share of dispute `k + 1` and flags them as rewarded. */
    method PayReward(k: nat, voter: Address, reward: int)
      requires Valid() && k < |disputes|
      requires IsResolved(disputes[k].status)
      requires (k + 1, voter) !in rewarded && voter in VotersWith(votes[k], WinningChoice(disputes[k]))
      requires reward == RewardShare(disputes[k])
      modifies this, token
      ensures Valid()
      ensures rewarded == old(rewarded) + {(k + 1, voter)}
      ensures token.bal == Moved(old(token.bal), RegistryCustody, User(voter), reward)
      ensures Bookkeeping() == old(Booked(k, voter, reward))
      ensures disputes == old(disputes) && votes == old(votes) && hasVoted == old(hasVoted)
      ensures admin == old(admin) && threshold == old(threshold)
    {
      token.Transfer(RegistryCustody, User(voter), reward);
      ClaimKeepsEntry(k + 1, disputes[k], votes[k], roundClaimers[k], roundPaid[k], rewardsPaid[k],
                      hasVoted, rewarded, voter);
      Put(k, disputes[k], votes[k], roundClaimers[k] + {voter}, roundPaid[k] + reward, rewardsPaid[k] + reward,
          hasVoted, rewarded + {(k + 1, voter)});
    }

    /** Pays out the resolution of dispute `k + 1` and records its new status. */
    method RecordResolution(k: nat, status: DisputeStatus, malicious: bool, now: nat, deadline: nat)
      requires Valid() && k < |disputes| && disputes[k].status != FinalResolution
      requires status == ResolvedStatus(disputes[k])
      modifies this, token
      ensures Valid()
      ensures disputes == old(disputes)[k := old(disputes[k]).(status := status, resolvedAt := now,
                                                                 appealDeadline := deadline, malicious := malicious)]
      ensures token.bal == ResolutionTransfers(old(token.bal), old(disputes[k]), malicious, Threshold(), status)
      ensures votes == old(votes) && hasVoted == old(hasVoted) && rewarded == old(rewarded)
      ensures roundClaimers == old(roundClaimers) && roundPaid == old(roundPaid) && rewardsPaid == old(rewardsPaid)
      ensures admin == old(admin) && threshold == old(threshold)
    {
      var d := disputes[k];
      PayResolution(d, malicious, status);
      ResolveKeepsEntry(k + 1, d, votes[k], roundClaimers[k], roundPaid[k], rewardsPaid[k], hasVoted, rewarded,
                        now, deadline, malicious);
      Put(k, d.(status := status, resolvedAt := now, appealDeadline := deadline, malicious := malicious),
          votes[k], roundClaimers[k], roundPaid[k], rewardsPaid[k], hasVoted, rewarded);
    }

    /**
     * The final round of dispute `k + 1`: the escrow settles the job for the
     * side with more votes, then the resolution is paid out and recorded. A
     * refusal from the escrow changes nothing.
     */
    method ResolveFinal(k: nat, escrow: EscrowLedger, malicious: bool, now: nat, deadline: nat)
      returns (r: Result<DisputeStatus, DisputeError>)
      requires Valid() && escrow.Valid() && escrow.token == token
      requires k < |disputes| && disputes[k].status != FinalResolution
      requires disputes[k].appealCount >= disputes[k].maxAppeals
      modifies this, token, escrow
      ensures Valid() && escrow.Valid()
      ensures var cb := old(escrow.CallbackError(disputes[k].jobId));
              r == if cb.Some? then Err(CallbackFailed(cb.value)) else Ok(FinalResolution)
      ensures r.Err? ==> unchanged(this) && unchanged(token) && unchanged(escrow)
      ensures r.Ok? ==>
        var d := old(disputes[k]);
        var job := old(escrow.JobAt(d.jobId));
        && disputes == old(disputes)[k := d.(status := FinalResolution, resolvedAt := now,
                                             appealDeadline := deadline, malicious := malicious)]
        && escrow.jobs == old(escrow.jobs)[d.jobId - 1 := job.(status := SettledStatus(job.status, Outcome(d)))]
        && token.bal == ResolutionTransfers(SettledBalances(old(token.bal), job, Outcome(d)),
                                            d, malicious, Threshold(), FinalResolution)
      ensures votes == old(votes) && hasVoted == old(hasVoted) && rewarded == old(rewarded)
      ensures roundClaimers == old(roundClaimers) && roundPaid == old(roundPaid) && rewardsPaid == old(rewardsPaid)
      ensures admin == old(admin) && threshold == old(threshold)
    {
      var d := disputes[k];
      var cb := escrow.ResolveDisputeCallback(d.jobId, Outcome(d));
      if cb.Err? {
        return Err(CallbackFailed(cb.error));
      }
      RecordResolution(k, FinalResolution, malicious, now, deadline);
      r := Ok(FinalResolution);
    }

    /**
     * Resolves a dispute that has the votes its round needs. The last
     * allowed round is final: it asks `escrow` to settle the job for the
     * side with more votes, and a refusal from the escrow aborts the whole
     * call. Every successful call then refunds the fee to the winner when
     * `malicious` is set, and pays out a positive penalty stake.
     */
    method ResolveDispute(id: nat, escrow: EscrowLedger, malicious: bool, now: nat, ledgerSeq: nat)
      returns (r: Result<DisputeStatus, DisputeError>)
      requires Valid() && escrow.Valid() && escrow.token == token
      modifies this, token, escrow
      ensures Valid() && escrow.Valid()
      ensures !old(HasDispute(id)) ==> r == Err(DisputeNotFound)
      ensures old(HasDispute(id)) ==> ResolvedAs(old(disputes), id - 1, old(escrow.CallbackError(DisputeAt(id).jobId)), r)
      ensures r.Err? ==> unchanged(this) && unchanged(token) && unchanged(escrow)
      ensures r.Ok? ==>
        var d := old(DisputeAt(id));
        && disputes == old(disputes)[id - 1 := d.(status := r.value, resolvedAt := now,
                                                    appealDeadline := ledgerSeq + APPEAL_WINDOW,
                                                    malicious := malicious)]
        && (r.value != FinalResolution ==>
              && unchanged(escrow)
              && token.bal == ResolutionTransfers(old(token.bal), d, malicious, Threshold(), r.value))
        && (r.value == FinalResolution ==>
              var job := old(escrow.JobAt(d.jobId));
              && escrow.jobs == old(escrow.jobs)[d.jobId - 1 := job.(status := SettledStatus(job.status, Outcome(d)))]
              && token.bal == ResolutionTransfers(SettledBalances(old(token.bal), job, Outcome(d)),
                                                  d, malicious, Threshold(), r.value))
      ensures votes == old(votes) && hasVoted == old(hasVoted) && rewarded == old(rewarded)
      ensures roundClaimers == old(roundClaimers) && roundPaid == old(roundPaid) && rewardsPaid == old(rewardsPaid)
      ensures admin == old(admin) && threshold == old(threshold)
    {
      if !HasDispute(id) {
        return Err(DisputeNotFound);
      }
      r := ResolveAt(id - 1, escrow, malicious, now, ledgerSeq);
    }

    /** `ResolveDispute` once dispute `k + 1` is found. */
    method ResolveAt(k: nat, escrow: EscrowLedger, malicious: bool, now: nat, ledgerSeq: nat)
      returns (r: Result<DisputeStatus, DisputeError>)
      requires Valid() && escrow.Valid() && escrow.token == token && k < |disputes|
      modifies this, token, escrow
      ensures Valid() && escrow.Valid()
      ensures ResolvedAs(old(disputes), k, old(escrow.CallbackError(disputes[k].jobId)), r)
      ensures r.Err? ==> unchanged(this) && unchanged(token) && unchanged(escrow)
      ensures r.Ok? ==>
        var d := old(disputes[k]);
        && disputes == old(disputes)[k := d.(status := r.value, resolvedAt := now,
                                             appealDeadline := ledgerSeq + APPEAL_WINDOW,
                                             malicious := malicious)]
        && (r.value != FinalResolution ==>
              && unchanged(escrow)
              && token.bal == ResolutionTransfers(old(token.bal), d, malicious, Threshold(), r.value))
        && (r.value == FinalResolution ==>
              var job := old(escrow.JobAt(d.jobId));
              && escrow.jobs == old(escrow.jobs)[d.jobId - 1 := job.(status := SettledStatus(job.status, Outcome(d)))]
              && token.bal == ResolutionTransfers(SettledBalances(old(token.bal), job, Outcome(d)),
                                                  d, malicious, Threshold(), r.value))
      ensures votes == old(votes) && hasVoted == old(hasVoted) && rewarded == old(rewarded)
      ensures roundClaimers == old(roundClaimers) && roundPaid == old(roundPaid) && rewardsPaid == old(rewardsPaid)
      ensures admin == old(admin) && threshold == old(threshold)
    {
      var d := disputes[k];
      if d.status == FinalResolution {
        return Err(AlreadyResolved);
      }
      var total := d.votesForClient + d.votesForFreelancer;
      if total < RequiredVotes(d.minVotes, d.appealCount) {
        return Err(NotEnoughVotes);
      }
      var status := ResolvedStatus(d);
      if status == FinalResolution {
        r := ResolveFinal(k, escrow, malicious, now, ledgerSeq + APPEAL_WINDOW);
      } else {
        RecordResolution(k, status, malicious, now, ledgerSeq + APPEAL_WINDOW);
        r := Ok(status);
      }
    }

    /**
     * The losing party of a non-final resolution re-opens voting within the
     * appeal window: a new round with empty tallies and no votes, needing
     * twice as many votes. Earlier voters stay marked as having voted.
     */
    method RaiseAppeal(id: nat, appellant: Address, ledgerSeq: nat) returns (r: Result<(), DisputeError>)
      requires Valid()
      modifies this
      ensures Valid()
      ensures r == (if !old(HasDispute(id)) then Err(DisputeNotFound)
                    else var d := old(DisputeAt(id));
                    if d.appealCount >= d.maxAppeals then Err(MaxAppealsReached)
                    else if !IsResolved(d.status) then Err(CannotAppealBeforeResolution)
                    else if d.status == FinalResolution then Err(MaxAppealsReached)
                    else if ledgerSeq > d.appealDeadline then Err(AppealWindowExpired)
                    else if !IsLosingParty(d, appellant) then Err(NotLosingParty)
                    else Ok(()))
      ensures r.Err? ==> unchanged(this)
      ensures r.Ok? ==>
        var d := old(DisputeAt(id));
        && disputes == old(disputes)[id - 1 := d.(appealCount := d.appealCount + 1, status := Appealed,
                                                    votesForClient := 0, votesForFreelancer := 0)]
        && votes == old(votes)[id - 1 := []]
        && roundClaimers == old(roundClaimers)[id - 1 := {}]
        && roundPaid == old(roundPaid)[id - 1 := 0]
        && RequiredVotes(d.minVotes, d.appealCount + 1) == 2 * RequiredVotes(d.minVotes, d.appealCount)
        && var earlier := old(votes)[id - 1];
           forall i :: 0 <= i < |earlier| ==> (id, earlier[i].voter) in hasVoted
      ensures hasVoted == old(hasVoted) && rewarded == old(rewarded) && rewardsPaid == old(rewardsPaid)
      ensures admin == old(admin) && threshold == old(threshold)
    {
      if !HasDispute(id) {
        return Err(DisputeNotFound);
      }
      var k := id - 1;
      var d := disputes[k];
      // A final resolution has used up the appeals, so the contract's later
      // separate check for FinalResolution is folded into this one.
      if d.appealCount >= d.maxAppeals || d.status == FinalResolution {
        return Err(MaxAppealsReached);
      }
      if d.status != ResolvedForClient && d.status != ResolvedForFreelancer {
        return Err(CannotAppealBeforeResolution);
      }
      if ledgerSeq > d.appealDeadline {
        return Err(AppealWindowExpired);
      }
      var losing := match d.status
        case ResolvedForClient => appellant == d.freelancer
        case ResolvedForFreelancer => appellant == d.client
        case _ => false;
      if !losing {
        return Err(NotLosingParty);
      }
      QuorumDoubles(d.minVotes, d.appealCount);
      var d' := d.(appealCount := d.appealCount + 1, status := Appealed,
                   votesForClient := 0, votesForFreelancer := 0);
      AppealKeepsEntry(id, d, votes[k], roundClaimers[k], roundPaid[k], rewardsPaid[k], hasVoted, rewarded);
      Put(k, d', [], {}, 0, rewardsPaid[k], hasVoted, rewarded);
      r := Ok(());
    }

    /**
     * The view `get_claimable_reward`: the share of the fee that `voter`
     * may still claim, or 0.
     */
    function Claimable(id: nat, voter: Address): (amount: int)
      reads this
      requires Shaped()
      ensures amount >= 0
      ensures amount > 0 ==>
        && HasDispute(id) && IsResolved(DisputeAt(id).status) && !DisputeAt(id).malicious
        && (id, voter) !in rewarded
        && voter in VotersWith(votes[id - 1], WinningChoice(DisputeAt(id)))
        && amount == RewardShare(DisputeAt(id))
    {
      if !HasDispute(id) then 0
      else
        var d := disputes[id - 1];
        if !IsResolved(d.status) || d.malicious || d.fee <= 0 then 0
        else if (id, voter) in rewarded then 0
        else if voter !in VotersWith(votes[id - 1], WinningChoice(d)) then 0
        else RewardShare(d)
    }

    method GetClaimableReward(id: nat, voter: Address) returns (amount: int)
      requires Shaped()
      ensures amount == Claimable(id, voter)
    {
      if !HasDispute(id) {
        return 0;
      }
      var d := disputes[id - 1];
      if !IsResolved(d.status) || d.malicious || d.fee <= 0 {
        return 0;
      }
      if (id, voter) in rewarded {
        return 0;
      }
      var choice := if d.status == ResolvedForClient then ForClient
                    else if d.votesForClient >= d.votesForFreelancer then ForClient
                    else ForFreelancer;
      var onWinningSide := HasVoteFor(votes[id - 1], voter, choice);
      if !onWinningSide {
        return 0;
      }
      var wc := if choice == ForClient then d.votesForClient else d.votesForFreelancer;
      if wc == 0 {
        return 0;
      }
      amount := d.fee / wc;
    }

    /**
     * Pays a winning-side voter their share of the fee, once. It succeeds
     * exactly when the view reports a positive amount, and pays that amount.
     */
    method ClaimVoterReward(id: nat, voter: Address) returns (r: Result<int, DisputeError>)
      requires Valid()
      modifies this, token
      ensures Valid()
      ensures r.Ok? <==> old(Claimable(id, voter)) > 0
      ensures r.Ok? ==> r.value == old(Claimable(id, voter))
      ensures r.Err? ==>
        r.error == (if !old(HasDispute(id)) then DisputeNotFound
                    else var d := old(DisputeAt(id));
                    if !IsResolved(d.status) then DisputeNotResolved
                    else if d.malicious || d.fee <= 0 then NoRewardAvailable
                    else if (id, voter) in old(rewarded) then AlreadyClaimed
                    else if voter !in old(VotersWith(votes[id - 1], WinningChoice(d))) then NotWinningVoter
                    else NoRewardAvailable)
      ensures r.Err? ==> unchanged(this) && unchanged(token)
      ensures r.Ok? ==>
        && rewarded == old(rewarded) + {(id, voter)}
        && token.bal == Moved(old(token.bal), RegistryCustody, User(voter), r.value)
        && Bookkeeping() == old(Booked(id - 1, voter, r.value))
      ensures disputes == old(disputes) && votes == old(votes) && hasVoted == old(hasVoted)
      ensures admin == old(admin) && threshold == old(threshold)
    {
      if !HasDispute(id) {
        return Err(DisputeNotFound);
      }
      var k := id - 1;
      var d := disputes[k];
      if d.status != ResolvedForClient && d.status != ResolvedForFreelancer && d.status != FinalResolution {
        return Err(DisputeNotResolved);
      }
      if d.malicious {
        return Err(NoRewardAvailable);
      }
      if d.fee <= 0 {
        return Err(NoRewardAvailable);
      }
      if (id, voter) in rewarded {
        return Err(AlreadyClaimed);
      }
      var choice := if d.status == ResolvedForClient then ForClient
                    else if d.votesForClient >= d.votesForFreelancer then ForClient
                    else ForFreelancer;
      var onWinningSide := HasVoteFor(votes[k], voter, choice);
      if !onWinningSide {
        return Err(NotWinningVoter);
      }
      var wc := if choice == ForClient then d.votesForClient else d.votesForFreelancer;
      // The contract refuses a zero winning count and then a non-positive
      // share, both with NoRewardAvailable; the two checks are one here.
      var reward := if wc > 0 then d.fee / wc else 0;
      if reward <= 0 {
        return Err(NoRewardAvailable);
      }
      PayReward(k, voter, reward);
      r := Ok(reward);
    }

    /**
     * What one round pays its voters never exceeds the fee; across the
     * rounds of a dispute the rewards are bounded by one fee per round.
     */
    lemma RewardsBounded(id: nat)
      requires Valid() && HasDispute(id)
      ensures roundPaid[id - 1] <= FeeCap(DisputeAt(id))
      ensures rewardsPaid[id - 1] <= (DisputeAt(id).appealCount + 1) * FeeCap(DisputeAt(id))
      ensures rewardsPaid[id - 1] <= (MAX_APPEALS + 1) * FeeCap(DisputeAt(id))
    {
      var k := id - 1;
      var d := disputes[k];
      RoundRewardsWithinFee(d, votes[k], roundClaimers[k]);
      RepeatedIsProduct(d.appealCount + 1, FeeCap(d));
      MulMonotone(FeeCap(d), d.appealCount + 1, MAX_APPEALS + 1);
      assert FeeCap(d) * (d.appealCount + 1) == (d.appealCount + 1) * FeeCap(d);
      assert FeeCap(d) * (MAX_APPEALS + 1) == (MAX_APPEALS + 1) * FeeCap(d);
    }
  }
}
