/**
 * The reputation aggregator: reviews after completed escrow jobs, the
 * stake-weighted counters per user, the decayed average rating and the
 * tier badges it awards.
 *
 * The escrow lookup of the reviewed job is a parameter: `None` when the
 * escrow does not know the job, otherwise the job record it returns.
 */
module Reputation {
  import opened Token
  import opened Outcomes
  import opened EscrowSpec
  import opened ReputationSpec

  /** The reviewer and reviewee are the job's client and freelancer, in either order. */
  predicate IsParticipantPair(job: Job, reviewer: Address, reviewee: Address) {
    (reviewer == job.client && reviewee == job.freelancer) || (reviewer == job.freelancer && reviewee == job.client)
  }

  /** The reviews of `u` in a per-user table, none when absent. */
  function ListOf<T>(m: map<Address, seq<T>>, u: Address): seq<T> {
    if u in m then m[u] else []
  }

  /** The counters of `u`, zero before their first review. */
  function CountersOf(m: map<Address, UserReputation>, u: Address): UserReputation {
    if u in m then m[u] else UserReputation(u, 0, 0, 0)
  }

  /** Every stored rating is from 1 to 5. */
  ghost predicate RatingsOk(reviews: map<Address, seq<Review>>) {
    forall u :: u in reviews ==> ValidRatings(reviews[u])
  }

  /** Every user's counters agree with their review list. */
  ghost predicate CountersOk(reps: map<Address, UserReputation>, reviews: map<Address, seq<Review>>) {
    forall u :: CountersMatch(CountersOf(reps, u), ListOf(reviews, u))
  }

  /** Every stored review is flagged under its reviewer, reviewee and job. */
  ghost predicate FlagsOk(reviews: map<Address, seq<Review>>, reviewed: set<(Address, Address, nat)>) {
    forall u, i :: u in reviews && 0 <= i < |reviews[u]| ==>
      (reviews[u][i].reviewer, u, reviews[u][i].jobId) in reviewed
  }

  /** Recording a review with a valid rating keeps the review tables consistent. */
  lemma RecordKeepsTables(reps: map<Address, UserReputation>, reviews: map<Address, seq<Review>>,
                          reviewed: set<(Address, Address, nat)>, review: Review)
    requires RatingsOk(reviews) && CountersOk(reps, reviews) && FlagsOk(reviews, reviewed)
    requires 1 <= review.rating <= 5
    ensures var u := review.reviewee;
            var reps' := reps[u := Accumulated(CountersOf(reps, u), review.rating, review.stakeWeight)];
            var reviews' := reviews[u := ListOf(reviews, u) + [review]];
            && RatingsOk(reviews')
            && CountersOk(reps', reviews')
            && FlagsOk(reviews', reviewed + {(review.reviewer, u, review.jobId)})
  {
    var u := review.reviewee;
    var rs := ListOf(reviews, u);
    var reps' := reps[u := Accumulated(CountersOf(reps, u), review.rating, review.stakeWeight)];
    var reviews' := reviews[u := rs + [review]];
    var reviewed' := reviewed + {(review.reviewer, u, review.jobId)};
    forall v | v in reviews'
      ensures ValidRatings(reviews'[v])
    {
      if v == u {
        assert forall i :: 0 <= i < |rs| ==> (rs + [review])[i] == rs[i];
      }
    }
    forall v
      ensures CountersMatch(CountersOf(reps', v), ListOf(reviews', v))
    {
      if v == u {
        AccumulatedMatches(CountersOf(reps, u), rs, review);
      } else {
        assert CountersOf(reps', v) == CountersOf(reps, v);
        assert ListOf(reviews', v) == ListOf(reviews, v);
        assert CountersMatch(CountersOf(reps, v), ListOf(reviews, v));
      }
    }
    forall v, i | v in reviews' && 0 <= i < |reviews'[v]|
      ensures (reviews'[v][i].reviewer, v, reviews'[v][i].jobId) in reviewed'
    {
      if v == u && i < |rs| {
        assert reviews'[v][i] == rs[i];
      }
    }
  }

  /**
   * The decayed, weighted average of `rs` at time `now`, in hundredths of
   * a star, accumulated one review at a time.
   */
  method ComputeAverage(rs: seq<Review>, rate: nat, now: nat) returns (avg: nat)
    ensures avg == AverageRating(rs, rate, now)
  {
    if |rs| == 0 {
      return 0;
    }
    var score, weight := 0, 0;
    var i := 0;
    while i < |rs|
      invariant 0 <= i <= |rs|
      invariant score == DecayedScore(rs[..i], rate, now)
      invariant weight == DecayedWeight(rs[..i], rate, now)
    {
      var w := SummedWeight(rs[i], rate, now);
      DecayedStep(rs, i, rate, now);
      score := score + rs[i].rating * w;
      weight := weight + w;
      i := i + 1;
    }
    assert rs[..|rs|] == rs;
    if weight == 0 {
      return 0;
    }
    avg := Hundredths(score, weight);
  }

  /** Searches the badges for one of tier `t`. */
  method HasTierBadge(bs: seq<Badge>, t: Tier) returns (found: bool)
    ensures found <==> HasTier(bs, t)
  {
    var i := 0;
    while i < |bs|
      invariant 0 <= i <= |bs|
      invariant forall j :: 0 <= j < i ==> bs[j].tier != t
    {
      if bs[i].tier == t {
        return true;
      }
      i := i + 1;
    }
    return false;
  }

  class ReputationRegistry {
    var admin: Option<Address>
    var decayRate: Option<nat>
    var reputations: map<Address, UserReputation>
    /** Reviews received, per reviewee, in submission order. */
    var reviews: map<Address, seq<Review>>
    /** `(reviewer, reviewee, jobId)` of every review submitted. */
    var reviewed: set<(Address, Address, nat)>
    var badges: map<Address, seq<Badge>>

    /** The configured decay rate, 0 (no decay) until one is set. */
    function DecayRate(): nat
      reads this
    {
      if decayRate.Some? then decayRate.value else 0
    }

    function ReviewsOf(u: Address): seq<Review>
      reads this
    {
      ListOf(reviews, u)
    }

    function BadgesOf(u: Address): seq<Badge>
      reads this
    {
      ListOf(badges, u)
    }

    function ReputationOf(u: Address): UserReputation
      reads this
    {
      CountersOf(reputations, u)
    }

    /**
     * The decay rate is within bounds, every stored rating is 1 to 5, the
     * counters agree with the reviews, every review is flagged, and badges
     * are for distinct real tiers.
     */
    ghost predicate Valid()
      reads this
    {
      && DecayRate() <= MAX_DECAY_RATE
      && RatingsOk(reviews)
      && CountersOk(reputations, reviews)
      && FlagsOk(reviews, reviewed)
      && (forall u :: u in badges ==> DistinctBadges(badges[u]))
    }

    constructor ()
      ensures Valid()
      ensures admin == None && decayRate == None
      ensures reputations == map[] && reviews == map[] && reviewed == {} && badges == map[]
    {
      admin := None;
      decayRate := None;
      reputations := map[];
      reviews := map[];
      reviewed := {};
      badges := map[];
    }

    method Initialize(newAdmin: Address, rate: nat) returns (r: Result<(), ReputationError>)
      requires Valid()
      modifies this
      ensures Valid()
      ensures r == (if old(admin).Some? then Err(ReputationError.Unauthorized)
                    else if rate > MAX_DECAY_RATE then Err(InvalidDecayRate)
                    else Ok(()))
      ensures r.Ok? ==> admin == Some(newAdmin) && decayRate == Some(rate)
      ensures r.Err? ==> admin == old(admin) && decayRate == old(decayRate)
      ensures reputations == old(reputations) && reviews == old(reviews)
      ensures reviewed == old(reviewed) && badges == old(badges)
    {
      if admin.Some? {
        return Err(ReputationError.Unauthorized);
      }
      if rate > MAX_DECAY_RATE {
        return Err(InvalidDecayRate);
      }
      admin := Some(newAdmin);
      decayRate := Some(rate);
      r := Ok(());
    }

    method SetDecayRate(caller: Address, rate: nat) returns (r: Result<(), ReputationError>)
      requires Valid()
      modifies this
      ensures Valid()
      ensures r == (if old(admin).None? then Err(NotInitialized)
                    else if caller != old(admin).value then Err(ReputationError.Unauthorized)
                    else if rate > MAX_DECAY_RATE then Err(InvalidDecayRate)
                    else Ok(()))
      ensures decayRate == (if r.Ok? then Some(rate) else old(decayRate))
      ensures admin == old(admin)
      ensures reputations == old(reputations) && reviews == old(reviews)
      ensures reviewed == old(reviewed) && badges == old(badges)
    {
      if admin.None? {
        return Err(NotInitialized);
      }
      if caller != admin.value {
        return Err(ReputationError.Unauthorized);
      }
      if rate > MAX_DECAY_RATE {
        return Err(InvalidDecayRate);
      }
      decayRate := Some(rate);
      r := Ok(());
    }

    /** The decayed, weighted average rating of `user` at time `now`, in hundredths of a star. */
    method GetAverageRating(user: Address, now: nat) returns (avg: nat)
      ensures avg == AverageRating(ReviewsOf(user), DecayRate(), now)
    {
      avg := ComputeAverage(ReviewsOf(user), DecayRate(), now);
    }

    /** Adds a review with a valid rating to its reviewee's list, counters and the review flags. */
    method RecordReview(review: Review)
      requires Valid() && 1 <= review.rating <= 5
      modifies this
      ensures Valid()
      ensures reviews == old(reviews)[review.reviewee := old(ReviewsOf(review.reviewee)) + [review]]
      ensures reputations == old(reputations)[review.reviewee :=
                Accumulated(old(ReputationOf(review.reviewee)), review.rating, review.stakeWeight)]
      ensures reviewed == old(reviewed) + {(review.reviewer, review.reviewee, review.jobId)}
      ensures badges == old(badges) && admin == old(admin) && decayRate == old(decayRate)
    {
      var u := review.reviewee;
      var rep := ReputationOf(u);
      var rs := ReviewsOf(u);
      RecordKeepsTables(reputations, reviews, reviewed, review);
      reputations := reputations[u := Accumulated(rep, review.rating, review.stakeWeight)];
      reviews := reviews[u := rs + [review]];
      reviewed := reviewed + {(review.reviewer, u, review.jobId)};
    }

    /** Appends a badge for a real tier that `u` does not hold yet. */
    method AwardBadge(u: Address, b: Badge)
      requires Valid() && b.tier != NoTier && !HasTier(BadgesOf(u), b.tier)
      modifies this
      ensures Valid()
      ensures badges == old(badges)[u := old(BadgesOf(u)) + [b]]
      ensures reviews == old(reviews) && reputations == old(reputations) && reviewed == old(reviewed)
      ensures admin == old(admin) && decayRate == old(decayRate)
    {
      var held := BadgesOf(u);
      assert DistinctBadges(held + [b]) by {
        assert forall i :: 0 <= i < |held| ==> (held + [b])[i] == held[i];
      }
      badges := badges[u := held + [b]];
    }

    /**
     * Records a review of `reviewee` by the other party of a completed job,
     * at most once per reviewer, reviewee and job. The review adds its
     * stake-weighted rating to the counters, and a badge is awarded for the
     * tier of the new average if it is a real tier not yet held.
     */
    method SubmitReview(reviewer: Address, reviewee: Address, jobId: nat, rating: nat, stake: int,
                        lookup: Option<Job>, now: nat)
      returns (r: Result<(), ReputationError>)
      requires Valid()
      modifies this
      ensures Valid()
      ensures r == (if rating < 1 || rating > 5 then Err(InvalidRating)
                    else if reviewer == reviewee then Err(SelfReview)
                    else if (reviewer, reviewee, jobId) in old(reviewed) then Err(AlreadyReviewed)
                    else if lookup.None? then Err(ReputationError.JobNotFound)
                    else if lookup.value.status != Completed then Err(JobNotCompleted)
                    else if !IsParticipantPair(lookup.value, reviewer, reviewee) then Err(NotJobParticipant)
                    else Ok(()))
      ensures r.Err? ==> unchanged(this)
      ensures r.Ok? ==>
        var rs := old(ReviewsOf(reviewee)) + [Review(reviewer, reviewee, jobId, rating, stake, now)];
        && reviews == old(reviews)[reviewee := rs]
        && reputations == old(reputations)[reviewee := Accumulated(old(ReputationOf(reviewee)), rating, stake)]
        && reviewed == old(reviewed) + {(reviewer, reviewee, jobId)}
        && var held := old(BadgesOf(reviewee));
           var awarded := Awarded(held, CalculateTier(AverageRating(rs, DecayRate(), now)), now);
           badges == if awarded == held then old(badges) else old(badges)[reviewee := awarded]
      ensures forall u :: old(BadgesOf(u)) <= BadgesOf(u)
      ensures admin == old(admin) && decayRate == old(decayRate)
    {
      if rating < 1 || rating > 5 {
        return Err(InvalidRating);
      }
      if reviewer == reviewee {
        return Err(SelfReview);
      }
      if (reviewer, reviewee, jobId) in reviewed {
        return Err(AlreadyReviewed);
      }
      if lookup.None? {
        return Err(ReputationError.JobNotFound);
      }
      var job := lookup.value;
      if job.status != Completed {
        return Err(JobNotCompleted);
      }
      if !IsParticipantPair(job, reviewer, reviewee) {
        return Err(NotJobParticipant);
      }
      RecordReview(Review(reviewer, reviewee, jobId, rating, stake, now));
      var average := GetAverageRating(reviewee, now);
      var tier := CalculateTier(average);
      var held := BadgesOf(reviewee);
      var hasBadge := HasTierBadge(held, tier);
      if !hasBadge && tier != NoTier {
        AwardBadge(reviewee, Badge(tier, now));
      }
      r := Ok(());
    }
  }
}
