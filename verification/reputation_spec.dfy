/**
 * Values and pure rules of the reputation aggregator: reviews, the counters
 * kept per user, reputation tiers, the yearly decay of a review's weight and
 * the weighted average rating in hundredths of a star.
 *
 * Three conversions of integer width are written out: the positive stake
 * is cast to 64 bits for the stored counters, the decay uses a saturating
 * 64-bit product, and the decayed weight is a saturating 128-bit product
 * cast to 64 bits before it is summed. The sums themselves are unbounded:
 * the 64-bit overflow of the score and weight sums, and of the score
 * times 100, is not modelled.
 */
module ReputationSpec {
  import opened Token
  import opened Arith

  /** Seconds in the year the decay rate is expressed per. */
  const ONE_YEAR: nat := 31_536_000
  /** 2^64: one more than the largest u64. */
  const U64_LIMIT: nat := 0x1_0000_0000_0000_0000
  const I128_MAX: nat := 0x7FFF_FFFF_FFFF_FFFF_FFFF_FFFF_FFFF_FFFF
  /** The largest decay rate, in percent per year, that configuration accepts. */
  const MAX_DECAY_RATE: nat := 100

  datatype ReputationError =
    | InvalidRating | AlreadyReviewed | SelfReview | UserNotFound | JobNotCompleted
    | NotJobParticipant | JobNotFound | Unauthorized | NotInitialized | InvalidDecayRate

  /** A stored review; its free-text comment is left out. */
  datatype Review = Review(reviewer: Address, reviewee: Address, jobId: nat, rating: nat,
                           stakeWeight: int, timestamp: nat)

  datatype UserReputation = UserReputation(user: Address, totalScore: nat, totalWeight: nat, reviewCount: nat)

  /** Reputation tiers; `NoTier` is the contract's `None`. */
  datatype Tier = NoTier | Bronze | Silver | Gold | Platinum

  datatype Badge = Badge(tier: Tier, awardedAt: nat)

  function Rank(t: Tier): nat {
    match t
    case NoTier => 0
    case Bronze => 1
    case Silver => 2
    case Gold => 3
    case Platinum => 4
  }

  // ---------------------------------------------------------------------
  // Tiers
  // ---------------------------------------------------------------------

  /** The tier of an average rating: thresholds at 100, 300, 500 and 700. */
  function CalculateTier(average: nat): (t: Tier)
    ensures t == NoTier <==> average < 100
    ensures t == Platinum <==> average >= 700
  {
    if average >= 700 then Platinum
    else if average >= 500 then Gold
    else if average >= 300 then Silver
    else if average >= 100 then Bronze
    else NoTier
  }

  /** A higher average never gives a lower tier. */
  lemma TierMonotone(a: nat, b: nat)
    requires a <= b
    ensures Rank(CalculateTier(a)) <= Rank(CalculateTier(b))
  {
  }

  // ---------------------------------------------------------------------
  // Stored counters
  // ---------------------------------------------------------------------

  /** A review's weight in the stored counters: a positive stake cast to u64, otherwise 1. */
  function StoredWeight(stake: int): (w: nat)
    ensures stake <= 0 ==> w == 1
    ensures 0 < stake < U64_LIMIT ==> w == stake
    ensures w < U64_LIMIT
  {
    if stake > 0 then stake % U64_LIMIT else 1
  }

  /** Sum of `rating * StoredWeight` over the reviews. */
  function StoredScore(rs: seq<Review>): nat {
    if rs == [] then 0
    else StoredScore(rs[..|rs| - 1]) + rs[|rs| - 1].rating * StoredWeight(rs[|rs| - 1].stakeWeight)
  }

  function StoredWeightSum(rs: seq<Review>): nat {
    if rs == [] then 0
    else StoredWeightSum(rs[..|rs| - 1]) + StoredWeight(rs[|rs| - 1].stakeWeight)
  }

  /** The counters of a user agree with the list of reviews they received. */
  ghost predicate CountersMatch(rep: UserReputation, rs: seq<Review>) {
    && rep.totalScore == StoredScore(rs)
    && rep.totalWeight == StoredWeightSum(rs)
    && rep.reviewCount == |rs|
  }

  /** The counters after one more review. */
  function Accumulated(rep: UserReputation, rating: nat, stake: int): UserReputation {
    rep.(totalScore := rep.totalScore + rating * StoredWeight(stake),
         totalWeight := rep.totalWeight + StoredWeight(stake),
         reviewCount := rep.reviewCount + 1)
  }

  /** Accumulating a review keeps the counters in step with the review list. */
  lemma AccumulatedMatches(rep: UserReputation, rs: seq<Review>, r: Review)
    requires CountersMatch(rep, rs)
    ensures CountersMatch(Accumulated(rep, r.rating, r.stakeWeight), rs + [r])
  {
    assert (rs + [r])[..|rs|] == rs;
  }

  // ---------------------------------------------------------------------
  // Decay
  // ---------------------------------------------------------------------

  /** `saturating_mul` on u64 for a non-negative product. */
  function SatU64(x: nat): (y: nat)
    ensures y <= x && y < U64_LIMIT
  {
    if x < U64_LIMIT then x else U64_LIMIT - 1
  }

  /** `saturating_mul` on i128 for a non-negative product. */
  function SatI128(x: nat): (y: nat)
    ensures y <= x && y <= I128_MAX
  {
    if x > I128_MAX then I128_MAX else x
  }

  /** `saturating_sub` on u64: the age of a review, 0 if it lies in the future. */
  function Age(now: nat, timestamp: nat): nat {
    if now >= timestamp then now - timestamp else 0
  }

  /** Percentage points a review has decayed by. */
  function DecayAmount(rate: nat, age: nat): nat {
    SatU64(rate * age) / ONE_YEAR
  }

  function InitialWeight(stake: int): (w: nat)
    ensures w >= 1
    ensures stake > 0 ==> w == stake
  {
    if stake > 0 then stake else 1
  }

  /** `initial * factor / 100` with the product saturating at the i128 maximum. */
  function Scaled(initial: nat, factor: nat): (w: nat)
    requires factor <= 100
    ensures w <= initial
  {
    MulMonotone(initial, factor, 100);
    SatI128(initial * factor) / 100
  }

  /**
   * The weight a review counts with at time `now`: its initial weight
   * reduced by `rate` percent per year of age, never below 0.
   */
  function EffectiveWeight(stake: int, timestamp: nat, rate: nat, now: nat): (w: nat)
    ensures w <= InitialWeight(stake)
    ensures rate == 0 ==> w == InitialWeight(stake)
    ensures rate > 0 && DecayAmount(rate, Age(now, timestamp)) >= 100 ==> w == 0
  {
    var initial := InitialWeight(stake);
    if rate == 0 then initial
    else
      var decay := DecayAmount(rate, Age(now, timestamp));
      var factor := if decay >= 100 then 0 else 100 - decay;
      if factor == 0 then 0 else Scaled(initial, factor)
  }

  /** A review never gains weight as time passes. */
  lemma EffectiveWeightDecays(stake: int, timestamp: nat, rate: nat, now1: nat, now2: nat)
    requires now1 <= now2
    ensures EffectiveWeight(stake, timestamp, rate, now2) <= EffectiveWeight(stake, timestamp, rate, now1)
  {
    if rate > 0 {
      var a1, a2 := Age(now1, timestamp), Age(now2, timestamp);
      MulMonotone(rate, a1, a2);
      var d1, d2 := DecayAmount(rate, a1), DecayAmount(rate, a2);
      DivMonotone(SatU64(rate * a1), SatU64(rate * a2), ONE_YEAR);
      assert d1 <= d2;
      if d2 < 100 {
        var initial := InitialWeight(stake);
        MulMonotone(initial, 100 - d2, 100 - d1);
        DivMonotone(SatI128(initial * (100 - d2)), SatI128(initial * (100 - d1)), 100);
      }
    }
  }

  // ---------------------------------------------------------------------
  // Average rating
  // ---------------------------------------------------------------------

  /** A review's decayed weight as it is summed: positive values cast to u64, else 0. */
  function SummedWeight(r: Review, rate: nat, now: nat): (w: nat)
    ensures w < U64_LIMIT
    ensures w <= EffectiveWeight(r.stakeWeight, r.timestamp, rate, now)
  {
    var e := EffectiveWeight(r.stakeWeight, r.timestamp, rate, now);
    if e > 0 then e % U64_LIMIT else 0
  }

  function DecayedScore(rs: seq<Review>, rate: nat, now: nat): nat {
    if rs == [] then 0
    else DecayedScore(rs[..|rs| - 1], rate, now) + rs[|rs| - 1].rating * SummedWeight(rs[|rs| - 1], rate, now)
  }

  function DecayedWeight(rs: seq<Review>, rate: nat, now: nat): nat {
    if rs == [] then 0
    else DecayedWeight(rs[..|rs| - 1], rate, now) + SummedWeight(rs[|rs| - 1], rate, now)
  }

  /** Extending a prefix by one review adds that review's terms to both sums. */
  lemma DecayedStep(rs: seq<Review>, i: nat, rate: nat, now: nat)
    requires i < |rs|
    ensures DecayedScore(rs[..i + 1], rate, now) == DecayedScore(rs[..i], rate, now) + rs[i].rating * SummedWeight(rs[i], rate, now)
    ensures DecayedWeight(rs[..i + 1], rate, now) == DecayedWeight(rs[..i], rate, now) + SummedWeight(rs[i], rate, now)
  {
    assert rs[..i + 1][..i] == rs[..i];
  }

  /** Weighted average of the ratings in hundredths of a star; 0 without reviews or weight. */
  function AverageRating(rs: seq<Review>, rate: nat, now: nat): (avg: nat)
    ensures rs == [] || DecayedWeight(rs, rate, now) == 0 ==> avg == 0
  {
    if rs == [] then 0
    else
      var w := DecayedWeight(rs, rate, now);
      if w == 0 then 0 else Hundredths(DecayedScore(rs, rate, now), w)
  }

  /** `score * 100 / weight`: an average in hundredths of a star. */
  function Hundredths(score: nat, weight: nat): nat
    requires weight > 0
  {
    score * 100 / weight
  }

  predicate ValidRatings(rs: seq<Review>) {
    forall i :: 0 <= i < |rs| ==> 1 <= rs[i].rating <= 5
  }

  /** With ratings from 1 to 5 the score lies between the weight and five times it. */
  lemma {:induction false} ScoreWithinWeight(rs: seq<Review>, rate: nat, now: nat)
    requires ValidRatings(rs)
    ensures DecayedWeight(rs, rate, now) <= DecayedScore(rs, rate, now) <= 5 * DecayedWeight(rs, rate, now)
  {
    if rs != [] {
      var n := |rs| - 1;
      assert ValidRatings(rs[..n]) by {
        forall i | 0 <= i < n
          ensures 1 <= rs[..n][i].rating <= 5
        {
          assert rs[..n][i] == rs[i];
        }
      }
      ScoreWithinWeight(rs[..n], rate, now);
      var w := SummedWeight(rs[n], rate, now);
      MulMonotone(w, 1, rs[n].rating);
      MulMonotone(w, rs[n].rating, 5);
      assert w * rs[n].rating == rs[n].rating * w;
    }
  }

  /**
   * The average of valid ratings is 0 exactly when there is no weight to
   * average over, and otherwise between one and five stars.
   */
  lemma AverageInRange(rs: seq<Review>, rate: nat, now: nat)
    requires ValidRatings(rs)
    ensures AverageRating(rs, rate, now) == 0 <==> DecayedWeight(rs, rate, now) == 0
    ensures DecayedWeight(rs, rate, now) > 0 ==> 100 <= AverageRating(rs, rate, now) <= 500
  {
    var w := DecayedWeight(rs, rate, now);
    if w > 0 {
      assert rs != [];
      ScoreWithinWeight(rs, rate, now);
      RatioBounds(DecayedScore(rs, rate, now), w);
      assert AverageRating(rs, rate, now) == Hundredths(DecayedScore(rs, rate, now), w);
    }
  }

  /** A score between one and five times the weight averages to 100..500 hundredths. */
  lemma RatioBounds(s: nat, w: nat)
    requires 0 < w <= s <= 5 * w
    ensures 100 <= s * 100 / w <= 500
  {
    MulMonotone(100, w, s);
    MulMonotone(100, s, 5 * w);
    assert 100 * w <= s * 100 <= 500 * w;
    DivMonotone(100 * w, s * 100, w);
    DivMonotone(s * 100, 500 * w, w);
    DivUnique(100 * w, w, 100);
    DivUnique(500 * w, w, 500);
  }

  /** No set of valid reviews reaches the Platinum threshold of 700. */
  lemma PlatinumUnreachable(rs: seq<Review>, rate: nat, now: nat)
    requires ValidRatings(rs)
    ensures CalculateTier(AverageRating(rs, rate, now)) != Platinum
  {
    AverageInRange(rs, rate, now);
  }

  // ---------------------------------------------------------------------
  // Badges
  // ---------------------------------------------------------------------

  predicate HasTier(bs: seq<Badge>, t: Tier) {
    exists i :: 0 <= i < |bs| && bs[i].tier == t
  }

  /** Every badge is for a real tier and no tier is held twice. */
  predicate DistinctBadges(bs: seq<Badge>) {
    && (forall i :: 0 <= i < |bs| ==> bs[i].tier != NoTier)
    && (forall i, j :: 0 <= i < j < |bs| ==> bs[i].tier != bs[j].tier)
  }

  /** The badge list after reaching tier `t`: a badge is added for a new, real tier only. */
  function Awarded(bs: seq<Badge>, t: Tier, now: nat): (bs': seq<Badge>)
    ensures bs <= bs'
    ensures DistinctBadges(bs) ==> DistinctBadges(bs')
    ensures t != NoTier ==> HasTier(bs', t)
    ensures |bs'| <= |bs| + 1
  {
    if t != NoTier && !HasTier(bs, t) then
      var bs' := bs + [Badge(t, now)];
      assert bs'[|bs|].tier == t;
      bs'
    else bs
  }
}
