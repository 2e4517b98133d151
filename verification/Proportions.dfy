/** Who gets how much: every truncated share of the ledger within one unit of its proportion
    (internal/consensus/delegation.go, epoch.go, thermostat.go, fees.go). */
module Proportions {
  import opened Common
  import opened Sums
  import opened Ledger
  import opened Rewards
  import opened Settlement
  import Stake

  /** A share is the proportion of the pool, truncated to a unit. */
  lemma ShareIsTruncated(pool: u64, weight: u64, total: u64)
    requires total > 0 && pool * weight < WORD
    ensures total * Share(pool, weight, total) <= pool * weight < total * (Share(pool, weight, total) + 1)
  {
    var x := pool * weight;
    assert x / total * total <= x < (x / total + 1) * total;
  }

  /** A greater weight never gets less. */
  lemma SharesAreMonotone(pool: u64, a: u64, b: u64, total: u64)
    requires total > 0 && a <= b && pool * b < WORD
    ensures Share(pool, a, total) <= Share(pool, b, total)
  {
    assert pool * a <= pool * b;
    QuotientMonotone(pool * a, pool * b, total);
  }

  lemma QuotientMonotone(x: nat, y: nat, d: nat)
    requires d > 0 && x <= y
    ensures x / d <= y / d
  {
    var p, q := x / d, y / d;
    assert p * d <= x && y < (q + 1) * d;
    if p > q {
      Products(q + 1, p, d, d);
      assert false;
    }
  }

  // ---- Splitting a validator's reward ---------------------------------------------------

  /** Truncation costs less than a unit a share. */
  lemma {:induction false} SharesReach(pool: u64, total: u64, weights: seq<int>, shares: seq<int>)
    requires total > 0 && |weights| == |shares|
    requires forall i :: 0 <= i < |weights| ==>
              0 <= weights[i] < WORD && pool * weights[i] < WORD && shares[i] == Share(pool, weights[i], total)
    ensures total * (Sum(shares) + |shares|) >= pool * Sum(weights)
    decreases |weights|
  {
    hide Share;
    if weights != [] {
      var n := |weights| - 1;
      SharesReach(pool, total, weights[..n], shares[..n]);
      ShareIsTruncated(pool, weights[n], total);
      Distribute3(total, Sum(shares[..n]) + n, shares[n] + 1);
      Distribute3(pool, Sum(weights[..n]), weights[n]);
      assert Sum(shares) + |shares| == Sum(shares[..n]) + n + (shares[n] + 1);
    }
  }

  /** What the delegators of a validator share: the reward less the truncated share of its own
      stake and less the commission on the rest. */
  function Pot(reward: u64, selfStake: u64, total: u64, commissionBps: u64): int
    requires total > 0
  {
    var portion := reward - reward * selfStake / total;
    portion - portion * commissionBps / 10000
  }

  lemma SplitIs(reward: u64, selfStake: u64, commissionBps: u64, dels: seq<Payout>)
    requires commissionBps <= 10000 && dels != [] && 0 < Sum(Amounts(dels))
    requires selfStake + Sum(Amounts(dels)) < WORD && reward * selfStake < WORD && reward * 10000 < WORD
    ensures var delegated := Sum(Amounts(dels));
            var pot := Pot(reward, selfStake, selfStake + delegated, commissionBps);
            && 0 <= pot <= reward && SumDelegations(dels) == delegated
            && SplitReward(reward, selfStake, commissionBps, dels).1 == SplitProRata(pot, delegated, dels)
  {
    hide SumDelegations, Sum, Amounts, SplitProRata, WrapSub;
    SumIsClamped(dels);
    var total := selfStake + Sum(Amounts(dels));
    ShareBound(reward, selfStake, total);
    var portion := reward - Share(reward, selfStake, total);
    ShareBound(portion, commissionBps, 10000);
    assert portion * commissionBps <= reward * 10000 by { Products(portion, reward, commissionBps, 10000); }
  }

  lemma Products(a: int, b: int, c: int, d: int)
    requires 0 <= a <= b && 0 <= c <= d
    ensures a * c <= b * d
  {
  }

  /** The delegators' part of the rest, after commission, to within a unit for each of them. */
  lemma PotFollowsCommission(portion: nat, commissionBps: nat)
    requires commissionBps <= 10000
    ensures var pot := portion - portion * commissionBps / 10000;
            portion * (10000 - commissionBps) <= 10000 * pot < portion * (10000 - commissionBps) + 10000
  {
    var x := portion * commissionBps;
    assert x / 10000 * 10000 <= x < (x / 10000 + 1) * 10000;
    assert portion * (10000 - commissionBps) == 10000 * portion - x;
  }

  /** The split follows the commission: together the delegators get the rest of the reward less
      the commission, give or take the truncation; each gets its truncated part of that; and
      whoever delegated more gets no less. */
  lemma SplitFollowsCommission(reward: u64, selfStake: u64, commissionBps: u64, dels: seq<Payout>)
    requires commissionBps <= 10000 && dels != [] && 0 < Sum(Amounts(dels))
    requires selfStake + Sum(Amounts(dels)) < WORD && reward * 10000 < WORD
    requires reward * (selfStake + Sum(Amounts(dels))) < WORD
    ensures SumDelegations(dels) > 0
    ensures var delegated := Sum(Amounts(dels));
            var portion := reward - reward * selfStake / (selfStake + delegated);
            var payouts := SplitReward(reward, selfStake, commissionBps, dels).1;
            && 10000 * Sum(Amounts(payouts)) < portion * (10000 - commissionBps) + 10000
            && 10000 * (Sum(Amounts(payouts)) + |dels|) >= portion * (10000 - commissionBps)
  {
    hide SplitReward, SplitProRata, SumDelegations, Sum, Amounts;
    var delegated := Sum(Amounts(dels));
    Products(reward, reward, selfStake, selfStake + delegated);
    SplitIs(reward, selfStake, commissionBps, dels);
    var pot := Pot(reward, selfStake, selfStake + delegated, commissionBps);
    PotBounds(reward, selfStake, selfStake + delegated, commissionBps);
    Products(pot, reward, delegated, selfStake + delegated);
    hide Pot;
    ProRataFits(pot, delegated, dels);
    ProRataReaches(pot, delegated, dels);
  }

  lemma PotBounds(reward: u64, selfStake: u64, total: u64, commissionBps: nat)
    requires 0 < total && selfStake <= total && reward * selfStake < WORD && commissionBps <= 10000
    ensures var portion := reward - reward * selfStake / total;
            var pot := Pot(reward, selfStake, total, commissionBps);
            portion * (10000 - commissionBps) <= 10000 * pot < portion * (10000 - commissionBps) + 10000
  {
    ShareBound(reward, selfStake, total);
    PotFollowsCommission(reward - reward * selfStake / total, commissionBps);
  }

  lemma ProRataReaches(pool: u64, total: u64, dels: seq<Payout>)
    requires total > 0 && total == Sum(Amounts(dels)) && pool * total < WORD
    ensures Sum(Amounts(SplitProRata(pool, total, dels))) + |dels| >= pool
  {
    var shares := Amounts(SplitProRata(pool, total, dels));
    forall i | 0 <= i < |dels| ensures pool * dels[i].1 < WORD {
      PartOfSum(dels, i);
      Products(pool, pool, dels[i].1, total);
    }
    SharesReach(pool, total, Amounts(dels), shares);
    if Sum(shares) + |dels| < pool { Larger(total, Sum(shares) + |dels|, pool); }
  }

  lemma {:induction false} PartOfSum(dels: seq<Payout>, i: nat)
    requires i < |dels|
    ensures dels[i].1 <= Sum(Amounts(dels))
    decreases |dels|
  {
    var n := |dels| - 1;
    SumIsClamped(dels[..n]);
    assert Amounts(dels)[..n] == Amounts(dels[..n]);
    if i < n { PartOfSum(dels[..n], i); }
  }

  /** Without commission the validator keeps its own share and at most a unit a delegator; at
      full commission no delegator is paid. */
  lemma CommissionEnds(reward: u64, selfStake: u64, dels: seq<Payout>)
    requires dels != [] && 0 < Sum(Amounts(dels)) && selfStake + Sum(Amounts(dels)) < WORD
    requires reward * 10000 < WORD && reward * (selfStake + Sum(Amounts(dels))) < WORD
    ensures SumDelegations(dels) > 0
    ensures var own := reward * selfStake / (selfStake + Sum(Amounts(dels)));
            && own <= SplitReward(reward, selfStake, 0, dels).0 <= own + |dels|
            && SplitReward(reward, selfStake, 10000, dels).0 == reward
  {
    hide SplitReward, SumDelegations, Amounts, Sum;
    SplitFollowsCommission(reward, selfStake, 0, dels);
    SplitFollowsCommission(reward, selfStake, 10000, dels);
    SplitConserves(reward, selfStake, 0, dels);
    SplitConserves(reward, selfStake, 10000, dels);
  }

  /** Each delegator's payout is its truncated part of the pot, and more stake is never less
      pay. By `SplitIs` these are the payouts of the split. */
  lemma PayoutsFollowStake(pot: u64, delegated: u64, dels: seq<Payout>, i: nat, j: nat)
    requires i < |dels| && j < |dels| && 0 < delegated == Sum(Amounts(dels)) && pot * delegated < WORD
    ensures var payouts := SplitProRata(pot, delegated, dels);
            && |payouts| == |dels| && payouts[i].0 == dels[i].0
            && delegated * payouts[i].1 <= pot * dels[i].1 < delegated * payouts[i].1 + delegated
            && (dels[i].1 <= dels[j].1 ==> payouts[i].1 <= payouts[j].1)
  {
    hide Sum, Amounts, Share;
    PartOfSum(dels, i);
    PartOfSum(dels, j);
    Products(pot, pot, dels[i].1, delegated);
    Products(pot, pot, dels[j].1, delegated);
    ShareIsTruncated(pot, dels[i].1, delegated);
    if dels[i].1 <= dels[j].1 { SharesAreMonotone(pot, dels[i].1, dels[j].1, delegated); }
  }

  // ---- Fees, refunds, issuance -------------------------------------------------------------

  /** Where the product does not wrap, the refund is that many basis points of the deposit. */
  lemma RefundIsTruncated(deposit: u64, refundBps: u64)
    requires refundBps <= 10000 && deposit * refundBps < WORD
    ensures 10000 * Refund(deposit, refundBps) <= deposit * refundBps < 10000 * (Refund(deposit, refundBps) + 1)
  {
    var x := deposit * refundBps;
    assert x % WORD == x;
    assert x / 10000 * 10000 <= x < (x / 10000 + 1) * 10000;
  }

  /** And so is the burned share of a fee. */
  lemma BurnIsTruncated(consumed: u64, burnBps: u64)
    requires consumed * burnBps < WORD
    ensures 10000 * BurnedShare(consumed, burnBps) <= consumed * burnBps < 10000 * (BurnedShare(consumed, burnBps) + 1)
  {
    var x := consumed * burnBps;
    assert x % WORD == x;
    assert x / 10000 * 10000 <= x < (x / 10000 + 1) * 10000;
  }

  /** The rate is in millionths of the supply an epoch. */
  lemma IssuanceIsTruncated(rate: u64, supply: u64)
    requires rate * supply < WORD
    ensures 1_000_000 * IssuanceFor(rate, supply) <= rate * supply < 1_000_000 * (IssuanceFor(rate, supply) + 1)
  {
    ShareIsTruncated(rate, supply, 1_000_000);
  }

  /** The ratio the thermostat reads is in thousandths of the supply. */
  lemma RatioIsTruncated(bonded: u64, supply: u64)
    requires supply > 0 && 1000 * bonded < WORD
    ensures supply * StakingRatio(bonded, supply) <= 1000 * bonded < supply * (StakingRatio(bonded, supply) + 1)
  {
    ShareIsTruncated(1000, bonded, supply);
  }

  /** The members behind the seats. */
  function Members(seats: Seats): Stake.ValidatorSet
  {
    seq(|seats|, i requires 0 <= i < |seats| => seats[i].1)
  }

  lemma {:induction false} BondedIsClamped(seats: Seats)
    ensures TotalBonded(seats) == Stake.Clamp(Stake.StakeSum(Members(seats)))
  {
    hide Stake.EffectiveStake;
    if seats != [] {
      var n := |seats| - 1;
      BondedIsClamped(seats[..n]);
      assert Members(seats)[..n] == Members(seats[..n]);
    }
  }

  /** A live validator weighs its stake times the rounds it produced. */
  lemma WeightIsProduct(key: Hash, was: Validator, produced: map<Hash, u64>)
    ensures was.jailed || key !in produced ==> RewardWeight(key, was, produced) == 0
    ensures !was.jailed && key in produced && was.selfStake + was.delegated < WORD
            && (was.selfStake + was.delegated) * produced[key] < WORD ==>
              RewardWeight(key, was, produced) == (was.selfStake + was.delegated) * produced[key]
  {
  }
}
