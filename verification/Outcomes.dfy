/** What each ledger operation does to each account, and when it is refused
    (internal/consensus/commit.go, coins.go, epoch.go). */
module Outcomes {
  import opened Common
  import opened Sums
  import opened Ledger
  import opened Rewards
  import opened Settlement
  import Stake

  function BalanceIn(b: Book, coin: Hash): u64
  {
    if coin in b.coins then b.coins[coin].balance else 0
  }

  function SelfStakeIn(b: Book, v: Hash): u64
  {
    if v in b.validators then b.validators[v].selfStake else 0
  }

  /** A strict debit takes only from a coin that is not replicated and covers it. */
  predicate Spendable(b: Book, coin: Hash, amount: u64)
  {
    coin in b.coins && b.coins[coin].replication == 0 && b.coins[coin].balance >= amount
  }

  // ---- Staking -----------------------------------------------------------------------------

  /** A bond is accepted exactly when it leaves the validator at or above the least stake and
      the coin pays for it; then just that much moves from the coin into the stake. */
  lemma BondOutcome(b: Book, sender: Hash, coin: Hash, amount: u64, minStake: u64)
    requires SelfStakeIn(b, sender) + amount < WORD
    ensures var (b', ok) := Bond(b, sender, coin, amount, minStake);
            && (ok <==> && amount > 0 && sender in b.validators && minStake <= SelfStakeIn(b, sender) + amount
                        && Spendable(b, coin, amount))
            && (!ok ==> b' == b)
            && (ok ==> && SelfStakeIn(b', sender) == SelfStakeIn(b, sender) + amount
                       && BalanceIn(b', coin) == BalanceIn(b, coin) - amount
                       && b'.positions == b.positions && b'.fees == b.fees && b'.supply == b.supply)
  {
  }

  /** An unbond is accepted exactly when the stake covers it, what is left is nothing or at
      least the least stake, and the coin can take it. */
  lemma UnbondOutcome(b: Book, sender: Hash, coin: Hash, amount: u64, minStake: u64)
    requires BalanceIn(b, coin) + amount < WORD
    ensures var (b', ok) := Unbond(b, sender, coin, amount, minStake);
            && (ok <==> && 0 < amount <= SelfStakeIn(b, sender) && coin in b.coins
                        && (SelfStakeIn(b, sender) == amount || minStake <= SelfStakeIn(b, sender) - amount))
            && (!ok ==> b' == b)
            && (ok ==> && SelfStakeIn(b', sender) == SelfStakeIn(b, sender) - amount
                       && BalanceIn(b', coin) == BalanceIn(b, coin) + amount
                       && b'.positions == b.positions && b'.fees == b.fees && b'.supply == b.supply)
  {
  }

  /** A delegation needs a live validator and a coin that pays. */
  lemma DelegateOutcome(b: Book, d: Hash, coin: Hash, v: Hash, amount: u64)
    requires DelegatedTo(b.validators, v) + amount < WORD
    ensures var (b', ok) := Delegate(b, d, coin, v, amount);
            && (ok <==> amount > 0 && v in b.validators && !b.validators[v].jailed && Spendable(b, coin, amount))
            && (!ok ==> b' == b)
            && (ok ==> && d in PositionsOf(b', v) && PositionsOf(b', v)[d] == amount
                       && DelegatedTo(b'.validators, v) == DelegatedTo(b.validators, v) + amount
                       && BalanceIn(b', coin) == BalanceIn(b, coin) - amount)
  {
  }

  /** Undelegating closes the position and pays all of it into the coin. */
  lemma UndelegateOutcome(b: Book, d: Hash, coin: Hash, v: Hash)
    requires d in PositionsOf(b, v) ==> 0 < PositionsOf(b, v)[d] && BalanceIn(b, coin) + PositionsOf(b, v)[d] < WORD
    ensures var (b', ok) := Undelegate(b, d, coin, v);
            && (ok <==> d in PositionsOf(b, v) && coin in b.coins)
            && (!ok ==> b' == b)
            && (ok ==> && d !in PositionsOf(b', v)
                       && BalanceIn(b', coin) == BalanceIn(b, coin) + PositionsOf(b, v)[d])
  {
  }

  // ---- Fees and deposits ---------------------------------------------------------------------

  /** A covered charge takes both parts from the coin, pools the consumed part less its burned
      share and withholds the storage part. One the coin cannot cover drains it into the pool. */
  lemma ChargeOutcome(b: Book, coin: Hash, consumed: u64, storage: u64, burnBps: u64, epoch: nat)
    requires consumed + storage < WORD && burnBps <= BPS_MAX && BurnedShare(consumed, burnBps) <= consumed
    requires Bucket(b.fees, epoch) + consumed + storage < WORD && b.withheld + storage < WORD
    ensures var (b', ok) := Charge(b, coin, consumed, storage, burnBps, epoch);
            && (ok && consumed + storage > 0 ==>
                  && BalanceIn(b', coin) == BalanceIn(b, coin) - consumed - storage
                  && Bucket(b'.fees, epoch) == Bucket(b.fees, epoch) + consumed - BurnedShare(consumed, burnBps)
                  && b'.withheld == b.withheld + storage)
            && (!ok && coin in b.coins ==>
                  && BalanceIn(b', coin) == 0 && b'.withheld == b.withheld
                  && Bucket(b'.fees, epoch) == Bucket(b.fees, epoch) + BalanceIn(b, coin))
            && (consumed + storage == 0 || coin !in b.coins ==> b' == b)
            && (forall e :: e != epoch ==> Bucket(b'.fees, e) == Bucket(b.fees, e))
  {
    hide BurnedShare;
    WrappedShare(consumed, burnBps);
  }

  /** Deleting an object pays the refund into the gas coin and burns the rest of the deposit;
      without a coin to pay, it burns all of it. */
  lemma DeletionOutcome(b: Book, id: Hash, gasCoin: Option<Hash>, refundBps: u64)
    requires refundBps <= BPS_MAX && id in b.deposits && b.deposits[id] <= b.supply
    requires gasCoin.Some? ==> BalanceIn(b, gasCoin.value) + b.deposits[id] < WORD
    ensures var (b', refund) := SettleDeletion(b, id, gasCoin, refundBps);
            var payable := gasCoin.Some? && gasCoin.value in b.coins;
            && refund == (if payable then Refund(b.deposits[id], refundBps) else 0)
            && b'.supply == b.supply - (b.deposits[id] - refund)
            && (gasCoin.Some? ==> BalanceIn(b', gasCoin.value) == BalanceIn(b, gasCoin.value) + refund)
            && id !in b'.deposits
  {
    hide Refund;
    NoRefund(b.deposits[id], refundBps);
  }

  lemma NoRefund(deposit: u64, refundBps: u64)
    requires refundBps <= BPS_MAX
    ensures deposit == 0 || refundBps == 0 ==> Refund(deposit, refundBps) == 0
  {
  }

  /** Pooling moves the whole withheld deposit into one epoch's bucket. */
  lemma PoolOutcome(b: Book, epoch: nat, e: nat)
    requires Bucket(b.fees, epoch) + b.withheld < WORD
    ensures var b' := PoolWithheld(b, epoch);
            && b'.withheld == 0 && b' == b.(fees := b'.fees, withheld := 0)
            && Bucket(b'.fees, e) == Bucket(b.fees, e) + if e == epoch then b.withheld else 0
  {
  }

  // ---- Rewards -----------------------------------------------------------------------------------

  /** A validator's reward goes into its stake when it names no coin; otherwise the restaked
      part goes into its stake and the rest into its coin, or nowhere if the coin is missing. */
  lemma ValidatorReceives(b: Book, key: Hash, amount: u64, restakeMille: u64)
    requires key in b.validators && restakeMille <= MILLE_MAX && amount * restakeMille < WORD
    requires b.validators[key].selfStake + amount < WORD
    requires BalanceIn(b, b.validators[key].rewardCoin) + amount < WORD
    ensures var was := b.validators[key];
            var (b', moved) := CreditValidator(b, key, was, amount, restakeMille);
            var restake := amount * restakeMille / 1000;
            && (was.rewardCoin == ZERO_HASH ==>
                  SelfStakeIn(b', key) == was.selfStake + amount && b'.coins == b.coins && moved == amount)
            && (was.rewardCoin != ZERO_HASH ==> SelfStakeIn(b', key) == was.selfStake + restake)
            && (was.rewardCoin != ZERO_HASH && was.rewardCoin in b.coins ==>
                  && BalanceIn(b', was.rewardCoin) == BalanceIn(b, was.rewardCoin) + amount - restake
                  && moved == amount)
            && (was.rewardCoin != ZERO_HASH && was.rewardCoin !in b.coins && restake < amount ==> moved == restake)
  {
    hide Credit;
    var was := b.validators[key];
    RestakeIs(amount, restakeMille);
    SameSelf(b, key);
    var restake := amount * restakeMille / 1000;
    var staked := SetSelf(b, key, was.selfStake + restake);
    CoinReceives(staked, was.rewardCoin, amount - restake);
  }

  lemma RestakeIs(amount: u64, restakeMille: u64)
    requires restakeMille <= MILLE_MAX && amount * restakeMille < WORD
    ensures 0 <= Share(amount, restakeMille, MILLE_MAX) == amount * restakeMille / 1000 <= amount
  {
    ShareBound(amount, restakeMille, MILLE_MAX);
  }

  lemma CoinReceives(b: Book, coin: Hash, amount: u64)
    requires BalanceIn(b, coin) + amount < WORD
    ensures Credit(b, coin, amount).Some? <==> amount == 0 || coin in b.coins
    ensures Credit(b, coin, amount).Some? ==>
              && BalanceIn(Credit(b, coin, amount).value, coin) == BalanceIn(b, coin) + amount
              && Credit(b, coin, amount).value.validators == b.validators
  {
  }

  /** The remainder of a pool goes to the top validator's coin, if it names one that exists. */
  lemma RemainderOutcome(b: Book, top: Hash, remainder: u64)
    requires top in b.validators ==> BalanceIn(b, b.validators[top].rewardCoin) + remainder < WORD
    ensures var (b', rest) := CreditRemainder(b, top, remainder);
            && rest == (if PaidInCoin(b, top) then remainder else 0)
            && (PaidInCoin(b, top) ==> BalanceIn(b', b.validators[top].rewardCoin)
                                       == BalanceIn(b, b.validators[top].rewardCoin) + remainder)
            && (!PaidInCoin(b, top) ==> b' == b)
  {
  }

  /** Nothing is minted for an epoch in which nobody earned a share. */
  lemma NoWorkNoMint(b: Book, rate: u64, p: Thermostat, seats: Seats, s: Schedule)
    ensures TotalWeight(seats, s.produced) == 0 ==> Minted(b, rate, p, seats, s).1 == 0
    ensures var next := AdjustRate(rate, StakingRatio(TotalBonded(seats), b.supply), p);
            && Minted(b, rate, p, seats, s).0 == next
            && (TotalWeight(seats, s.produced) > 0 ==> Minted(b, rate, p, seats, s).1 == IssuanceFor(next, b.supply))
  {
    hide AdjustRate, TotalBonded, StakingRatio, IssuanceFor, TotalWeight;
  }

  /** Every seat is paid its own share: a validator without delegators or reward coin finds
      exactly that much more in its stake. */
  lemma {:induction false} SeatIsPaid(b: Book, seats: Seats, pool: u64, total: u64, s: Schedule, i: nat)
    requires Ready(b) && SeatsOf(b, seats) && Listing(b, s) && Payable(seats, s) && total > 0 && i < |seats|
    requires Paid(b) >= 0 && Paid(b) + Sum(Shares(seats, pool, total, s.produced)) < WORD
    requires forall j :: 0 <= j < |seats| ==> Sum(Shares(seats[..j], pool, total, s.produced)) >= 0
    requires Listed(s, seats[i].0) == [] && seats[i].1.rewardCoin == ZERO_HASH && !seats[i].1.jailed
    ensures var b' := CreditShares(b, seats, pool, total, s).0;
            var share := Share(pool, RewardWeight(seats[i].0, seats[i].1, s.produced), total);
            SelfStakeIn(b', seats[i].0) == seats[i].1.selfStake + share
    decreases |seats|
  {
    hide Ready, Paid, Lists, Credits, Spares, Share, RewardWeight, Sum, Shares, CreditShare, Keys, Listed,
      SumDelegations;
    var n := |seats| - 1;
    SharesPrefix(seats, n, pool, total, s.produced);
    SharesPaid(b, seats[..n], pool, total, s);
    var (p, distributed) := CreditShares(b, seats[..n], pool, total, s);
    var (key, was) := seats[n];
    var share := Share(pool, RewardWeight(key, was, s.produced), total);
    if was.jailed { JailedHasNoShare(key, was, pool, total, s.produced); }
    NotYet(seats);
    CreditsFacts(b, p, distributed);
    SparedAt(b, p, Keys(seats[..n]), key);
    if i < n {
      SeatIsPaid(b, seats[..n], pool, total, s, i);
      OthersKept(b, p, Keys(seats[..n]), key, was, share, s, seats[i].0);
    } else {
      AloneInSeat(p, key, was, share, s);
    }
  }

  /** And so through the settlement of the epoch before `current`. */
  lemma SettledSeatIsPaid(b: Book, current: nat, rate: u64, p: Thermostat, seats: Seats, s: Schedule, i: nat)
    requires Sound(b) && SeatsOf(b, seats) && Listing(b, s) && Payable(seats, s) && current > 0 && i < |seats|
    requires PoolSuffices(seats, SettledPool(b, current, rate, p, seats, s), s.produced)
    requires b.supply + Minted(b, rate, p, seats, s).1 < WORD && TotalWeight(seats, s.produced) > 0
    requires Listed(s, seats[i].0) == [] && seats[i].1.rewardCoin == ZERO_HASH && !seats[i].1.jailed
    ensures var pool := Bucket(b.fees, current - 1) + Minted(b, rate, p, seats, s).1;
            var weight := RewardWeight(seats[i].0, seats[i].1, s.produced);
            && pool < WORD
            && SelfStakeIn(Settle(b, current, rate, p, seats, s).0, seats[i].0)
               == seats[i].1.selfStake + Share(pool, weight, TotalWeight(seats, s.produced))
  {
    Parts(b);
    hide Bonded, Balances, Covered, Distribute, Payable, Total, Sum, Weights, TotalWeight, Minted, Listing, SeatsOf,
      PoolSuffices, Share, RewardWeight;
    var issuance := Minted(b, rate, p, seats, s).1;
    var minted := b.(supply := b.supply + issuance);
    SameListing(b, minted, seats, s);
    DistributedSeatIsPaid(minted, current - 1, issuance, seats, s, i);
  }

  lemma DistributedSeatIsPaid(b: Book, epoch: nat, issuance: u64, seats: Seats, s: Schedule, i: nat)
    requires Ready(b) && SeatsOf(b, seats) && Listing(b, s) && Payable(seats, s) && i < |seats|
    requires PoolSuffices(seats, SafeAdd(Bucket(b.fees, epoch), issuance), s.produced)
    requires Paid(b) >= 0 && Paid(b) + Bucket(b.fees, epoch) + issuance < WORD && TotalWeight(seats, s.produced) > 0
    requires Listed(s, seats[i].0) == [] && seats[i].1.rewardCoin == ZERO_HASH && !seats[i].1.jailed
    ensures var pool := Bucket(b.fees, epoch) + issuance;
            var weight := RewardWeight(seats[i].0, seats[i].1, s.produced);
            SelfStakeIn(Distribute(b, epoch, issuance, seats, s).0, seats[i].0)
            == seats[i].1.selfStake + Share(pool, weight, TotalWeight(seats, s.produced))
  {
    hide Ready, Paid, CreditShares, CreditRemainder, Listing, Payable, Sum, Weights, Top, TotalWeight, PoolSuffices,
      RewardWeight, Listed;
    var pool, total := SafeAdd(Bucket(b.fees, epoch), issuance), TotalWeight(seats, s.produced);
    PaidIsNatural(b);
    if pool == 0 {
      NoPool(RewardWeight(seats[i].0, seats[i].1, s.produced), total);
    } else {
      SharesFitPoolIff(seats, pool, s.produced);
      PrefixShares(seats, pool, total, s.produced);
      SeatIsPaid(b, seats, pool, total, s, i);
      var (paid, distributed) := CreditShares(b, seats, pool, total, s);
      RemainderKeepsStakes(paid, Top(seats, s.produced).0, WrapSub(pool, distributed));
    }
  }

  lemma PaidIsNatural(b: Book)
    requires Ready(b)
    ensures Paid(b) >= 0
  {
    Parts(b);
  }

  lemma NoPool(weight: u64, total: u64)
    requires total > 0
    ensures Share(0, weight, total) == 0
  {
  }

  lemma RemainderKeepsStakes(b: Book, top: Hash, remainder: u64)
    ensures CreditRemainder(b, top, remainder).0.validators == b.validators
  {
  }

  lemma OthersKept(b: Book, p: Book, keys: set<Hash>, key: Hash, was: Validator, share: u64, s: Schedule, other: Hash)
    requires Ready(p) && Spares(b, p, keys) && other in b.validators && other != key
    requires Governed(s) && key in p.validators && was == p.validators[key] && (was.jailed ==> share == 0)
    requires Lists(PositionsOf(p, key), Listed(s, key)) && Paid(p) >= 0 && Paid(p) + share < WORD
    ensures Listed(s, key) != [] ==> SumDelegations(Listed(s, key)) > 0
    ensures SelfStakeIn(CreditShare(p, key, was, share, s).0, other) == SelfStakeIn(p, other)
  {
    hide Ready, Paid, Lists, Credits, CreditShare, Listed, SumDelegations;
    SharePaid(p, key, was, share, s);
  }

  lemma AloneInSeat(b: Book, key: Hash, was: Validator, share: u64, s: Schedule)
    requires Ready(b) && Governed(s) && key in b.validators && was == b.validators[key] && !was.jailed
    requires Listed(s, key) == [] && was.rewardCoin == ZERO_HASH && Paid(b) >= 0 && Paid(b) + share < WORD
    ensures SelfStakeIn(CreditShare(b, key, was, share, s).0, key) == was.selfStake + share
  {
    Parts(b);
    hide Bonded, Balances, Covered, Share;
    assert was.selfStake + share < WORD;
  }

  // ---- Departures ----------------------------------------------------------------------------------

  /** Nobody delegates to the validator, and its stake is zero or has a coin to return to. */
  predicate MayLeave(b: Book, key: Hash)
  {
    && DelegatedTo(b.validators, key) == 0
    && (ReleasedSelfStake(b, key) == 0 || PaidInCoin(b, key))
  }

  lemma DepartsIff(b: Book, key: Hash)
    requires Sound(b)
    ensures Depart(b, key).Some? <==> MayLeave(b, key)
    ensures MayLeave(b, key) ==> forall k :: k != key ==> (MayLeave(Depart(b, key).value, k) <==> MayLeave(b, k))
  {
    Parts(b);
    var principal := ReleasedSelfStake(b, key);
    if principal != 0 { CreditMoves(b, b.validators[key].rewardCoin, principal); }
    hide Bonded, Balances, Covered;
  }

  /** Pending removals are worked off in order: whoever may leave does, unless the churn limit
      was reached first. */
  lemma {:induction false} RemovalsAreComplete(b: Book, pending: seq<Hash>, maxChurn: nat, i: nat)
    requires Sound(b) && i < |pending| && forall j, k :: 0 <= j < k < |pending| ==> pending[j] != pending[k]
    ensures var removed := ApplyRemovals(b, pending, maxChurn).1;
            && (pending[i] in removed ==> MayLeave(b, pending[i]))
            && (MayLeave(b, pending[i]) ==> pending[i] in removed || (maxChurn > 0 && |removed| == maxChurn))
    decreases |pending|
  {
    hide Sound, Depart, MayLeave;
    var n := |pending| - 1;
    RemovalsConserve(b, pending[..n], maxChurn);
    var (before, removed) := ApplyRemovals(b, pending[..n], maxChurn);
    SameLeavers(b, pending[..n], maxChurn, pending[n]);
    DepartsIff(before, pending[n]);
    if i < n { RemovalsAreComplete(b, pending[..n], maxChurn, i); }
    else { assert pending[n] !in pending[..n]; }
  }

  /** Departures leave the standing of everybody else as it was. */
  lemma {:induction false} SameLeavers(b: Book, pending: seq<Hash>, maxChurn: nat, k: Hash)
    requires Sound(b) && k !in pending
    ensures MayLeave(ApplyRemovals(b, pending, maxChurn).0, k) <==> MayLeave(b, k)
    decreases |pending|
  {
    hide Sound, Depart, MayLeave;
    if pending != [] {
      var n := |pending| - 1;
      SameLeavers(b, pending[..n], maxChurn, k);
      RemovalsConserve(b, pending[..n], maxChurn);
      DepartsIff(ApplyRemovals(b, pending[..n], maxChurn).0, pending[n]);
    }
  }
}
