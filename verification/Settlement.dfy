/** Epoch settlement and boundary removals conserve the supply identity, over every run
    (internal/consensus/epoch.go, thermostat.go). */
module Settlement {
  import opened Common
  import opened Sums
  import opened Ledger
  import opened Rewards
  import Stake

  // ---- Distribution -----------------------------------------------------------------

  lemma RemainderPaid(b: Book, top: Hash, remainder: u64)
    requires Ready(b) && Paid(b) + remainder < WORD
    ensures var (b', rest) := CreditRemainder(b, top, remainder);
            && Credits(b, b', rest) && b'.validators == b.validators && (rest == 0 || rest == remainder)
            && (PaidInCoin(b, top) ==> rest == remainder)
  {
    hide Ready, Paid;
    NothingCredited(b, top);
    if remainder != 0 && top in b.validators && b.validators[top].rewardCoin != ZERO_HASH {
      CoinMoves(b, top, b.validators[top].rewardCoin, remainder);
    }
  }

  lemma PrefixShares(seats: Seats, pool: u64, total: u64, produced: map<Hash, u64>)
    requires total > 0
    ensures forall i :: 0 <= i < |seats| ==> Sum(Shares(seats[..i], pool, total, produced)) >= 0
  {
    hide Share, RewardWeight;
    forall i | 0 <= i < |seats| ensures Sum(Shares(seats[..i], pool, total, produced)) >= 0 {
      SharesNonNegative(seats[..i], pool, total, produced);
    }
  }

  lemma {:induction false} SharesNonNegative(seats: Seats, pool: u64, total: u64, produced: map<Hash, u64>)
    requires total > 0
    ensures Sum(Shares(seats, pool, total, produced)) >= 0
  {
    if seats != [] {
      var n := |seats| - 1;
      SharesNonNegative(seats[..n], pool, total, produced);
      assert Shares(seats, pool, total, produced)[..n] == Shares(seats[..n], pool, total, produced);
    }
  }

  /** The seats that would each take a whole unit of the pool were the total saturated. */
  function Takers(seats: Seats, pool: u64, produced: map<Hash, u64>): nat
  {
    if seats == [] then 0
    else
      var n := |seats| - 1;
      var takes := pool * RewardWeight(seats[n].0, seats[n].1, produced) >= MAX_U64;
      Takers(seats[..n], pool, produced) + if takes then 1 else 0
  }

  /** Either the total weight is exact, or no more seats take a unit than the pool holds. */
  predicate PoolSuffices(seats: Seats, pool: u64, produced: map<Hash, u64>)
  {
    Sum(Weights(seats, produced)) < WORD || Takers(seats, pool, produced) <= pool
  }

  lemma SaturatedShare(pool: u64, weight: u64)
    ensures Share(pool, weight, MAX_U64) == if pool * weight >= MAX_U64 then 1 else 0
  {
  }

  lemma {:induction false} SaturatedSharesAreTakers(seats: Seats, pool: u64, produced: map<Hash, u64>)
    ensures Sum(Shares(seats, pool, MAX_U64, produced)) == Takers(seats, pool, produced)
  {
    hide RewardWeight, Share;
    if seats != [] {
      var n := |seats| - 1;
      SaturatedSharesAreTakers(seats[..n], pool, produced);
      SaturatedShare(pool, RewardWeight(seats[n].0, seats[n].1, produced));
      assert Shares(seats, pool, MAX_U64, produced)[..n] == Shares(seats[..n], pool, MAX_U64, produced);
    }
  }

  /** The shares of an epoch fit its pool exactly when the total weight does not saturate or
      the seats taking a unit of a saturated total do not outnumber the pool's units. */
  lemma SharesFitPoolIff(seats: Seats, pool: u64, produced: map<Hash, u64>)
    requires TotalWeight(seats, produced) > 0
    ensures Sum(Shares(seats, pool, TotalWeight(seats, produced), produced)) <= pool
            <==> PoolSuffices(seats, pool, produced)
  {
    hide Shares, Share, Weights, TotalWeight, Takers, Sum;
    var total := TotalWeight(seats, produced);
    WeightIsClamped(seats, produced);
    if Sum(Weights(seats, produced)) < WORD {
      SharesOfPool(seats, pool, total, produced);
    } else {
      SaturatedSharesAreTakers(seats, pool, produced);
    }
  }

  /** Every unit of the pool is credited or carried forward: none is lost, none invented. */
  lemma DistributionConserves(b: Book, epoch: nat, issuance: u64, seats: Seats, s: Schedule)
    requires Ready(b) && SeatsOf(b, seats) && Listing(b, s) && Payable(seats, s)
    requires PoolSuffices(seats, SafeAdd(Bucket(b.fees, epoch), issuance), s.produced)
    requires Paid(b) >= 0 && Paid(b) + Bucket(b.fees, epoch) + issuance < WORD
    ensures var pool := Bucket(b.fees, epoch) + issuance;
            var (b', leftover) := Distribute(b, epoch, issuance, seats, s);
            && Credits(b, b', pool - leftover) && 0 <= leftover <= pool
            && (TotalWeight(seats, s.produced) > 0 && PaidInCoin(b, Top(seats, s.produced).0) ==> leftover == 0)
  {
    hide Ready, Paid, Credits, CreditShares, CreditRemainder, Listing, SeatsOf, Payable, Sum, Weights, Top, TotalWeight,
      PoolSuffices;
    var pool := SafeAdd(Bucket(b.fees, epoch), issuance);
    var total := TotalWeight(seats, s.produced);
    WeightIsClamped(seats, s.produced);
    NothingCredited(b, 0);
    if pool != 0 && total != 0 {
      SharesFitPoolIff(seats, pool, s.produced);
      PrefixShares(seats, pool, total, s.produced);
      SharesPaid(b, seats, pool, total, s);
      var (paid, distributed) := CreditShares(b, seats, pool, total, s);
      ExactSub(pool, distributed);
      CreditsFacts(b, paid, distributed);
      var top := Top(seats, s.produced).0;
      RemainderPaid(paid, top, pool - distributed);
      var (final, rest) := CreditRemainder(paid, top, pool - distributed);
      CreditsCompose(b, paid, final, distributed, rest);
      SmallSum(distributed, rest);
      ExactSub(pool, distributed + rest);
      StillPaidInCoin(b, paid, top, Keys(seats));
    }
  }

  /** The validator designates a reward coin that exists. */
  predicate PaidInCoin(b: Book, v: Hash)
  {
    v in b.validators && b.validators[v].rewardCoin != ZERO_HASH && b.validators[v].rewardCoin in b.coins
  }

  lemma StillPaidInCoin(b: Book, p: Book, v: Hash, keys: set<Hash>)
    requires Spares(b, p, keys) && p.coins.Keys == b.coins.Keys
    ensures PaidInCoin(b, v) ==> PaidInCoin(p, v)
  {
  }

  /** The recipient of the remainder is the one seat of greatest weight and, among equals,
      lowest key, whatever order the seats are read in. */
  lemma {:induction false} TopIsGreatest(seats: Seats, produced: map<Hash, u64>, i: nat)
    requires i < |seats| && RewardWeight(seats[i].0, seats[i].1, produced) > 0
    ensures var (best, weight) := Top(seats, produced);
            && weight >= RewardWeight(seats[i].0, seats[i].1, produced)
            && (weight == RewardWeight(seats[i].0, seats[i].1, produced) ==> best <= seats[i].0)
            && exists j :: 0 <= j < |seats| && best == seats[j].0
                           && weight == RewardWeight(seats[j].0, seats[j].1, produced)
    decreases |seats|
  {
    hide RewardWeight;
    var n := |seats| - 1;
    TopIsSeat(seats, produced);
    TopIsSeat(seats[..n], produced);
    if i < n { TopIsGreatest(seats[..n], produced, i); }
  }

  lemma {:induction false} TopIsSeat(seats: Seats, produced: map<Hash, u64>)
    ensures var (best, weight) := Top(seats, produced);
            weight == 0 || exists j :: 0 <= j < |seats|
                                       && best == seats[j].0 && weight == RewardWeight(seats[j].0, seats[j].1, produced)
  {
    hide RewardWeight;
    if seats != [] {
      var n := |seats| - 1;
      TopIsSeat(seats[..n], produced);
      var (best, weight) := Top(seats[..n], produced);
      if weight != 0 {
        var j :| 0 <= j < n && best == seats[..n][j].0
                 && weight == RewardWeight(seats[..n][j].0, seats[..n][j].1, produced);
        assert best == seats[j].0 && weight == RewardWeight(seats[j].0, seats[j].1, produced);
      }
    }
  }

  /** Two nodes that enumerate the same set in different orders pick the same recipient. */
  lemma TopIgnoresOrder(a: Seats, b: Seats, produced: map<Hash, u64>)
    requires forall x :: x in a <==> x in b
    ensures Top(a, produced).1 == Top(b, produced).1
    ensures Top(a, produced).1 > 0 ==> Top(a, produced) == Top(b, produced)
  {
    hide RewardWeight, Top;
    TopIsSeat(a, produced);
    TopIsSeat(b, produced);
    if Top(a, produced).1 > 0 { TopAtLeast(a, b, produced); }
    if Top(b, produced).1 > 0 { TopAtLeast(b, a, produced); }
  }

  lemma TopAtLeast(a: Seats, b: Seats, produced: map<Hash, u64>)
    requires forall x :: x in a <==> x in b
    requires Top(a, produced).1 > 0
    ensures Top(b, produced).1 >= Top(a, produced).1
    ensures Top(b, produced).1 == Top(a, produced).1 ==> Top(b, produced).0 <= Top(a, produced).0
  {
    hide RewardWeight, Top;
    TopIsSeat(a, produced);
    var (best, weight) := Top(a, produced);
    var j :| 0 <= j < |a| && best == a[j].0 && weight == RewardWeight(a[j].0, a[j].1, produced);
    assert a[j] in b;
    var i :| 0 <= i < |b| && b[i] == a[j];
    TopIsGreatest(b, produced, i);
  }

  lemma TwoTerms(a: int, b: int)
    ensures Sum([a, b]) == a + b
  {
    SumPush([], a);
    SumPush([a], b);
    assert [] + [a] == [a] && [a] + [b] == [a, b];
  }

  // ---- Thermostat -------------------------------------------------------------------

  datatype Thermostat = Thermostat(lowMille: u64, highMille: u64, floor: u64, ceiling: u64, step: u64)

  function ClampRate(rate: u64, p: Thermostat): u64
  {
    if rate < p.floor then p.floor else if rate > p.ceiling then p.ceiling else rate
  }

  /** Raise below the band, lower above it, hold inside it; then clamp. */
  function AdjustRate(rate: u64, ratio: u64, p: Thermostat): u64
  {
    if p.lowMille <= ratio <= p.highMille then ClampRate(rate, p)
    else if ratio < p.lowMille then ClampRate(SafeAdd(rate, p.step), p)
    else ClampRate(SubFloor(rate, p.step), p)
  }

  function StakingRatio(bonded: u64, supply: u64): u64
  {
    if supply == 0 then 0 else Share(1000, bonded, supply)
  }

  function IssuanceFor(rate: u64, supply: u64): u64
  {
    Share(rate, supply, 1_000_000)
  }

  function TotalBonded(seats: Seats): u64
  {
    if seats == [] then 0
    else SafeAdd(TotalBonded(seats[..|seats| - 1]), Stake.EffectiveStake(seats[|seats| - 1].1))
  }

  /** Over every history of staking ratios the rate stays between floor and ceiling, and
      no epoch moves it by more than one step, and never away from the band. */
  lemma {:induction false} RateIsBounded(rate: u64, ratios: seq<u64>, p: Thermostat, rates: seq<u64>, i: nat)
    requires p.floor <= rate <= p.ceiling && |rates| == |ratios| + 1 && rates[0] == rate && i < |rates|
    requires forall j :: 0 <= j < |ratios| ==> rates[j + 1] == AdjustRate(rates[j], ratios[j], p)
    ensures p.floor <= rates[i] <= p.ceiling
    ensures i < |ratios| ==>
              && rates[i] - p.step <= rates[i + 1] <= rates[i] + p.step
              && (ratios[i] < p.lowMille ==> rates[i + 1] >= rates[i])
              && (ratios[i] > p.highMille && p.lowMille <= p.highMille ==> rates[i + 1] <= rates[i])
              && (p.lowMille <= ratios[i] <= p.highMille ==> rates[i + 1] == rates[i])
  {
    if i > 0 {
      RateIsBounded(rate, ratios, p, rates, i - 1);
      assert rates[i - 1 + 1] == AdjustRate(rates[i - 1], ratios[i - 1], p);
    }
  }

  /** Outside the band the rate moves a whole step, short of it only at the floor or ceiling. */
  lemma StepIsWhole(rate: u64, ratio: u64, p: Thermostat)
    requires p.floor <= rate <= p.ceiling && p.lowMille <= p.highMille
    ensures ratio < p.lowMille ==>
              AdjustRate(rate, ratio, p) == if rate + p.step > p.ceiling then p.ceiling else rate + p.step
    ensures ratio > p.highMille ==>
              AdjustRate(rate, ratio, p) == if rate - p.step < p.floor then p.floor else rate - p.step
  {
  }

  // ---- Settlement -------------------------------------------------------------------

  function Minted(b: Book, rate: u64, p: Thermostat, seats: Seats, s: Schedule): (u64, u64)
  {
    var next := AdjustRate(rate, StakingRatio(TotalBonded(seats), b.supply), p);
    (next, if TotalWeight(seats, s.produced) > 0 then IssuanceFor(next, b.supply) else 0)
  }

  /** What the settlement of the epoch before `current` distributes. */
  function SettledPool(b: Book, current: nat, rate: u64, p: Thermostat, seats: Seats, s: Schedule): u64
    requires current > 0
  {
    SafeAdd(Bucket(b.fees, current - 1), Minted(b, rate, p, seats, s).1)
  }

  /** settleDeferredEpoch: mint, distribute the epoch closed one boundary ago, drop its
      bucket, and carry what could not be credited into the open epoch. */
  function Settle(b: Book, current: nat, rate: u64, p: Thermostat, seats: Seats, s: Schedule): (Book, u64)
    requires Payable(seats, s)
  {
    if current == 0 then (b, rate)
    else
      var (next, issuance) := Minted(b, rate, p, seats, s);
      var (paid, leftover) := Distribute(b.(supply := SafeAdd(b.supply, issuance)), current - 1, issuance, seats, s);
      var closed := paid.(fees := paid.fees - {current - 1});
      (if leftover > 0 then Pool(closed, current, leftover) else closed, next)
  }

  lemma SettleConserves(b: Book, current: nat, rate: u64, p: Thermostat, seats: Seats, s: Schedule)
    requires Sound(b) && SeatsOf(b, seats) && Listing(b, s) && Payable(seats, s)
    requires current > 0 ==> PoolSuffices(seats, SettledPool(b, current, rate, p, seats, s), s.produced)
    requires b.supply + Minted(b, rate, p, seats, s).1 < WORD
    ensures var b' := Settle(b, current, rate, p, seats, s).0;
            && Sound(b') && Gap(b') == Gap(b)
            && (current > 0 ==> b'.supply == b.supply + Minted(b, rate, p, seats, s).1 && current - 1 !in b'.fees)
  {
    Parts(b);
    hide Bonded, Balances, Covered, Distribute, Payable, Total, Sum, Weights, TotalWeight, Minted, Listing, SeatsOf;
    if current > 0 {
      var issuance := Minted(b, rate, p, seats, s).1;
      var minted := b.(supply := b.supply + issuance);
      SameListing(b, minted, seats, s);
      DistributionConserves(minted, current - 1, issuance, seats, s);
      var (paid, leftover) := Distribute(minted, current - 1, issuance, seats, s);
      CreditsFields(minted, paid, Bucket(b.fees, current - 1) + issuance - leftover);
      TotalDrop<nat>(b.fees, current - 1);
      CloseConserves(b, paid, current, issuance, leftover);
    }
  }

  lemma SameListing(b: Book, minted: Book, seats: Seats, s: Schedule)
    requires minted == b.(supply := minted.supply) && Sound(b) && SeatsOf(b, seats) && Listing(b, s)
    ensures Ready(minted) && SeatsOf(minted, seats) && Listing(minted, s)
  {
    hide Lists, Funded, Held;
    forall v | v in minted.validators ensures Lists(PositionsOf(minted, v), Listed(s, v)) {
      assert PositionsOf(minted, v) == PositionsOf(b, v);
    }
  }

  lemma CreditsFields(b: Book, b': Book, amount: int)
    requires Credits(b, b', amount)
    ensures b'.supply == b.supply && b'.fees == b.fees && b'.deposits == b.deposits && b'.withheld == b.withheld
    ensures Paid(b') == Paid(b) + amount && b'.coinsTotal == Balances(b'.coins) && Covered(b')
  {
    hide Paid, Covered, Balances;
  }

  lemma CloseConserves(b: Book, paid: Book, current: nat, issuance: u64, leftover: u64)
    requires Sound(b) && current > 0 && b.supply + issuance < WORD
    requires paid.supply == b.supply + issuance && paid.fees == b.fees
    requires paid.deposits == b.deposits && paid.withheld == b.withheld
    requires paid.coinsTotal == Balances(paid.coins) && Covered(paid)
    requires leftover <= Bucket(b.fees, current - 1) + issuance
    requires Paid(paid) == Paid(b) + Bucket(b.fees, current - 1) + issuance - leftover
    ensures var closed := paid.(fees := paid.fees - {current - 1});
            var b' := if leftover > 0 then Pool(closed, current, leftover) else closed;
            && Sound(b') && Gap(b') == Gap(b) && current - 1 !in b'.fees && b'.supply == paid.supply
  {
    Parts(b);
    Parts(paid);
    hide Bonded, Balances, Funded, Total;
    TotalDrop<nat>(b.fees, current - 1);
    var closed := paid.(fees := paid.fees - {current - 1});
    if leftover > 0 { PoolMoves(closed, current, leftover); }
  }

  // ---- Where the shares exceed the pool ---------------------------------------------

  /** A live validator of 2^62 self-staked units that designates no reward coin. */
  function Whale(key: Hash): Validator
  {
    Stake.Validator(key, 0x4000_0000_0000_0000, 0, false, ZERO_HASH)
  }

  /** Two of them and a one-unit fee bucket, every unit of the supply accounted for. */
  function TwoWhales(): Book
  {
    Book(map[], 0, 0x8000_0000_0000_0001, map[1 := Whale(1), 2 := Whale(2)], map[], map[], map[0 := 1], 0)
  }

  function WhaleSeats(): Seats
  {
    [(1, Whale(1)), (2, Whale(2))]
  }

  /** Each produced four vertices and nobody delegates. */
  function WhaleSchedule(): Schedule
  {
    Schedule(0, 0, map[1 := 4, 2 := 4], map[])
  }

  /** A thermostat that mints nothing. */
  function NoIssuance(): Thermostat
  {
    Thermostat(0, MAX_U64, 0, 0, 0)
  }

  lemma WhalesAreSound()
    ensures Sound(TwoWhales()) && Gap(TwoWhales()) == 0
  {
    var b := TwoWhales();
    var none: map<Hash, int> := map[];
    assert Stakes(b.validators) == none[1 := 0x4000_0000_0000_0000][2 := 0x4000_0000_0000_0000];
    TotalPut(none, 1, 0x4000_0000_0000_0000);
    TotalPut(none[1 := 0x4000_0000_0000_0000], 2, 0x4000_0000_0000_0000);
    var empty: map<nat, int> := map[];
    assert b.fees == empty[0 := 1];
    TotalPut(empty, 0, 1);
    assert BalanceOf(b.coins) == map[];
  }

  lemma WhaleWeights()
    ensures Weights(WhaleSeats(), WhaleSchedule().produced) == [MAX_U64, MAX_U64]
    ensures TotalWeight(WhaleSeats(), WhaleSchedule().produced) == MAX_U64
    ensures Takers(WhaleSeats(), 1, WhaleSchedule().produced) == 2
    ensures !PoolSuffices(WhaleSeats(), 1, WhaleSchedule().produced)
    ensures Top(WhaleSeats(), WhaleSchedule().produced).0 == 1
  {
    var seats, produced := WhaleSeats(), WhaleSchedule().produced;
    assert RewardWeight(1, Whale(1), produced) == MAX_U64 && RewardWeight(2, Whale(2), produced) == MAX_U64;
    assert seats[..1] == [(1, Whale(1))];
    TwoTerms(MAX_U64, MAX_U64);
  }

  /** Each takes the whole one-unit pool: two units are credited out of one, and the
      leftover wraps to the greatest word. */
  lemma WhalesAreOverpaid(b: Book)
    requires b.validators == TwoWhales().validators && b.fees == map[0 := 1]
    ensures Payable(WhaleSeats(), WhaleSchedule())
    ensures Distribute(b, 0, 0, WhaleSeats(), WhaleSchedule())
            == (SetSelf(SetSelf(b, 1, 0x4000_0000_0000_0001), 2, 0x4000_0000_0000_0001), MAX_U64)
  {
    var seats, s := WhaleSeats(), WhaleSchedule();
    WhaleWeights();
    WhaleShare(b, 1);
    var one := SetSelf(b, 1, 0x4000_0000_0000_0001);
    WhaleShare(one, 2);
    assert seats[..1] == [(1, Whale(1))];
    hide CreditShare;
    assert Share(1, MAX_U64, MAX_U64) == 1;
    assert CreditShares(b, seats[..1], 1, MAX_U64, s) == (one, 1);
    assert CreditShares(b, seats, 1, MAX_U64, s) == (SetSelf(one, 2, 0x4000_0000_0000_0001), 2);
  }

  lemma WhaleShare(b: Book, key: Hash)
    ensures CreditShare(b, key, Whale(key), 1, WhaleSchedule()) == (SetSelf(b, key, 0x4000_0000_0000_0001), 1)
  {
  }

  lemma WhalesAreSeated()
    ensures SeatsOf(TwoWhales(), WhaleSeats()) && Listing(TwoWhales(), WhaleSchedule())
    ensures Payable(WhaleSeats(), WhaleSchedule())
  {
    hide Whale;
  }

  lemma WhalesCarryOver()
    requires Payable(WhaleSeats(), WhaleSchedule())
    ensures SettledPool(TwoWhales(), 1, 0, NoIssuance(), WhaleSeats(), WhaleSchedule()) == 1
    ensures Settle(TwoWhales(), 1, 0, NoIssuance(), WhaleSeats(), WhaleSchedule()).0.fees == map[1 := MAX_U64]
  {
    hide Distribute, TotalBonded, TotalWeight, StakingRatio;
    var b, seats, s := TwoWhales(), WhaleSeats(), WhaleSchedule();
    WhalesAreOverpaid(b);
    assert Minted(b, 0, NoIssuance(), seats, s) == (0, 0);
    assert b.(supply := SafeAdd(b.supply, 0)) == b;
  }

  /** The same at the ledger: a settlement of a sound book, whose listings are all in
      order, carries 2^64 - 1 units into the open epoch's bucket. */
  lemma SaturatedSettlementInflates()
    ensures var b, seats, s := TwoWhales(), WhaleSeats(), WhaleSchedule();
            && Sound(b) && SeatsOf(b, seats) && Listing(b, s) && Payable(seats, s)
            && !PoolSuffices(seats, SettledPool(b, 1, 0, NoIssuance(), seats, s), s.produced)
            && Settle(b, 1, 0, NoIssuance(), seats, s).0.fees == map[1 := MAX_U64]
  {
    hide Distribute, Sound, PoolSuffices, TotalWeight, Settle, SeatsOf, Listing, Payable, Gap, Minted, Takers, Weights;
    WhalesAreSound();
    WhalesAreSeated();
    WhaleWeights();
    WhalesCarryOver();
  }

  // ---- Boundary removals --------------------------------------------------------------

  function ReleasedSelfStake(b: Book, key: Hash): u64
  {
    if key !in b.validators || b.validators[key].jailed then 0 else b.validators[key].selfStake
  }

  /** One departure; `None` where delegated stake remains or the bond has nowhere to go. */
  function Depart(b: Book, key: Hash): Option<Book>
  {
    if DelegatedTo(b.validators, key) > 0 then None
    else
      var principal := ReleasedSelfStake(b, key);
      if principal == 0 then Some(b.(validators := b.validators - {key}))
      else if b.validators[key].rewardCoin == ZERO_HASH then None
      else
        var paid := Credit(b, b.validators[key].rewardCoin, principal);
        if paid.None? then None else Some(paid.value.(validators := b.validators - {key}))
  }

  /** applyPendingRemovals over the sorted candidates, up to the churn limit (0: none). */
  function ApplyRemovals(b: Book, pending: seq<Hash>, maxChurn: nat): (Book, seq<Hash>)
    decreases |pending|
  {
    if pending == [] then (b, [])
    else
      var n := |pending| - 1;
      var (before, removed) := ApplyRemovals(b, pending[..n], maxChurn);
      if maxChurn > 0 && |removed| >= maxChurn then (before, removed)
      else
        var r := Depart(before, pending[n]);
        if r.None? then (before, removed) else (r.value, removed + [pending[n]])
  }

  lemma DepartConserves(b: Book, key: Hash)
    requires Sound(b) && Depart(b, key).Some?
    ensures var b' := Depart(b, key).value;
            && Sound(b') && Gap(b') == Gap(b) && b'.supply == b.supply
            && key !in b'.validators && b'.validators == b.validators - {key}
  {
    Parts(b);
    BondedDrop(b.validators, key);
    var principal := ReleasedSelfStake(b, key);
    if principal != 0 { CreditMoves(b, b.validators[key].rewardCoin, principal); }
    hide Bonded, Balances, Credit, Total;
  }

  /** A departure returns exactly the self-stake that leaves the bonded total, respects the
      churn limit, and never removes a validator with delegators behind it. */
  lemma {:induction false} RemovalsConserve(b: Book, pending: seq<Hash>, maxChurn: nat)
    requires Sound(b)
    ensures var (b', removed) := ApplyRemovals(b, pending, maxChurn);
            && Sound(b') && Gap(b') == Gap(b) && b'.supply == b.supply
            && (maxChurn > 0 ==> |removed| <= maxChurn)
            && (forall k :: k in removed ==> k in pending && k !in b'.validators && DelegatedTo(b.validators, k) == 0)
            && (forall k :: k in b.validators && k !in removed ==>
                  k in b'.validators && b'.validators[k] == b.validators[k])
    decreases |pending|
  {
    hide Sound, Gap, Depart;
    if pending != [] {
      var n := |pending| - 1;
      RemovalsConserve(b, pending[..n], maxChurn);
      var (before, removed) := ApplyRemovals(b, pending[..n], maxChurn);
      if Depart(before, pending[n]).Some? {
        DepartConserves(before, pending[n]);
        DepartedHadNone(before, pending[n]);
        assert forall k :: k in pending[..n] ==> k in pending;
      }
    }
  }

  lemma DepartedHadNone(b: Book, key: Hash)
    requires Depart(b, key).Some?
    ensures DelegatedTo(b.validators, key) == 0
  {
  }

  // ---- Over every run -------------------------------------------------------------------

  datatype Flow =
    | Bonding(sender: Hash, coin: Hash, amount: u64, minStake: u64)
    | Unbonding(sender: Hash, coin: Hash, amount: u64, minStake: u64)
    | Delegating(delegator: Hash, coin: Hash, validator: Hash, amount: u64)
    | Undelegating(delegator: Hash, coin: Hash, validator: Hash)
    | Charging(coin: Hash, consumed: u64, storage: u64, burnBps: u64, epoch: nat)
    | Pooling(epoch: nat)
    | Locking(id: Hash, deposit: u64)
    | Deleting(id: Hash, gasCoin: Option<Hash>, refundBps: u64)
    | Settling(epoch: nat, rate: u64, thermostat: Thermostat, seats: Seats, schedule: Schedule)
    | Removing(pending: seq<Hash>, maxChurn: nat)

  /** The arguments the commit path passes, with no share burned and nothing saturating. */
  ghost predicate Admissible(b: Book, f: Flow)
  {
    match f
    case Charging(coin, consumed, storage, burnBps, _) =>
      && consumed + storage < WORD && burnBps <= BPS_MAX
      && (BurnedShare(consumed, burnBps) == 0 || !Covers(b, coin, consumed + storage))
    case Locking(id, deposit) => id !in b.deposits && deposit <= b.withheld
    case Deleting(_, _, refundBps) => refundBps <= BPS_MAX
    case Settling(current, rate, p, seats, s) =>
      && SeatsOf(b, seats) && Listing(b, s) && Payable(seats, s)
      && (current > 0 ==> PoolSuffices(seats, SettledPool(b, current, rate, p, seats, s), s.produced))
      && b.supply + Minted(b, rate, p, seats, s).1 < WORD
    case _ => true
  }

  ghost function After(b: Book, f: Flow): Book
    requires Admissible(b, f)
  {
    match f
    case Bonding(sender, coin, amount, minStake) => Bond(b, sender, coin, amount, minStake).0
    case Unbonding(sender, coin, amount, minStake) => Unbond(b, sender, coin, amount, minStake).0
    case Delegating(d, coin, v, amount) => Delegate(b, d, coin, v, amount).0
    case Undelegating(d, coin, v) => Undelegate(b, d, coin, v).0
    case Charging(coin, consumed, storage, burnBps, epoch) => Charge(b, coin, consumed, storage, burnBps, epoch).0
    case Pooling(epoch) => PoolWithheld(b, epoch)
    case Locking(id, deposit) => Lock(b, id, deposit)
    case Deleting(id, gasCoin, refundBps) => SettleDeletion(b, id, gasCoin, refundBps).0
    case Settling(epoch, rate, p, seats, s) => Settle(b, epoch, rate, p, seats, s).0
    case Removing(pending, maxChurn) => ApplyRemovals(b, pending, maxChurn).0
  }

  lemma StakingConserves(b: Book, f: Flow)
    requires Sound(b) && NoneJailed(b) && Admissible(b, f)
    requires f.Bonding? || f.Unbonding? || f.Delegating? || f.Undelegating?
    ensures Sound(After(b, f)) && Gap(After(b, f)) == Gap(b)
  {
    hide Sound, Gap;
    match f
    case Bonding(sender, coin, amount, minStake) =>
      if Bond(b, sender, coin, amount, minStake).1 { BondConserves(b, sender, coin, amount, minStake); }
    case Unbonding(sender, coin, amount, minStake) =>
      if Unbond(b, sender, coin, amount, minStake).1 { UnbondConserves(b, sender, coin, amount, minStake); }
    case Delegating(d, coin, v, amount) =>
      if Delegate(b, d, coin, v, amount).1 { DelegateConserves(b, d, coin, v, amount); }
    case Undelegating(d, coin, v) =>
      if Undelegate(b, d, coin, v).1 { UndelegateConserves(b, d, coin, v); }
  }

  lemma FlowConserves(b: Book, f: Flow)
    requires Sound(b) && NoneJailed(b) && Admissible(b, f)
    ensures Sound(After(b, f)) && Gap(After(b, f)) == Gap(b)
  {
    hide Sound, Gap, NoneJailed, SeatsOf, Listing, Payable, Settle, ApplyRemovals, Charge, SettleDeletion, Minted;
    match f
    case Charging(coin, consumed, storage, burnBps, epoch) =>
      ChargeConserves(b, coin, consumed, storage, burnBps, epoch);
    case Pooling(epoch) => PoolWithheldConserves(b, epoch);
    case Locking(id, deposit) => LockConserves(b, id, deposit);
    case Deleting(id, gasCoin, refundBps) => DeletionConserves(b, id, gasCoin, refundBps);
    case Settling(epoch, rate, p, seats, s) => SettleConserves(b, epoch, rate, p, seats, s);
    case Removing(pending, maxChurn) => RemovalsConserve(b, pending, maxChurn);
    case _ => StakingConserves(b, f);
  }

  /** Over every run of fee charges, staking, deletions, settlements and removals with no
      validator jailed, what is held against the supply never drifts from it. */
  lemma {:induction false} SupplyIsConserved(books: seq<Book>, flows: seq<Flow>, i: nat)
    requires |books| == |flows| + 1 && i < |books| && Sound(books[0])
    requires forall j :: 0 <= j < |books| ==> NoneJailed(books[j])
    requires forall j :: 0 <= j < |flows| ==>
              Admissible(books[j], flows[j]) && books[j + 1] == After(books[j], flows[j])
    ensures Sound(books[i]) && Gap(books[i]) == Gap(books[0])
    ensures Gap(books[0]) == 0 ==> Held(books[i]) == books[i].supply
  {
    hide Sound, NoneJailed, Admissible, After;
    if i > 0 {
      SupplyIsConserved(books, flows, i - 1);
      FlowConserves(books[i - 1], flows[i - 1]);
      assert books[i - 1 + 1] == After(books[i - 1], flows[i - 1]);
    }
  }
}
