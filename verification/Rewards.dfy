/** Epoch rewards: the pool of one epoch split over stake and liveness, and the deferred
    settlement that mints and pays it (internal/consensus/epoch.go, delegation.go,
    thermostat.go). */
module Rewards {
  import opened Common
  import opened Sums
  import opened Ledger
  import Stake

  type Payout = (Hash, u64)

  type Seats = seq<(Hash, Validator)>

  /** `produced` counts each validator's rounds in the settled epoch; `lists` enumerates
      the stake positions behind each validator. */
  datatype Schedule = Schedule(commissionBps: u64, restakeMille: u64, produced: map<Hash, u64>,
                               lists: map<Hash, seq<Payout>>)

  predicate Governed(s: Schedule)
  {
    s.commissionBps <= BPS_MAX && s.restakeMille <= MILLE_MAX
  }

  function WrapSub(a: u64, b: u64): u64
  {
    (a - b) % WORD
  }

  // ---- Splitting one validator's reward ------------------------------------------------

  function Amounts(dels: seq<Payout>): seq<int>
  {
    seq(|dels|, i requires 0 <= i < |dels| => dels[i].1)
  }

  function SumDelegations(dels: seq<Payout>): u64
  {
    if dels == [] then 0 else SafeAdd(SumDelegations(dels[..|dels| - 1]), dels[|dels| - 1].1)
  }

  /** A share by weight, truncated. */
  function Share(pool: u64, weight: u64, total: u64): u64
    requires total > 0
  {
    SafeMul(pool, weight) / total
  }

  function SplitProRata(pool: u64, total: u64, dels: seq<Payout>): seq<Payout>
    requires total > 0
  {
    seq(|dels|, i requires 0 <= i < |dels| => (dels[i].0, Share(pool, dels[i].1, total)))
  }

  /** splitValidatorReward: the validator's part, and its delegators' parts. */
  function SplitReward(reward: u64, selfStake: u64, commissionBps: u64, dels: seq<Payout>): (u64, seq<Payout>)
    requires commissionBps <= BPS_MAX
    requires dels != [] && selfStake > 0 ==> SumDelegations(dels) > 0
  {
    var delegated := SumDelegations(dels);
    var total := SafeAdd(selfStake, delegated);
    if total == 0 || dels == [] then (reward, [])
    else
      ShareBound(reward, selfStake, total);
      var portion := reward - Share(reward, selfStake, total);
      ShareBound(portion, commissionBps, BPS_MAX);
      var payouts := SplitProRata(portion - Share(portion, commissionBps, BPS_MAX), delegated, dels);
      (WrapSub(reward, SumDelegations(payouts)), payouts)
  }

  lemma ShareBound(pool: u64, weight: u64, total: u64)
    requires 0 < total && weight <= total
    ensures 0 <= Share(pool, weight, total) <= pool
  {
    assert SafeMul(pool, weight) <= pool * weight <= pool * total;
  }

  lemma {:induction false} SumIsClamped(dels: seq<Payout>)
    ensures Sum(Amounts(dels)) >= 0
    ensures SumDelegations(dels) == if Sum(Amounts(dels)) < WORD then Sum(Amounts(dels)) else MAX_U64
  {
    if dels != [] {
      SumIsClamped(dels[..|dels| - 1]);
      assert Amounts(dels)[..|dels| - 1] == Amounts(dels[..|dels| - 1]);
    }
  }

  /** Truncated shares of weights that sum to at most the total never exceed the pool. */
  lemma {:induction false} SharesFit(pool: u64, total: u64, weights: seq<int>, shares: seq<int>)
    requires total > 0 && |weights| == |shares|
    requires forall i :: 0 <= i < |weights| ==> 0 <= weights[i] < WORD && shares[i] == Share(pool, weights[i], total)
    ensures 0 <= total * Sum(shares) <= pool * Sum(weights)
    decreases |weights|
  {
    if weights != [] {
      var n := |weights| - 1;
      SharesFit(pool, total, weights[..n], shares[..n]);
      OneShare(pool, weights[n], total);
      Distribute3(total, Sum(shares[..n]), shares[n]);
      Distribute3(pool, Sum(weights[..n]), weights[n]);
    }
  }

  lemma OneShare(pool: u64, weight: u64, total: u64)
    requires total > 0
    ensures 0 <= total * Share(pool, weight, total) <= pool * weight
  {
    assert SafeMul(pool, weight) <= pool * weight;
  }

  lemma Distribute3(a: int, x: int, y: int)
    ensures a * (x + y) == a * x + a * y
  {
  }

  lemma FitsPool(pool: int, total: int, shares: int, weights: int)
    requires 0 <= total * shares <= pool * weights && 0 <= weights <= total && total > 0 && pool >= 0
    ensures 0 <= shares <= pool
  {
    assert pool * weights <= pool * total;
    if shares > pool { Larger(total, pool, shares); }
    if shares < 0 { Larger(total, shares, 0); }
  }

  lemma Larger(total: int, x: int, y: int)
    requires total > 0 && x < y
    ensures total * x < total * y
  {
  }

  /** What delegators of one validator hold is listed truly. */
  ghost predicate Lists(held: map<Hash, u64>, dels: seq<Payout>)
  {
    && (forall i :: 0 <= i < |dels| ==> dels[i].0 in held && held[dels[i].0] == dels[i].1)
    && (forall i, j :: 0 <= i < j < |dels| ==> dels[i].0 != dels[j].0)
  }

  lemma {:induction false} ListedIsPart(held: map<Hash, u64>, dels: seq<Payout>)
    requires Lists(held, dels)
    ensures 0 <= Sum(Amounts(dels)) <= Total(held)
    decreases |dels|
  {
    if dels == [] {
      TotalNonNegative(held);
    } else {
      var n := |dels| - 1;
      TotalDrop(held, dels[n].0);
      ListedIsPart(held - {dels[n].0}, dels[..n]);
      assert Amounts(dels)[..n] == Amounts(dels[..n]);
    }
  }

  /** The split conserves the reward: payouts and the validator's part add up to it. */
  lemma SplitConserves(reward: u64, selfStake: u64, commissionBps: u64, dels: seq<Payout>)
    requires commissionBps <= BPS_MAX && Sum(Amounts(dels)) < WORD
    requires dels != [] && selfStake > 0 ==> SumDelegations(dels) > 0
    ensures var (own, payouts) := SplitReward(reward, selfStake, commissionBps, dels);
            && own + Sum(Amounts(payouts)) == reward && 0 <= Sum(Amounts(payouts))
            && SameNames(dels, payouts)
  {
    hide Share, SplitProRata, SplitReward, SumDelegations, Sum, Amounts, SameNames, SafeAdd, WrapSub;
    SumIsClamped(dels);
    var delegated := SumDelegations(dels);
    NoPayouts(dels);
    var rest := SplitParts(reward, selfStake, commissionBps, dels);
    if SafeAdd(selfStake, delegated) != 0 && dels != [] {
      ProRataFits(rest, delegated, dels);
      SumIsClamped(SplitProRata(rest, delegated, dels));
      ExactSub(reward, SumDelegations(SplitProRata(rest, delegated, dels)));
    }
  }

  /** What is left for the delegators after the validator's own share and commission. */
  lemma SplitParts(reward: u64, selfStake: u64, commissionBps: u64, dels: seq<Payout>) returns (rest: u64)
    requires commissionBps <= BPS_MAX && (dels != [] && selfStake > 0 ==> SumDelegations(dels) > 0)
    ensures rest <= reward
    ensures SafeAdd(selfStake, SumDelegations(dels)) == 0 || dels == [] ==>
              SplitReward(reward, selfStake, commissionBps, dels) == (reward, [])
    ensures SafeAdd(selfStake, SumDelegations(dels)) != 0 && dels != [] ==>
              && SumDelegations(dels) > 0
              && var payouts := SplitProRata(rest, SumDelegations(dels), dels);
                 SplitReward(reward, selfStake, commissionBps, dels)
                 == (WrapSub(reward, SumDelegations(payouts)), payouts)
  {
    hide Share, SplitProRata, SumDelegations, WrapSub;
    rest := 0;
    var total := SafeAdd(selfStake, SumDelegations(dels));
    if total != 0 && dels != [] {
      ShareBound(reward, selfStake, total);
      var portion := reward - Share(reward, selfStake, total);
      ShareBound(portion, commissionBps, BPS_MAX);
      rest := portion - Share(portion, commissionBps, BPS_MAX);
    }
  }

  ghost predicate SameNames(dels: seq<Payout>, payouts: seq<Payout>)
  {
    forall i :: 0 <= i < |payouts| ==> i < |dels| && payouts[i].0 == dels[i].0
  }

  lemma NoPayouts(dels: seq<Payout>)
    ensures Sum(Amounts([])) == 0 && SameNames(dels, [])
  {
  }

  lemma ExactSub(a: u64, b: u64)
    requires b <= a
    ensures WrapSub(a, b) == a - b
  {
  }

  lemma ProRataFits(pool: u64, total: u64, dels: seq<Payout>)
    requires total > 0 && total == Sum(Amounts(dels))
    ensures 0 <= Sum(Amounts(SplitProRata(pool, total, dels))) <= pool
    ensures SameNames(dels, SplitProRata(pool, total, dels))
  {
    var shares := Amounts(SplitProRata(pool, total, dels));
    SharesFit(pool, total, Amounts(dels), shares);
    FitsPool(pool, total, Sum(shares), Sum(Amounts(dels)));
  }

  // ---- Crediting ------------------------------------------------------------------------

  /** compoundDelegation: raise a position and the validator's delegated total. */
  function Compound(b: Book, d: Hash, v: Hash, reward: u64): Option<Book>
  {
    if reward == 0 || d !in PositionsOf(b, v) then None
    else Some(AddDelegated(SetPosition(b, d, v, SafeAdd(PositionsOf(b, v)[d], reward)), v, reward))
  }

  function CreditDelegators(b: Book, v: Hash, payouts: seq<Payout>): (Book, u64)
    decreases |payouts|
  {
    if payouts == [] then (b, 0)
    else
      var last := payouts[|payouts| - 1];
      var (paid, credited) := CreditDelegators(b, v, payouts[..|payouts| - 1]);
      var r := Compound(paid, last.0, v, last.1);
      if r.None? then (paid, credited) else (r.value, WrapAdd(credited, last.1))
  }

  /** creditValidatorReward: `was` is the validator as the settlement first read it. */
  function CreditValidator(b: Book, key: Hash, was: Validator, amount: u64, restakeMille: u64): (Book, u64)
    requires restakeMille <= MILLE_MAX
  {
    ShareBound(amount, restakeMille, MILLE_MAX);
    if was.rewardCoin == ZERO_HASH then (SetSelf(b, key, SafeAdd(was.selfStake, amount)), amount)
    else
      var restake := Share(amount, restakeMille, MILLE_MAX);
      var staked := if restake > 0 then SetSelf(b, key, SafeAdd(was.selfStake, restake)) else b;
      var paid := Credit(staked, was.rewardCoin, amount - restake);
      if paid.None? then (staked, restake) else (paid.value, amount)
  }

  function Listed(s: Schedule, key: Hash): seq<Payout>
  {
    if key in s.lists then s.lists[key] else []
  }

  function CreditShare(b: Book, key: Hash, was: Validator, share: u64, s: Schedule): (Book, u64)
    requires Governed(s)
    requires Listed(s, key) != [] && was.selfStake > 0 ==> SumDelegations(Listed(s, key)) > 0
  {
    var (own, payouts) := SplitReward(share, was.selfStake, s.commissionBps, Listed(s, key));
    var (delegated, credited) := CreditDelegators(b, key, payouts);
    var (paid, moved) := CreditValidator(delegated, key, was, own, s.restakeMille);
    (paid, WrapAdd(credited, moved))
  }

  // ---- One credit at a time ---------------------------------------------------------------

  /** What a credit can touch: coins and stake. */
  ghost function Paid(b: Book): int
  {
    b.coinsTotal + Bonded(b.validators)
  }

  /** `b'` is `b` with `amount` more in coins and stake, and nothing else moved. */
  ghost predicate Credits(b: Book, b': Book, amount: int)
  {
    && b' == b.(coins := b'.coins, coinsTotal := b'.coinsTotal, validators := b'.validators, positions := b'.positions)
    && Paid(b') == Paid(b) + amount
    && b'.coins.Keys == b.coins.Keys
    && Ready(b')
  }

  ghost predicate Ready(b: Book)
  {
    b.coinsTotal == Balances(b.coins) && Covered(b)
  }

  /** Everything about validators other than `key`, and all but the stakes of `key`. */
  ghost predicate OnlyStakesOf(b: Book, b': Book, key: Hash)
  {
    && b'.validators.Keys == b.validators.Keys
    && (forall u :: u in b.validators && u != key ==>
          b'.validators[u] == b.validators[u] && PositionsOf(b', u) == PositionsOf(b, u))
    && (key in b.validators ==> b'.validators[key] == b.validators[key].(selfStake := b'.validators[key].selfStake,
                                                                           delegated := b'.validators[key].delegated))
  }

  lemma CompoundMoves(b: Book, d: Hash, v: Hash, reward: u64)
    requires Ready(b) && v in b.validators && !b.validators[v].jailed
    requires Paid(b) + reward < WORD && Compound(b, d, v, reward).Some?
    ensures var b' := Compound(b, d, v, reward).value;
            && Credits(b, b', reward) && OnlyStakesOf(b, b', v)
            && b'.validators[v].selfStake == b.validators[v].selfStake
            && PositionsOf(b', v).Keys == PositionsOf(b, v).Keys
  {
    Parts(b);
    hide Bonded, Balances, Covered, Funded, Total;
    var was := b.validators[v];
    var held := PositionsOf(b, v);
    assert was.delegated + reward < WORD;
    PositionGrows(b, d, v, reward);
    assert WrapAdd(was.delegated, reward) == was.delegated + reward;
    BondedPut(b.validators, v, was.(delegated := was.delegated + reward));
    CoveredAt(b, Compound(b, d, v, reward).value, v, held[d := held[d] + reward]);
  }

  lemma CreditsChain(a: Book, b: Book, c: Book, x: int, y: int, key: Hash)
    requires Credits(a, b, x) && Credits(b, c, y) && OnlyStakesOf(a, b, key) && OnlyStakesOf(b, c, key)
    ensures Credits(a, c, x + y) && OnlyStakesOf(a, c, key)
  {
    hide Ready, Bonded;
  }

  /** The effect of paying a validator's delegators. */
  ghost predicate PaidOut(b: Book, b': Book, v: Hash, amount: int)
    requires v in b.validators
  {
    && Credits(b, b', amount) && OnlyStakesOf(b, b', v)
    && b'.validators[v].selfStake == b.validators[v].selfStake
    && PositionsOf(b', v).Keys == PositionsOf(b, v).Keys
  }

  lemma PaidMore(b: Book, paid: Book, v: Hash, credited: u64, last: Payout)
    requires v in b.validators && !b.validators[v].jailed && PaidOut(b, paid, v, credited)
    requires Paid(b) >= 0 && Paid(b) + credited + last.1 < WORD && last.0 in PositionsOf(b, v)
    ensures var r := Compound(paid, last.0, v, last.1);
            PaidOut(b, if r.Some? then r.value else paid, v, credited + last.1)
    ensures Compound(paid, last.0, v, last.1).Some? <==> last.1 != 0
    ensures WrapAdd(credited, last.1) == credited + last.1
  {
    hide Paid, Ready, Compound;
    assert Compound(paid, last.0, v, last.1).Some? <==> last.1 != 0 by { CompoundWhen(paid, last.0, v, last.1); }
    if last.1 != 0 {
      assert Ready(paid) && Paid(paid) == Paid(b) + credited;
      CompoundMoves(paid, last.0, v, last.1);
      CreditsChain(b, paid, Compound(paid, last.0, v, last.1).value, credited, last.1, v);
    }
  }

  lemma CompoundWhen(b: Book, d: Hash, v: Hash, reward: u64)
    ensures Compound(b, d, v, reward).Some? <==> reward != 0 && d in PositionsOf(b, v)
  {
  }

  lemma {:induction false} DelegatorsPaid(b: Book, v: Hash, payouts: seq<Payout>)
    requires Ready(b) && v in b.validators && !b.validators[v].jailed
    requires Paid(b) >= 0 && Paid(b) + Sum(Amounts(payouts)) < WORD
    requires forall i :: 0 <= i < |payouts| ==> payouts[i].0 in PositionsOf(b, v)
    ensures var (b', credited) := CreditDelegators(b, v, payouts);
            PaidOut(b, b', v, credited) && credited == Sum(Amounts(payouts))
    decreases |payouts|
  {
    hide Ready, Paid, Compound, PositionsOf;
    if payouts != [] {
      var n := |payouts| - 1;
      SumIsClamped(payouts[..n]);
      assert Amounts(payouts)[..n] == Amounts(payouts[..n]);
      DelegatorsPaid(b, v, payouts[..n]);
      hide PaidOut, Amounts, Sum;
      var (paid, credited) := CreditDelegators(b, v, payouts[..n]);
      PaidMore(b, paid, v, credited, payouts[n]);
    }
  }

  lemma StakeMoves(b: Book, key: Hash, stake: u64)
    requires Ready(b) && key in b.validators && !b.validators[key].jailed && stake >= b.validators[key].selfStake
    ensures var b' := SetSelf(b, key, stake);
            Credits(b, b', stake - b.validators[key].selfStake) && OnlyStakesOf(b, b', key)
  {
    BondedPut(b.validators, key, b.validators[key].(selfStake := stake));
    hide Bonded, Balances, Funded;
  }

  lemma CoinMoves(b: Book, key: Hash, coin: Hash, amount: u64)
    requires Ready(b) && Paid(b) + amount < WORD
    ensures Credit(b, coin, amount).Some? <==> amount == 0 || coin in b.coins
    ensures Credit(b, coin, amount).Some? ==>
              Credits(b, Credit(b, coin, amount).value, amount) && OnlyStakesOf(b, Credit(b, coin, amount).value, key)
  {
    Parts(b);
    CreditMoves(b, coin, amount);
    hide Bonded, Balances, Funded;
  }

  lemma LiquidPaid(b: Book, staked: Book, key: Hash, coin: Hash, restake: u64, liquid: u64)
    requires Credits(b, staked, restake) && OnlyStakesOf(b, staked, key) && Paid(b) + restake + liquid < WORD
    ensures Credit(staked, coin, liquid).Some? <==> liquid == 0 || coin in b.coins
    ensures Credit(staked, coin, liquid).Some? ==>
              var b' := Credit(staked, coin, liquid).value;
              Credits(b, b', restake + liquid) && OnlyStakesOf(b, b', key)
  {
    hide Ready, Credit, OnlyStakesOf;
    CoinMoves(staked, key, coin, liquid);
    if Credit(staked, coin, liquid).Some? {
      CreditsChain(b, staked, Credit(staked, coin, liquid).value, restake, liquid, key);
    }
  }

  lemma ValidatorPaid(b: Book, key: Hash, was: Validator, amount: u64, restakeMille: u64)
    requires Ready(b) && key in b.validators && !b.validators[key].jailed && restakeMille <= MILLE_MAX
    requires was.selfStake == b.validators[key].selfStake && Paid(b) + amount < WORD
    ensures var (b', moved) := CreditValidator(b, key, was, amount, restakeMille);
            && Credits(b, b', moved) && OnlyStakesOf(b, b', key) && 0 <= moved <= amount
            && (was.rewardCoin == ZERO_HASH || was.rewardCoin in b.coins ==> moved == amount)
  {
    Parts(b);
    hide Bonded, Balances, Covered, Share, Ready, SetSelf, Credit, Credits, OnlyStakesOf;
    assert was.selfStake + amount < WORD;
    hide Paid;
    ShareBound(amount, restakeMille, MILLE_MAX);
    var restake := Share(amount, restakeMille, MILLE_MAX);
    if was.rewardCoin == ZERO_HASH {
      StakeMoves(b, key, SafeAdd(was.selfStake, amount));
    } else {
      var staked := SetSelf(b, key, was.selfStake + restake);
      StakeMoves(b, key, was.selfStake + restake);
      SameSelf(b, key);
      LiquidPaid(b, staked, key, was.rewardCoin, restake, amount - restake);
    }
  }

  lemma SameSelf(b: Book, key: Hash)
    requires key in b.validators
    ensures SetSelf(b, key, b.validators[key].selfStake) == b
  {
    var v := b.validators[key];
    assert v.(selfStake := v.selfStake) == v;
    assert b.validators[key := v] == b.validators;
  }

  // ---- One validator's share ------------------------------------------------------------

  /** The listed positions are real, so they are covered by the delegated total. */
  lemma ListingFits(b: Book, key: Hash, dels: seq<Payout>)
    requires Covered(b) && key in b.validators && Lists(PositionsOf(b, key), dels)
    ensures 0 <= Sum(Amounts(dels)) < WORD
    ensures dels != [] ==> SumDelegations(dels) > 0
  {
    var held := PositionsOf(b, key);
    if dels != [] {
      assert dels[0].0 in held;
      assert Funded(held, DelegatedTo(b.validators, key));
      ListedIsPart(held, dels);
      SumIsClamped(dels);
      PositiveSum(held, dels);
    }
  }

  lemma PositiveSum(held: map<Hash, u64>, dels: seq<Payout>)
    requires Lists(held, dels) && dels != [] && forall d :: d in held ==> held[d] > 0
    ensures Sum(Amounts(dels)) > 0
  {
    var n := |dels| - 1;
    SumIsClamped(dels[..n]);
    assert Amounts(dels)[..n] == Amounts(dels[..n]);
  }

  lemma {:induction false} NothingToPay(b: Book, v: Hash, payouts: seq<Payout>)
    requires Sum(Amounts(payouts)) <= 0
    ensures CreditDelegators(b, v, payouts) == (b, 0)
    decreases |payouts|
  {
    if payouts != [] {
      var n := |payouts| - 1;
      SumIsClamped(payouts[..n]);
      assert Amounts(payouts)[..n] == Amounts(payouts[..n]);
      NothingToPay(b, v, payouts[..n]);
    }
  }

  lemma ZeroValidator(b: Book, key: Hash, was: Validator, restakeMille: u64)
    requires restakeMille <= MILLE_MAX && key in b.validators && was.selfStake == b.validators[key].selfStake
    ensures CreditValidator(b, key, was, 0, restakeMille) == (b, 0)
  {
    SameSelf(b, key);
    ShareBound(0, restakeMille, MILLE_MAX);
  }

  lemma NothingCredited(b: Book, key: Hash)
    requires Ready(b)
    ensures Credits(b, b, 0) && OnlyStakesOf(b, b, key)
  {
  }

  lemma SharePaid(b: Book, key: Hash, was: Validator, share: u64, s: Schedule)
    requires Ready(b) && Governed(s) && key in b.validators && was == b.validators[key]
    requires Lists(PositionsOf(b, key), Listed(s, key)) && (was.jailed ==> share == 0)
    requires Paid(b) >= 0 && Paid(b) + share < WORD
    ensures Listed(s, key) != [] ==> SumDelegations(Listed(s, key)) > 0
    ensures var (b', moved) := CreditShare(b, key, was, share, s);
            && Credits(b, b', moved) && OnlyStakesOf(b, b', key) && 0 <= moved <= share
            && (was.rewardCoin == ZERO_HASH || was.rewardCoin in b.coins ==> moved == share)
  {
    hide Lists, Ready, Paid, CreditDelegators, CreditValidator, SplitReward, Sum, Amounts, SumDelegations;
    assert Covered(b) by { ReadyIsCovered(b); }
    ListingFits(b, key, Listed(s, key));
    SplitConserves(share, was.selfStake, s.commissionBps, Listed(s, key));
    var (own, payouts) := SplitReward(share, was.selfStake, s.commissionBps, Listed(s, key));
    PayoutsHeld(PositionsOf(b, key), Listed(s, key), payouts);
    if was.jailed {
      NothingToPay(b, key, payouts);
      ZeroValidator(b, key, was, s.restakeMille);
      NothingCredited(b, key);
    } else {
      DelegatorsPaid(b, key, payouts);
      var (delegated, credited) := CreditDelegators(b, key, payouts);
      CreditsFacts(b, delegated, credited);
      ValidatorPaid(delegated, key, was, own, s.restakeMille);
      var (paid, moved) := CreditValidator(delegated, key, was, own, s.restakeMille);
      CreditsChain(b, delegated, paid, credited, moved, key);
    }
  }

  lemma ReadyIsCovered(b: Book)
    requires Ready(b)
    ensures Covered(b)
  {
  }

  lemma CreditsFacts(b: Book, b': Book, amount: int)
    requires Credits(b, b', amount)
    ensures Paid(b') == Paid(b) + amount && Ready(b') && b'.coins.Keys == b.coins.Keys
  {
  }

  lemma PayoutsHeld(held: map<Hash, u64>, dels: seq<Payout>, payouts: seq<Payout>)
    requires Lists(held, dels) && SameNames(dels, payouts)
    ensures forall i :: 0 <= i < |payouts| ==> payouts[i].0 in held
  {
  }

  // ---- The whole pool -------------------------------------------------------------------

  function RewardWeight(key: Hash, was: Validator, produced: map<Hash, u64>): u64
  {
    SafeMul(Stake.EffectiveStake(was), if key in produced then produced[key] else 0)
  }

  function TotalWeight(seats: Seats, produced: map<Hash, u64>): u64
  {
    if seats == [] then 0
    else
      var last := seats[|seats| - 1];
      SafeAdd(TotalWeight(seats[..|seats| - 1], produced), RewardWeight(last.0, last.1, produced))
  }

  /** pickRemainderRecipient: greatest weight, lower key on a tie. */
  function Top(seats: Seats, produced: map<Hash, u64>): (Hash, u64)
  {
    if seats == [] then (ZERO_HASH, 0)
    else
      var last := seats[|seats| - 1];
      var (best, bestWeight) := Top(seats[..|seats| - 1], produced);
      var w := RewardWeight(last.0, last.1, produced);
      if w != 0 && (w > bestWeight || (w == bestWeight && last.0 < best)) then (last.0, w) else (best, bestWeight)
  }

  predicate Payable(seats: Seats, s: Schedule)
  {
    && Governed(s)
    && forall i :: 0 <= i < |seats| ==> Listed(s, seats[i].0) != [] ==> SumDelegations(Listed(s, seats[i].0)) > 0
  }

  function CreditShares(b: Book, seats: Seats, pool: u64, total: u64, s: Schedule): (Book, u64)
    requires total > 0 && Payable(seats, s)
    decreases |seats|
  {
    if seats == [] then (b, 0)
    else
      var n := |seats| - 1;
      var (paid, distributed) := CreditShares(b, seats[..n], pool, total, s);
      var share := Share(pool, RewardWeight(seats[n].0, seats[n].1, s.produced), total);
      var (more, moved) := CreditShare(paid, seats[n].0, seats[n].1, share, s);
      (more, WrapAdd(distributed, moved))
  }

  function CreditRemainder(b: Book, top: Hash, remainder: u64): (Book, u64)
  {
    if remainder == 0 || top !in b.validators || b.validators[top].rewardCoin == ZERO_HASH then (b, 0)
    else
      var paid := Credit(b, b.validators[top].rewardCoin, remainder);
      if paid.None? then (b, 0) else (paid.value, remainder)
  }

  /** distributeEpochRewards: the book after paying out, and what could not be credited. */
  function Distribute(b: Book, epoch: nat, issuance: u64, seats: Seats, s: Schedule): (Book, u64)
    requires Payable(seats, s)
  {
    var pool := SafeAdd(Bucket(b.fees, epoch), issuance);
    var total := TotalWeight(seats, s.produced);
    if pool == 0 || total == 0 then (b, pool)
    else
      var (paid, distributed) := CreditShares(b, seats, pool, total, s);
      var (final, rest) := CreditRemainder(paid, Top(seats, s.produced).0, WrapSub(pool, distributed));
      (final, WrapSub(pool, WrapAdd(distributed, rest)))
  }

  /** `seats` is the validator set of `b`, in some order. */
  ghost predicate SeatsOf(b: Book, seats: Seats)
  {
    && (forall i :: 0 <= i < |seats| ==> seats[i].0 in b.validators && seats[i].1 == b.validators[seats[i].0])
    && (forall i, j :: 0 <= i < j < |seats| ==> seats[i].0 != seats[j].0)
  }

  ghost predicate Listing(b: Book, s: Schedule)
  {
    forall v :: v in b.validators ==> Lists(PositionsOf(b, v), Listed(s, v))
  }

  function Weights(seats: Seats, produced: map<Hash, u64>): seq<int>
  {
    seq(|seats|, i requires 0 <= i < |seats| => RewardWeight(seats[i].0, seats[i].1, produced))
  }

  function Shares(seats: Seats, pool: u64, total: u64, produced: map<Hash, u64>): seq<int>
    requires total > 0
  {
    seq(|seats|, i requires 0 <= i < |seats| => Share(pool, RewardWeight(seats[i].0, seats[i].1, produced), total))
  }

  lemma {:induction false} WeightIsClamped(seats: Seats, produced: map<Hash, u64>)
    ensures Sum(Weights(seats, produced)) >= 0
    ensures TotalWeight(seats, produced) ==
              if Sum(Weights(seats, produced)) < WORD then Sum(Weights(seats, produced)) else MAX_U64
  {
    if seats != [] {
      var n := |seats| - 1;
      WeightIsClamped(seats[..n], produced);
      assert Weights(seats, produced)[..n] == Weights(seats[..n], produced);
    }
  }

  lemma SharesOfPool(seats: Seats, pool: u64, total: u64, produced: map<Hash, u64>)
    requires total > 0 && Sum(Weights(seats, produced)) <= total
    ensures 0 <= Sum(Shares(seats, pool, total, produced)) <= pool
  {
    var weights, shares := Weights(seats, produced), Shares(seats, pool, total, produced);
    WeightIsClamped(seats, produced);
    SharesFit(pool, total, weights, shares);
    FitsPool(pool, total, Sum(shares), Sum(weights));
  }

  /** Only the validators in `keys` changed, and only in their stakes. */
  ghost predicate Spares(b: Book, p: Book, keys: set<Hash>)
  {
    && p.validators.Keys == b.validators.Keys
    && (forall u :: u in b.validators && u !in keys ==>
          p.validators[u] == b.validators[u] && PositionsOf(p, u) == PositionsOf(b, u))
    && (forall u :: u in b.validators ==> p.validators[u].rewardCoin == b.validators[u].rewardCoin)
  }

  function Keys(seats: Seats): set<Hash>
  {
    set i | 0 <= i < |seats| :: seats[i].0
  }

  lemma SparesMore(b: Book, p: Book, q: Book, keys: set<Hash>, key: Hash)
    requires Spares(b, p, keys) && OnlyStakesOf(p, q, key)
    ensures Spares(b, q, keys + {key})
  {
  }

  lemma CreditsCompose(a: Book, b: Book, c: Book, x: int, y: int)
    requires Credits(a, b, x) && Credits(b, c, y)
    ensures Credits(a, c, x + y)
  {
    hide Ready, Paid;
  }

  lemma JailedHasNoShare(key: Hash, was: Validator, pool: u64, total: u64, produced: map<Hash, u64>)
    requires was.jailed && total > 0
    ensures Share(pool, RewardWeight(key, was, produced), total) == 0
  {
  }

  /** Paying the first validators moves no more than their shares and touches no other. */
  lemma {:induction false} SharesPaid(b: Book, seats: Seats, pool: u64, total: u64, s: Schedule)
    requires Ready(b) && SeatsOf(b, seats) && Listing(b, s) && Payable(seats, s) && total > 0
    requires Paid(b) >= 0 && Paid(b) + Sum(Shares(seats, pool, total, s.produced)) < WORD
    requires forall i :: 0 <= i < |seats| ==> Sum(Shares(seats[..i], pool, total, s.produced)) >= 0
    ensures var (b', distributed) := CreditShares(b, seats, pool, total, s);
            && Credits(b, b', distributed) && Spares(b, b', Keys(seats))
            && 0 <= distributed <= Sum(Shares(seats, pool, total, s.produced))
    decreases |seats|
  {
    hide Ready, Paid, Lists, Credits, Spares, Share, RewardWeight, Sum, Shares, CreditShare,
      Keys, Listed, SumDelegations;
    if seats == [] {
      NothingPaid(b);
      NoShares(pool, total, s.produced);
    } else {
      var n := |seats| - 1;
      SharesPrefix(seats, n, pool, total, s.produced);
      SharesPaid(b, seats[..n], pool, total, s);
      var (p, distributed) := CreditShares(b, seats[..n], pool, total, s);
      var (key, was) := seats[n];
      var share := Share(pool, RewardWeight(key, was, s.produced), total);
      if was.jailed { JailedHasNoShare(key, was, pool, total, s.produced); }
      NotYet(seats);
      ShareStep(b, p, distributed, Keys(seats[..n]), key, was, share, s);
      KeysPush(seats);
    }
  }

  lemma NothingPaid(b: Book)
    requires Ready(b)
    ensures Credits(b, b, 0) && Spares(b, b, {}) && Keys([]) == {}
  {
  }

  lemma NoShares(pool: u64, total: u64, produced: map<Hash, u64>)
    requires total > 0
    ensures Sum(Shares([], pool, total, produced)) == 0
  {
  }

  lemma SharesPrefix(seats: Seats, n: nat, pool: u64, total: u64, produced: map<Hash, u64>)
    requires total > 0 && n < |seats|
    ensures forall i :: 0 <= i < n ==> seats[..n][..i] == seats[..i]
    ensures n == |seats| - 1 ==>
              Sum(Shares(seats, pool, total, produced)) ==
                Sum(Shares(seats[..n], pool, total, produced))
                  + Share(pool, RewardWeight(seats[n].0, seats[n].1, produced), total)
  {
    assert Shares(seats, pool, total, produced)[..n] == Shares(seats[..n], pool, total, produced);
  }

  lemma ShareStep(b: Book, p: Book, distributed: u64, keys: set<Hash>, key: Hash,
                  was: Validator, share: u64, s: Schedule)
    requires Credits(b, p, distributed) && Spares(b, p, keys) && key !in keys
    requires key in b.validators && was == b.validators[key] && Governed(s) && (was.jailed ==> share == 0)
    requires Lists(PositionsOf(b, key), Listed(s, key))
    requires Paid(b) >= 0 && Paid(b) + distributed + share < WORD
    ensures Listed(s, key) != [] ==> SumDelegations(Listed(s, key)) > 0
    ensures var (q, moved) := CreditShare(p, key, was, share, s);
            && Credits(b, q, distributed + moved) && Spares(b, q, keys + {key}) && 0 <= moved <= share
            && WrapAdd(distributed, moved) == distributed + moved
  {
    hide *;
    CreditsFacts(b, p, distributed);
    SparedAt(b, p, keys, key);
    SharePaid(p, key, was, share, s);
    var (q, moved) := CreditShare(p, key, was, share, s);
    CreditsCompose(b, p, q, distributed, moved);
    SparesMore(b, p, q, keys, key);
    SmallSum(distributed, moved);
  }

  lemma SmallSum(x: u64, y: u64)
    requires x + y < WORD
    ensures WrapAdd(x, y) == x + y
  {
  }

  lemma SparedAt(b: Book, p: Book, keys: set<Hash>, key: Hash)
    requires Spares(b, p, keys) && key !in keys && key in b.validators
    ensures key in p.validators && p.validators[key] == b.validators[key] && PositionsOf(p, key) == PositionsOf(b, key)
  {
  }

  lemma NotYet(seats: Seats)
    requires |seats| > 0 && forall i, j :: 0 <= i < j < |seats| ==> seats[i].0 != seats[j].0
    ensures seats[|seats| - 1].0 !in Keys(seats[..|seats| - 1])
  {
  }

  lemma KeysPush(seats: Seats)
    requires |seats| > 0
    ensures Keys(seats[..|seats| - 1]) + {seats[|seats| - 1].0} == Keys(seats)
  {
  }
}
