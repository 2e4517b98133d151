/** The ledger as it runs: counters, stakes and buckets updated in place, each method
    proved against its specification. */
module Bank {
  import opened Common
  import opened Sums
  import opened Ledger
  import opened Rewards
  import opened Settlement
  import Stake

  method SumOf(dels: seq<Payout>) returns (total: u64)
    ensures total == if Sum(Amounts(dels)) < WORD then Sum(Amounts(dels)) else MAX_U64
  {
    total := 0;
    for i := 0 to |dels|
      invariant total == SumDelegations(dels[..i])
    {
      assert dels[..i + 1][..i] == dels[..i];
      total := SafeAdd(total, dels[i].1);
    }
    assert dels[..|dels|] == dels;
    SumIsClamped(dels);
  }

  method ProRata(pool: u64, total: u64, dels: seq<Payout>) returns (out: seq<Payout>)
    requires total > 0
    ensures out == SplitProRata(pool, total, dels)
  {
    out := [];
    for i := 0 to |dels|
      invariant out == SplitProRata(pool, total, dels[..i])
    {
      out := out + [(dels[i].0, SafeMul(pool, dels[i].1) / total)];
      assert dels[..i + 1] == dels[..i] + [dels[i]];
    }
    assert dels[..|dels|] == dels;
  }

  method SplitOf(reward: u64, selfStake: u64, commissionBps: u64, dels: seq<Payout>)
    returns (own: u64, payouts: seq<Payout>)
    requires commissionBps <= BPS_MAX
    requires dels != [] && selfStake > 0 ==> SumDelegations(dels) > 0
    ensures (own, payouts) == SplitReward(reward, selfStake, commissionBps, dels)
  {
    hide SumDelegations, Sum, Amounts, SafeMul, SplitProRata, WrapSub;
    SumIsClamped(dels);
    var delegated := SumOf(dels);
    var total := SafeAdd(selfStake, delegated);
    if total == 0 || dels == [] { return reward, []; }
    ShareBound(reward, selfStake, total);
    var selfShare := SafeMul(reward, selfStake) / total;
    var portion := reward - selfShare;
    ShareBound(portion, commissionBps, BPS_MAX);
    var commission := SafeMul(portion, commissionBps) / BPS_MAX;
    payouts := ProRata(portion - commission, delegated, dels);
    SumIsClamped(payouts);
    var paid := SumOf(payouts);
    own := WrapSub(reward, paid);
  }

  method RewardWeights(seats: Seats, produced: map<Hash, u64>) returns (total: u64)
    ensures total == TotalWeight(seats, produced)
  {
    total := 0;
    for i := 0 to |seats|
      invariant total == TotalWeight(seats[..i], produced)
    {
      assert seats[..i + 1][..i] == seats[..i];
      var rounds := if seats[i].0 in produced then produced[seats[i].0] else 0;
      total := SafeAdd(total, SafeMul(Stake.EffectiveStake(seats[i].1), rounds));
    }
    assert seats[..|seats|] == seats;
  }

  method BondedTotal(seats: Seats) returns (total: u64)
    ensures total == TotalBonded(seats)
  {
    total := 0;
    for i := 0 to |seats|
      invariant total == TotalBonded(seats[..i])
    {
      assert seats[..i + 1][..i] == seats[..i];
      total := SafeAdd(total, Stake.EffectiveStake(seats[i].1));
    }
    assert seats[..|seats|] == seats;
  }

  method PickRemainderRecipient(seats: Seats, produced: map<Hash, u64>) returns (best: Hash)
    ensures best == Top(seats, produced).0
  {
    hide RewardWeight;
    best := ZERO_HASH;
    var bestWeight: u64 := 0;
    for i := 0 to |seats|
      invariant (best, bestWeight) == Top(seats[..i], produced)
    {
      assert seats[..i + 1][..i] == seats[..i];
      var w := RewardWeight(seats[i].0, seats[i].1, produced);
      if w == 0 { continue; }
      if w > bestWeight || (w == bestWeight && seats[i].0 < best) {
        best, bestWeight := seats[i].0, w;
      }
    }
    assert seats[..|seats|] == seats;
  }

  // ---- What each operation keeps, whether or not it succeeds ---------------------------------

  predicate Jailed(b: Book, v: Hash)
  {
    v in b.validators && b.validators[v].jailed
  }

  /** Still sound, with the same gap to the supply. */
  ghost predicate Kept(b: Book, b': Book)
  {
    Sound(b') && Gap(b') == Gap(b)
  }

  /** The running counter is the sum of the coin balances. */
  ghost predicate Tallied(b: Book)
  {
    b.coinsTotal == Balances(b.coins)
  }

  lemma DebitKeeps(b: Book, coin: Hash, amount: u64)
    requires Tallied(b)
    ensures var r := Debit(b, coin, amount);
            r.Some? ==> Tallied(r.value) && r.value.coinsTotal == b.coinsTotal - amount
  {
    hide Balances;
    if Debit(b, coin, amount).Some? { DebitMoves(b, coin, amount); }
  }

  lemma CreditKeeps(b: Book, coin: Hash, amount: u64)
    requires Tallied(b) && b.coinsTotal + amount < WORD
    ensures var r := Credit(b, coin, amount);
            && (r.Some? <==> amount == 0 || coin in b.coins)
            && (r.Some? ==> Tallied(r.value) && r.value.coinsTotal == b.coinsTotal + amount)
  {
    hide Balances;
    CreditMoves(b, coin, amount);
  }

  lemma DeductKeeps(b: Book, coin: Hash, fee: u64)
    requires Tallied(b)
    ensures var r := DeductFee(b, coin, fee);
            r.Some? ==> Tallied(r.value.0) && r.value.0.coinsTotal == b.coinsTotal - r.value.1
  {
    hide Balances;
    if DeductFee(b, coin, fee).Some? { DeductMoves(b, coin, fee); }
  }

  lemma BondKeeps(b: Book, sender: Hash, coin: Hash, amount: u64, minStake: u64)
    requires Sound(b) && (Jailed(b, sender) ==> b.validators[sender].selfStake + amount < WORD)
    ensures var (b', ok) := Bond(b, sender, coin, amount, minStake);
            Sound(b') && (Gap(b') == Gap(b) <==> !ok || !Jailed(b, sender))
  {
    hide Sound, Gap;
    if Bond(b, sender, coin, amount, minStake).1 { BondConserves(b, sender, coin, amount, minStake); }
  }

  lemma UnbondKeeps(b: Book, sender: Hash, coin: Hash, amount: u64, minStake: u64)
    requires Sound(b) && (Jailed(b, sender) ==> b.coinsTotal + amount < WORD)
    ensures var (b', ok) := Unbond(b, sender, coin, amount, minStake);
            (Gap(b') == Gap(b) <==> !ok || !Jailed(b, sender)) && (Gap(b') == Gap(b) ==> Sound(b'))
  {
    hide Sound, Gap;
    if Unbond(b, sender, coin, amount, minStake).1 { UnbondConserves(b, sender, coin, amount, minStake); }
  }

  lemma DelegateKeeps(b: Book, d: Hash, coin: Hash, v: Hash, amount: u64)
    requires Sound(b)
    ensures Kept(b, Delegate(b, d, coin, v, amount).0)
  {
    hide Sound, Gap;
    if Delegate(b, d, coin, v, amount).1 { DelegateConserves(b, d, coin, v, amount); }
  }

  lemma UndelegateKeeps(b: Book, d: Hash, coin: Hash, v: Hash)
    requires Sound(b) && (Jailed(b, v) && d in PositionsOf(b, v) ==> b.coinsTotal + PositionsOf(b, v)[d] < WORD)
    ensures var (b', ok) := Undelegate(b, d, coin, v);
            (Gap(b') == Gap(b) <==> !ok || !Jailed(b, v)) && (Gap(b') == Gap(b) ==> Sound(b'))
  {
    hide Sound, Gap;
    if Undelegate(b, d, coin, v).1 { UndelegateConserves(b, d, coin, v); }
  }

  lemma DepartKeeps(b: Book, key: Hash)
    requires Sound(b)
    ensures var r := Depart(b, key);
            r.Some? ==> Kept(b, r.value) && r.value.supply == b.supply
  {
    hide Sound, Gap, Depart;
    if Depart(b, key).Some? { DepartConserves(b, key); }
  }

  /** The listed delegators hold positions with a live validator, and paying them all
      stays within a word. */
  ghost predicate PayableTo(b: Book, v: Hash, payouts: seq<Payout>)
  {
    && Ready(b) && v in b.validators && !b.validators[v].jailed
    && Paid(b) >= 0 && Paid(b) + Sum(Amounts(payouts)) < WORD
    && forall i :: 0 <= i < |payouts| ==> payouts[i].0 in PositionsOf(b, v)
  }

  ghost predicate Shareable(b: Book, key: Hash, was: Validator, share: u64, s: Schedule)
  {
    && Ready(b) && key in b.validators && was == b.validators[key] && (was.jailed ==> share == 0)
    && Lists(PositionsOf(b, key), Listed(s, key))
    && Paid(b) >= 0 && Paid(b) + share < WORD
  }

  /** The seats and lists are the book's, and the pool suffices for the shares. */
  ghost predicate Distributable(b: Book, epoch: nat, issuance: u64, seats: Seats, s: Schedule)
  {
    && Ready(b) && SeatsOf(b, seats) && Listing(b, s)
    && PoolSuffices(seats, SafeAdd(Bucket(b.fees, epoch), issuance), s.produced)
    && Paid(b) >= 0 && Paid(b) + Bucket(b.fees, epoch) + issuance < WORD
  }

  ghost predicate Settleable(b: Book, current: nat, rate: u64, p: Thermostat, seats: Seats, s: Schedule)
  {
    && Sound(b) && SeatsOf(b, seats) && Listing(b, s)
    && (current > 0 ==> PoolSuffices(seats, SettledPool(b, current, rate, p, seats, s), s.produced))
    && b.supply + Minted(b, rate, p, seats, s).1 < WORD
  }

  lemma DistributionKeeps(b: Book, epoch: nat, issuance: u64, seats: Seats, s: Schedule)
    requires Distributable(b, epoch, issuance, seats, s) && Payable(seats, s)
    ensures var (b', leftover) := Distribute(b, epoch, issuance, seats, s);
            && 0 <= leftover <= Bucket(b.fees, epoch) + issuance
            && Credits(b, b', Bucket(b.fees, epoch) + issuance - leftover)
  {
    hide Credits, Distribute, Payable, SeatsOf, Listing, Ready, Paid, PoolSuffices;
    DistributionConserves(b, epoch, issuance, seats, s);
  }

  lemma SettlementKeeps(b: Book, current: nat, rate: u64, p: Thermostat, seats: Seats, s: Schedule)
    requires Settleable(b, current, rate, p, seats, s) && Payable(seats, s)
    ensures var b' := Settle(b, current, rate, p, seats, s).0;
            && Kept(b, b')
            && (current > 0 ==> b'.supply == b.supply + Minted(b, rate, p, seats, s).1 && current - 1 !in b'.fees)
  {
    hide Settle, Payable, SeatsOf, Listing, PoolSuffices, Minted, Sound, Gap;
    SettleConserves(b, current, rate, p, seats, s);
  }

  lemma NoSeats(b: Book, pool: u64, total: u64, s: Schedule, seats: Seats)
    requires total > 0 && Payable(seats, s)
    ensures Payable(seats[..0], s) && CreditShares(b, seats[..0], pool, total, s) == (b, 0)
  {
  }

  lemma OneMoreSeat(b: Book, seats: Seats, i: nat, pool: u64, total: u64, s: Schedule)
    requires total > 0 && Payable(seats, s) && i < |seats|
    ensures Payable(seats[..i], s) && Payable(seats[..i + 1], s) && Governed(s)
    ensures Listed(s, seats[i].0) != [] ==> SumDelegations(Listed(s, seats[i].0)) > 0
    ensures var (paid, distributed) := CreditShares(b, seats[..i], pool, total, s);
            var share := Share(pool, RewardWeight(seats[i].0, seats[i].1, s.produced), total);
            var (more, moved) := CreditShare(paid, seats[i].0, seats[i].1, share, s);
            CreditShares(b, seats[..i + 1], pool, total, s) == (more, WrapAdd(distributed, moved))
  {
    hide CreditShare, RewardWeight, SafeMul, SumDelegations, Governed;
    assert seats[..i + 1][..i] == seats[..i];
  }

  class Vault {
    var coins: map<Hash, Coin>
    var coinsTotal: u64
    var supply: u64
    var validators: map<Hash, Validator>
    var positions: map<Hash, map<Hash, u64>>
    var deposits: map<Hash, u64>
    var fees: map<nat, u64>
    var withheld: u64
    var issuanceRate: u64

    ghost function State(): Book
      reads this
    {
      Book(coins, coinsTotal, supply, validators, positions, deposits, fees, withheld)
    }

    method StrictDebit(coin: Hash, amount: u64) returns (ok: bool)
      modifies `coins, `coinsTotal
      ensures var r := Debit(old(State()), coin, amount);
              ok == r.Some? && State() == if ok then r.value else old(State())
      ensures old(Tallied(State())) ==> Tallied(State()) && coinsTotal == old(coinsTotal) - if ok then amount else 0
    {
      hide Tallied;
      if Tallied(State()) { DebitKeeps(State(), coin, amount); }
      if coin !in coins || coins[coin].replication != 0 { return false; }
      var balance := coins[coin].balance;
      if balance < amount { return false; }
      coins := coins[coin := coins[coin].(balance := balance - amount)];
      coinsTotal := SubFloor(coinsTotal, amount);
      return true;
    }

    method CreditCoin(coin: Hash, amount: u64) returns (ok: bool)
      modifies `coins, `coinsTotal
      ensures var r := Credit(old(State()), coin, amount);
              ok == r.Some? && State() == if ok then r.value else old(State())
      ensures old(Tallied(State())) && old(coinsTotal) + amount < WORD ==>
                && (ok <==> amount == 0 || coin in old(coins))
                && Tallied(State()) && coinsTotal == old(coinsTotal) + if ok then amount else 0
    {
      hide Tallied;
      if Tallied(State()) && coinsTotal + amount < WORD { CreditKeeps(State(), coin, amount); }
      if amount == 0 { return true; }
      if coin !in coins { return false; }
      var balance := WrapAdd(coins[coin].balance, amount);
      if balance < coins[coin].balance { return false; }
      coins := coins[coin := coins[coin].(balance := balance)];
      coinsTotal := SafeAdd(coinsTotal, amount);
      return true;
    }

    method DeductCoinFee(coin: Hash, fee: u64) returns (found: bool, deducted: u64, covered: bool)
      modifies `coins, `coinsTotal
      ensures var r := DeductFee(old(State()), coin, fee);
              found == r.Some? && (if found then r.value == (State(), deducted, covered) else State() == old(State()))
      ensures old(Tallied(State())) ==>
                Tallied(State()) && coinsTotal == old(coinsTotal) - if found then deducted else 0
    {
      hide Tallied;
      if Tallied(State()) { DeductKeeps(State(), coin, fee); }
      if coin !in coins { return false, 0, false; }
      var balance := coins[coin].balance;
      if balance >= fee {
        coins := coins[coin := coins[coin].(balance := balance - fee)];
        coinsTotal := SubFloor(coinsTotal, fee);
        return true, fee, true;
      }
      coins := coins[coin := coins[coin].(balance := balance - balance)];
      coinsTotal := SubFloor(coinsTotal, balance);
      return true, balance, false;
    }

    method HandleBond(sender: Hash, coin: Hash, amount: u64, minStake: u64) returns (ok: bool)
      modifies `coins, `coinsTotal, `validators
      ensures (State(), ok) == Bond(old(State()), sender, coin, amount, minStake)
      ensures old(Sound(State()) && (Jailed(State(), sender) ==> validators[sender].selfStake + amount < WORD)) ==>
                Sound(State()) && (Gap(State()) == old(Gap(State())) <==> !ok || !old(Jailed(State(), sender)))
    {
      hide Sound, Gap, Tallied;
      if Sound(State()) && (Jailed(State(), sender) ==> validators[sender].selfStake + amount < WORD) {
        BondKeeps(State(), sender, coin, amount, minStake);
      }
      if amount == 0 || sender !in validators { return false; }
      var stake := SafeAdd(validators[sender].selfStake, amount);
      if stake < minStake { return false; }
      ok := StrictDebit(coin, amount);
      if ok { validators := validators[sender := validators[sender].(selfStake := stake)]; }
    }

    method HandleUnbond(sender: Hash, coin: Hash, amount: u64, minStake: u64) returns (ok: bool)
      modifies `coins, `coinsTotal, `validators
      ensures (State(), ok) == Unbond(old(State()), sender, coin, amount, minStake)
      ensures old(Sound(State()) && (Jailed(State(), sender) ==> coinsTotal + amount < WORD)) ==>
                && (Gap(State()) == old(Gap(State())) <==> !ok || !old(Jailed(State(), sender)))
                && (Gap(State()) == old(Gap(State())) ==> Sound(State()))
    {
      hide Sound, Gap, Tallied;
      if Sound(State()) && (Jailed(State(), sender) ==> coinsTotal + amount < WORD) {
        UnbondKeeps(State(), sender, coin, amount, minStake);
      }
      if amount == 0 || sender !in validators || validators[sender].selfStake < amount { return false; }
      var remaining := validators[sender].selfStake - amount;
      if minStake > 0 && remaining > 0 && remaining < minStake { return false; }
      ok := CreditCoin(coin, amount);
      if ok { validators := validators[sender := validators[sender].(selfStake := remaining)]; }
    }

    method HandleDelegate(d: Hash, coin: Hash, v: Hash, amount: u64) returns (ok: bool)
      modifies `coins, `coinsTotal, `validators, `positions
      ensures (State(), ok) == Delegate(old(State()), d, coin, v, amount)
      ensures old(Sound(State())) ==> Kept(old(State()), State())
    {
      hide Sound, Gap, Tallied, Kept;
      if Sound(State()) { DelegateKeeps(State(), d, coin, v, amount); }
      if amount == 0 || v !in validators || validators[v].jailed { return false; }
      ok := StrictDebit(coin, amount);
      if ok {
        positions := positions[v := (if v in positions then positions[v] else map[])[d := amount]];
        validators := validators[v := validators[v].(delegated := WrapAdd(validators[v].delegated, amount))];
      }
    }

    method HandleUndelegate(d: Hash, coin: Hash, v: Hash) returns (ok: bool)
      modifies `coins, `coinsTotal, `validators, `positions
      ensures (State(), ok) == Undelegate(old(State()), d, coin, v)
      ensures old(Sound(State()) && (Jailed(State(), v) && d in PositionsOf(State(), v) ==>
                    coinsTotal + PositionsOf(State(), v)[d] < WORD)) ==>
                && (Gap(State()) == old(Gap(State())) <==> !ok || !old(Jailed(State(), v)))
                && (Gap(State()) == old(Gap(State())) ==> Sound(State()))
    {
      hide Sound, Gap, Tallied;
      if Sound(State()) && (Jailed(State(), v) && d in PositionsOf(State(), v) ==>
           coinsTotal + PositionsOf(State(), v)[d] < WORD) {
        UndelegateKeeps(State(), d, coin, v);
      }
      if v !in positions || d !in positions[v] { return false; }
      var amount := positions[v][d];
      ok := CreditCoin(coin, amount);
      if ok {
        positions := positions[v := positions[v] - {d}];
        if v in validators {
          validators := validators[v := validators[v].(delegated := SubFloor(validators[v].delegated, amount))];
        }
      }
    }

    method DeductFees(coin: Hash, consumed: u64, storage: u64, burnBps: u64, epoch: nat) returns (ok: bool)
      requires consumed + storage < WORD && burnBps <= BPS_MAX
      modifies `coins, `coinsTotal, `fees, `withheld
      ensures (State(), ok) == Charge(old(State()), coin, consumed, storage, burnBps, epoch)
      ensures old(Sound(State())) ==>
                && Sound(State()) && (ok <==> old(Covers(State(), coin, consumed + storage)))
                && (Gap(State()) == old(Gap(State())) <==> BurnedShare(consumed, burnBps) == 0 || !ok)
    {
      hide Sound, Gap, Tallied, Covers;
      if Sound(State()) { ChargeConserves(State(), coin, consumed, storage, burnBps, epoch); }
      var fee := consumed + storage;
      if fee == 0 { return true; }
      var found, deducted, covered := DeductCoinFee(coin, fee);
      if !found { return false; }
      if !covered {
        fees := fees[epoch := SafeAdd(Bucket(fees, epoch), deducted)];
        return false;
      }
      WrappedShare(consumed, burnBps);
      hide BurnedShare;
      fees := fees[epoch := SafeAdd(Bucket(fees, epoch), consumed - BurnedShare(consumed, burnBps))];
      withheld := SafeAdd(withheld, storage);
      return true;
    }

    method SettleDeleted(id: Hash, gasCoin: Option<Hash>, refundBps: u64) returns (refund: u64)
      requires refundBps <= BPS_MAX
      modifies `coins, `coinsTotal, `deposits, `supply
      ensures (State(), refund) == SettleDeletion(old(State()), id, gasCoin, refundBps)
      ensures old(Sound(State())) ==> Kept(old(State()), State())
    {
      hide Refund, Sound, Gap, Tallied;
      if Sound(State()) { DeletionConserves(State(), id, gasCoin, refundBps); }
      var deposit := if id in deposits then deposits[id] else 0;
      deposits := deposits - {id};
      if deposit == 0 { return 0; }
      if gasCoin.None? || refundBps == 0 {
        supply := SubFloor(supply, deposit);
        return 0;
      }
      refund := Refund(deposit, refundBps);
      var ok := CreditCoin(gasCoin.value, refund);
      if !ok {
        supply := SubFloor(supply, deposit);
        return 0;
      }
      supply := SubFloor(supply, deposit - refund);
    }

    method CompoundDelegation(d: Hash, v: Hash, reward: u64) returns (ok: bool)
      modifies `validators, `positions
      ensures var r := Compound(old(State()), d, v, reward);
              ok == r.Some? && State() == if ok then r.value else old(State())
      ensures ok && old(Ready(State()) && v in validators && !validators[v].jailed && Paid(State()) + reward < WORD) ==>
                Credits(old(State()), State(), reward)
    {
      hide Ready, Paid, Credits;
      if Ready(State()) && v in validators && !validators[v].jailed && Paid(State()) + reward < WORD
         && Compound(State(), d, v, reward).Some?
      {
        CompoundMoves(State(), d, v, reward);
      }
      if reward == 0 || v !in positions || d !in positions[v] { return false; }
      var held: map<Hash, u64> := positions[v];
      positions := positions[v := held[d := SafeAdd(held[d], reward)]];
      if v in validators {
        validators := validators[v := validators[v].(delegated := WrapAdd(validators[v].delegated, reward))];
      }
      return true;
    }

    method PayDelegators(v: Hash, payouts: seq<Payout>) returns (credited: u64)
      modifies `validators, `positions
      ensures (State(), credited) == CreditDelegators(old(State()), v, payouts)
      ensures old(PayableTo(State(), v, payouts)) ==>
                credited == Sum(Amounts(payouts)) && Credits(old(State()), State(), credited)
    {
      hide Compound, Ready, Paid, Credits, Sum, Amounts;
      if PayableTo(State(), v, payouts) { DelegatorsPaid(State(), v, payouts); }
      credited := 0;
      for i := 0 to |payouts|
        invariant (State(), credited) == CreditDelegators(old(State()), v, payouts[..i])
      {
        assert payouts[..i + 1][..i] == payouts[..i];
        var ok := CompoundDelegation(payouts[i].0, v, payouts[i].1);
        if ok { credited := WrapAdd(credited, payouts[i].1); }
      }
      assert payouts[..|payouts|] == payouts;
    }

    method PayValidator(key: Hash, was: Validator, amount: u64, restakeMille: u64) returns (moved: u64)
      requires restakeMille <= MILLE_MAX
      modifies `coins, `coinsTotal, `validators
      ensures (State(), moved) == CreditValidator(old(State()), key, was, amount, restakeMille)
      ensures old(Ready(State()) && key in validators && !validators[key].jailed
                  && was.selfStake == validators[key].selfStake && Paid(State()) + amount < WORD) ==>
                && Credits(old(State()), State(), moved) && moved <= amount
                && (was.rewardCoin == ZERO_HASH || was.rewardCoin in old(coins) ==> moved == amount)
    {
      hide Ready, Paid, Credits, Tallied;
      if Ready(State()) && key in validators && !validators[key].jailed
         && was.selfStake == validators[key].selfStake && Paid(State()) + amount < WORD
      {
        ValidatorPaid(State(), key, was, amount, restakeMille);
      }
      ShareBound(amount, restakeMille, MILLE_MAX);
      hide SafeMul, SafeAdd;
      if was.rewardCoin == ZERO_HASH {
        if key in validators {
          validators := validators[key := validators[key].(selfStake := SafeAdd(was.selfStake, amount))];
        }
        return amount;
      }
      var restake := SafeMul(amount, restakeMille) / MILLE_MAX;
      if restake > 0 && key in validators {
        validators := validators[key := validators[key].(selfStake := SafeAdd(was.selfStake, restake))];
      }
      var ok := CreditCoin(was.rewardCoin, amount - restake);
      if !ok { return restake; }
      return amount;
    }

    method PayShare(key: Hash, was: Validator, share: u64, s: Schedule) returns (moved: u64)
      requires Governed(s)
      requires Listed(s, key) != [] && was.selfStake > 0 ==> SumDelegations(Listed(s, key)) > 0
      modifies `coins, `coinsTotal, `validators, `positions
      ensures (State(), moved) == CreditShare(old(State()), key, was, share, s)
      ensures old(Shareable(State(), key, was, share, s)) ==>
                && Credits(old(State()), State(), moved) && moved <= share
                && (was.rewardCoin == ZERO_HASH || was.rewardCoin in old(coins) ==> moved == share)
    {
      hide SplitReward, CreditDelegators, CreditValidator, Ready, Paid, Credits, Lists;
      if Shareable(State(), key, was, share, s) { SharePaid(State(), key, was, share, s); }
      var own, payouts := SplitOf(share, was.selfStake, s.commissionBps, Listed(s, key));
      var credited := PayDelegators(key, payouts);
      var rest := PayValidator(key, was, own, s.restakeMille);
      moved := WrapAdd(credited, rest);
    }

    method PayRemainder(top: Hash, remainder: u64) returns (rest: u64)
      modifies `coins, `coinsTotal
      ensures (State(), rest) == CreditRemainder(old(State()), top, remainder)
      ensures old(Ready(State()) && Paid(State()) + remainder < WORD) ==>
                && Credits(old(State()), State(), rest)
                && (rest == 0 || rest == remainder) && (old(PaidInCoin(State(), top)) ==> rest == remainder)
    {
      hide Ready, Paid, Credits, Tallied;
      if Ready(State()) && Paid(State()) + remainder < WORD { RemainderPaid(State(), top, remainder); }
      if remainder == 0 { return 0; }
      if top !in validators || validators[top].rewardCoin == ZERO_HASH { return 0; }
      var ok := CreditCoin(validators[top].rewardCoin, remainder);
      return if ok then remainder else 0;
    }

    /** The distribution's own loop, one share after the other. */
    method PayShares(seats: Seats, pool: u64, total: u64, s: Schedule) returns (distributed: u64)
      requires total > 0 && Payable(seats, s)
      modifies `coins, `coinsTotal, `validators, `positions
      ensures (State(), distributed) == CreditShares(old(State()), seats, pool, total, s)
    {
      hide CreditShares, CreditShare, RewardWeight, SafeMul, SumDelegations, Credits, Shareable, Payable, Governed;
      distributed := 0;
      NoSeats(old(State()), pool, total, s, seats);
      for i := 0 to |seats|
        invariant Payable(seats[..i], s)
        invariant (State(), distributed) == CreditShares(old(State()), seats[..i], pool, total, s)
      {
        OneMoreSeat(old(State()), seats, i, pool, total, s);
        var share := SafeMul(pool, RewardWeight(seats[i].0, seats[i].1, s.produced)) / total;
        var moved := PayShare(seats[i].0, seats[i].1, share, s);
        distributed := WrapAdd(distributed, moved);
      }
      assert seats[..|seats|] == seats;
    }

    method DistributeEpochRewards(epoch: nat, issuance: u64, seats: Seats, s: Schedule) returns (leftover: u64)
      requires Payable(seats, s)
      modifies `coins, `coinsTotal, `validators, `positions
      ensures (State(), leftover) == Distribute(old(State()), epoch, issuance, seats, s)
      ensures old(Distributable(State(), epoch, issuance, seats, s)) ==>
                && 0 <= leftover <= old(Bucket(fees, epoch)) + issuance
                && Credits(old(State()), State(), old(Bucket(fees, epoch)) + issuance - leftover)
    {
      hide CreditShares, CreditRemainder, Top, TotalWeight, Ready, Paid, Credits, Distributable, PaidInCoin;
      if Distributable(State(), epoch, issuance, seats, s) {
        DistributionKeeps(State(), epoch, issuance, seats, s);
      }
      var pool := SafeAdd(Bucket(fees, epoch), issuance);
      var total := RewardWeights(seats, s.produced);
      if pool == 0 || total == 0 { return pool; }
      var top := PickRemainderRecipient(seats, s.produced);
      var distributed := PayShares(seats, pool, total, s);
      var rest := PayRemainder(top, WrapSub(pool, distributed));
      leftover := WrapSub(pool, WrapAdd(distributed, rest));
    }

    method SettleDeferredEpoch(current: nat, p: Thermostat, seats: Seats, s: Schedule)
      requires Payable(seats, s)
      modifies this
      ensures (State(), issuanceRate) == Settle(old(State()), current, old(issuanceRate), p, seats, s)
      ensures old(Settleable(State(), current, issuanceRate, p, seats, s)) ==>
                && Kept(old(State()), State())
                && (current > 0 ==> current - 1 !in fees
                                    && supply == old(supply) + Minted(old(State()), old(issuanceRate), p, seats, s).1)
    {
      hide Distribute, TotalWeight, TotalBonded, AdjustRate, StakingRatio, IssuanceFor, Payable, Kept, Settleable,
        Distributable, Credits, SafeAdd;
      if Settleable(State(), current, issuanceRate, p, seats, s) {
        SettlementKeeps(State(), current, issuanceRate, p, seats, s);
      }
      if current == 0 { return; }
      var weight := RewardWeights(seats, s.produced);
      var bonded := BondedTotal(seats);
      issuanceRate := AdjustRate(issuanceRate, StakingRatio(bonded, supply), p);
      var issuance := 0;
      if weight > 0 {
        issuance := IssuanceFor(issuanceRate, supply);
      }
      supply := SafeAdd(supply, issuance);
      var leftover := DistributeEpochRewards(current - 1, issuance, seats, s);
      fees := fees - {current - 1};
      if leftover > 0 { fees := fees[current := SafeAdd(Bucket(fees, current), leftover)]; }
    }

    method ReturnStake(key: Hash) returns (ok: bool)
      modifies `coins, `coinsTotal, `validators
      ensures var r := Depart(old(State()), key);
              ok == r.Some? && State() == if ok then r.value else old(State())
      ensures old(Sound(State())) ==> Kept(old(State()), State()) && supply == old(supply)
    {
      hide Sound, Gap, Tallied;
      if Sound(State()) { DepartKeeps(State(), key); }
      if key in validators && validators[key].delegated > 0 { return false; }
      var principal := if key !in validators || validators[key].jailed then 0 else validators[key].selfStake;
      if principal > 0 {
        if validators[key].rewardCoin == ZERO_HASH { return false; }
        ok := CreditCoin(validators[key].rewardCoin, principal);
        if !ok { return; }
      }
      validators := validators - {key};
      return true;
    }

    method ApplyPendingRemovals(pending: seq<Hash>, maxChurn: nat) returns (removed: seq<Hash>)
      modifies `coins, `coinsTotal, `validators
      ensures (State(), removed) == ApplyRemovals(old(State()), pending, maxChurn)
      ensures old(Sound(State())) ==>
                && Kept(old(State()), State()) && (maxChurn > 0 ==> |removed| <= maxChurn)
                && (forall k :: k in removed ==> k in pending && k !in validators)
                && (forall k :: k in old(validators) && k !in removed ==>
                      k in validators && validators[k] == old(validators)[k])
    {
      hide Depart, Sound, Gap;
      if Sound(State()) { RemovalsConserve(State(), pending, maxChurn); }
      removed := [];
      for i := 0 to |pending|
        invariant (State(), removed) == ApplyRemovals(old(State()), pending[..i], maxChurn)
      {
        if maxChurn > 0 && |removed| >= maxChurn {
          RemovalsStop(old(State()), pending, i, |pending|, maxChurn);
          assert pending[..|pending|] == pending;
          return;
        }
        assert pending[..i + 1][..i] == pending[..i];
        var ok := ReturnStake(pending[i]);
        if ok { removed := removed + [pending[i]]; }
      }
      assert pending[..|pending|] == pending;
    }
  }

  /** Once the churn limit is reached the rest of the list is left for the next boundary. */
  lemma {:induction false} RemovalsStop(b: Book, pending: seq<Hash>, i: nat, j: nat, maxChurn: nat)
    requires i <= j <= |pending| && maxChurn > 0
    requires |ApplyRemovals(b, pending[..i], maxChurn).1| >= maxChurn
    ensures ApplyRemovals(b, pending[..j], maxChurn) == ApplyRemovals(b, pending[..i], maxChurn)
    decreases j
  {
    hide Depart;
    if i < j {
      RemovalsStop(b, pending, i, j - 1, maxChurn);
      assert pending[..j][..j - 1] == pending[..j - 1];
    }
  }
}
