/** The token ledger: coins, stakes, deposits and fee buckets against the supply counter
    (internal/consensus/coins.go, commit.go, delegation.go; internal/state/supply.go). */
module Ledger {
  import opened Common
  import Stake
  import opened Sums

  const BPS_MAX: u64 := 10000
  const MILLE_MAX: u64 := 1000

  type Validator = Stake.Validator

  datatype Coin = Coin(balance: u64, replication: nat)

  /** `positions[v][d]` is the stake position of delegator `d` with validator `v`;
      `deposits` are the storage deposits the tracker holds; `withheld` is the storage
      deposit debited by the transaction under way and not yet locked or pooled. */
  datatype Book = Book(coins: map<Hash, Coin>, coinsTotal: u64, supply: u64,
                       validators: map<Hash, Validator>, positions: map<Hash, map<Hash, u64>>,
                       deposits: map<Hash, u64>, fees: map<nat, u64>, withheld: u64)

  function SubFloor(a: u64, b: u64): u64
  {
    if b > a then 0 else a - b
  }

  function WrapAdd(a: u64, b: u64): u64
  {
    (a + b) % WORD
  }

  function PositionsOf(b: Book, v: Hash): map<Hash, u64>
  {
    if v in b.positions then b.positions[v] else map[]
  }

  function Bucket(fees: map<nat, u64>, epoch: nat): u64
  {
    if epoch in fees then fees[epoch] else 0
  }

  // ---- Moves ----------------------------------------------------------------------

  /** strictDebit: only a singleton coin that covers the amount. */
  function Debit(b: Book, coin: Hash, amount: u64): Option<Book>
  {
    if coin !in b.coins || b.coins[coin].replication != 0 || b.coins[coin].balance < amount then None
    else Some(b.(coins := b.coins[coin := b.coins[coin].(balance := b.coins[coin].balance - amount)],
                 coinsTotal := SubFloor(b.coinsTotal, amount)))
  }

  /** creditCoin: a missing coin or a wrapping balance is an error. */
  function Credit(b: Book, coin: Hash, amount: u64): Option<Book>
  {
    if amount == 0 then Some(b)
    else if coin !in b.coins || WrapAdd(b.coins[coin].balance, amount) < b.coins[coin].balance then None
    else Some(b.(coins := b.coins[coin := b.coins[coin].(balance := WrapAdd(b.coins[coin].balance, amount))],
                 coinsTotal := SafeAdd(b.coinsTotal, amount)))
  }

  /** deductCoinFee: what was taken, and whether it covered the fee. */
  function DeductFee(b: Book, coin: Hash, fee: u64): Option<(Book, u64, bool)>
  {
    if coin !in b.coins then None
    else
      var balance := b.coins[coin].balance;
      var taken := if balance >= fee then fee else balance;
      Some((b.(coins := b.coins[coin := b.coins[coin].(balance := balance - taken)],
               coinsTotal := SubFloor(b.coinsTotal, taken)), taken, balance >= fee))
  }

  function SetSelf(b: Book, v: Hash, stake: u64): Book
  {
    if v in b.validators then b.(validators := b.validators[v := b.validators[v].(selfStake := stake)]) else b
  }

  function AddDelegated(b: Book, v: Hash, amount: u64): Book
  {
    if v in b.validators
    then b.(validators := b.validators[v := b.validators[v].(delegated := WrapAdd(b.validators[v].delegated, amount))])
    else b
  }

  function SubDelegated(b: Book, v: Hash, amount: u64): Book
  {
    if v in b.validators
    then b.(validators := b.validators[v := b.validators[v].(delegated := SubFloor(b.validators[v].delegated, amount))])
    else b
  }

  function SetPosition(b: Book, d: Hash, v: Hash, amount: u64): Book
  {
    b.(positions := b.positions[v := PositionsOf(b, v)[d := amount]])
  }

  function DropPosition(b: Book, d: Hash, v: Hash): Book
  {
    b.(positions := b.positions[v := PositionsOf(b, v) - {d}])
  }

  // ---- Transactions that move tokens -------------------------------------------------

  function Bond(b: Book, sender: Hash, coin: Hash, amount: u64, minStake: u64): (Book, bool)
  {
    if amount == 0 || sender !in b.validators then (b, false)
    else
      var stake := SafeAdd(b.validators[sender].selfStake, amount);
      if stake < minStake then (b, false)
      else
        var paid := Debit(b, coin, amount);
        if paid.None? then (b, false) else (SetSelf(paid.value, sender, stake), true)
  }

  function Unbond(b: Book, sender: Hash, coin: Hash, amount: u64, minStake: u64): (Book, bool)
  {
    if amount == 0 || sender !in b.validators || b.validators[sender].selfStake < amount then (b, false)
    else
      var remaining := b.validators[sender].selfStake - amount;
      if minStake > 0 && 0 < remaining < minStake then (b, false)
      else
        var paid := Credit(b, coin, amount);
        if paid.None? then (b, false) else (SetSelf(paid.value, sender, remaining), true)
  }

  /** A position already held with this validator is overwritten, not added to. */
  function Delegate(b: Book, d: Hash, coin: Hash, v: Hash, amount: u64): (Book, bool)
  {
    if amount == 0 || v !in b.validators || b.validators[v].jailed then (b, false)
    else
      var paid := Debit(b, coin, amount);
      if paid.None? then (b, false) else (AddDelegated(SetPosition(paid.value, d, v, amount), v, amount), true)
  }

  function Undelegate(b: Book, d: Hash, coin: Hash, v: Hash): (Book, bool)
  {
    if d !in PositionsOf(b, v) then (b, false)
    else
      var amount := PositionsOf(b, v)[d];
      var paid := Credit(b, coin, amount);
      if paid.None? then (b, false) else (SubDelegated(DropPosition(paid.value, d, v), v, amount), true)
  }

  /** SplitFee: the wrapping product decides the burned share. */
  function BurnedShare(total: u64, burnBps: u64): u64
  {
    (total * burnBps) % WORD / BPS_MAX
  }

  function Pool(b: Book, epoch: nat, amount: u64): Book
  {
    b.(fees := b.fees[epoch := SafeAdd(Bucket(b.fees, epoch), amount)])
  }

  /** deductFees from the coin check on: the consumed part is pooled, the storage part is
      withheld; a coin that cannot cover both is drained into the pool. */
  function Charge(b: Book, coin: Hash, consumed: u64, storage: u64, burnBps: u64, epoch: nat): (Book, bool)
    requires consumed + storage < WORD && burnBps <= BPS_MAX
  {
    WrappedShare(consumed, burnBps);
    if consumed + storage == 0 then (b, true)
    else
      var r := DeductFee(b, coin, consumed + storage);
      if r.None? then (b, false)
      else if !r.value.2 then (Pool(r.value.0, epoch, r.value.1), false)
      else
        var burned := BurnedShare(consumed, burnBps);
        var pooled := Pool(r.value.0, epoch, consumed - burned);
        (pooled.(withheld := SafeAdd(pooled.withheld, storage)), true)
  }

  /** A failed execution or a declared-operation transaction pools what it withheld. */
  function PoolWithheld(b: Book, epoch: nat): Book
  {
    Pool(b, epoch, b.withheld).(withheld := 0)
  }

  /** A created object locks its deposit out of what was withheld. */
  function Lock(b: Book, id: Hash, deposit: u64): Book
    requires id !in b.deposits && deposit <= b.withheld
  {
    b.(deposits := b.deposits[id := deposit], withheld := b.withheld - deposit)
  }

  /** settleDeletion: refund a share of the deposit, burn the rest from the supply. */
  function SettleDeletion(b: Book, id: Hash, gasCoin: Option<Hash>, refundBps: u64): (Book, u64)
    requires refundBps <= BPS_MAX
  {
    var deposit := if id in b.deposits then b.deposits[id] else 0;
    var freed := b.(deposits := b.deposits - {id});
    if deposit == 0 then (freed, 0)
    else if gasCoin.None? || refundBps == 0 then (freed.(supply := SubFloor(b.supply, deposit)), 0)
    else
      var refund := Refund(deposit, refundBps);
      var paid := Credit(freed, gasCoin.value, refund);
      if paid.None? then (freed.(supply := SubFloor(b.supply, deposit)), 0)
      else (paid.value.(supply := SubFloor(b.supply, deposit - refund)), refund)
  }

  /** The refunded share never exceeds the deposit, even where the product wraps. */
  function Refund(deposit: u64, refundBps: u64): (r: u64)
    requires refundBps <= BPS_MAX
    ensures r <= deposit
  {
    WrappedShare(deposit, refundBps);
    (deposit * refundBps) % WORD / BPS_MAX
  }

  lemma WrappedShare(x: u64, bps: u64)
    requires bps <= BPS_MAX
    ensures 0 <= (x * bps) % WORD / BPS_MAX <= x
  {
    assert 0 <= x * bps <= x * BPS_MAX;
    assert (x * bps) % WORD <= x * bps;
  }

  // ---- What is held against the supply ------------------------------------------------

  function StakeOf(v: Validator): int
  {
    if v.jailed then 0 else v.selfStake + v.delegated
  }

  function Stakes(vs: map<Hash, Validator>): map<Hash, int>
  {
    map k | k in vs :: StakeOf(vs[k])
  }

  function BalanceOf(coins: map<Hash, Coin>): map<Hash, int>
  {
    map k | k in coins :: coins[k].balance
  }

  ghost function Bonded(vs: map<Hash, Validator>): int
  {
    Total(Stakes(vs))
  }

  ghost function Balances(coins: map<Hash, Coin>): int
  {
    Total(BalanceOf(coins))
  }

  /** Coins, bonded stake, locked deposits, pooled fees and the deposit under way. */
  ghost function Held(b: Book): int
  {
    b.coinsTotal + Bonded(b.validators) + Total(b.deposits) + Total(b.fees) + b.withheld
  }

  ghost function Gap(b: Book): int
  {
    Held(b) - b.supply
  }

  /** Positions are funded: what delegators of `v` hold is part of its delegated total. */
  ghost predicate Funded(held: map<Hash, u64>, delegated: int)
  {
    (forall d :: d in held ==> held[d] > 0) && Total(held) <= delegated
  }

  function DelegatedTo(vs: map<Hash, Validator>, v: Hash): int
  {
    if v in vs then vs[v].delegated else 0
  }

  ghost predicate Covered(b: Book)
  {
    forall v :: v in b.positions ==> Funded(b.positions[v], DelegatedTo(b.validators, v))
  }

  ghost predicate NoneJailed(b: Book)
  {
    forall v :: v in b.validators ==> !b.validators[v].jailed
  }

  /** The ledger never holds more than the supply, its coin counter is exact, and its
      positions are funded. */
  ghost predicate Sound(b: Book)
  {
    && Held(b) <= b.supply
    && b.coinsTotal == Balances(b.coins)
    && Covered(b)
  }

  lemma BondedPut(vs: map<Hash, Validator>, k: Hash, v: Validator)
    ensures Bonded(vs[k := v]) == Bonded(vs) - (if k in vs then StakeOf(vs[k]) else 0) + StakeOf(v)
  {
    TotalPut(Stakes(vs), k, StakeOf(v));
    assert Stakes(vs)[k := StakeOf(v)] == Stakes(vs[k := v]);
  }

  lemma BondedDrop(vs: map<Hash, Validator>, k: Hash)
    ensures Bonded(vs - {k}) == Bonded(vs) - if k in vs then StakeOf(vs[k]) else 0
  {
    TotalDrop(Stakes(vs), k);
    assert Stakes(vs) - {k} == Stakes(vs - {k});
  }

  lemma BalancesPut(coins: map<Hash, Coin>, k: Hash, c: Coin)
    ensures Balances(coins[k := c]) == Balances(coins) - (if k in coins then coins[k].balance else 0) + c.balance
  {
    TotalPut(BalanceOf(coins), k, c.balance);
    assert BalanceOf(coins)[k := c.balance] == BalanceOf(coins[k := c]);
  }

  lemma Parts(b: Book)
    ensures Bonded(b.validators) >= 0 && Balances(b.coins) >= 0 && Total(b.deposits) >= 0 && Total(b.fees) >= 0
    ensures forall k :: k in b.validators ==> StakeOf(b.validators[k]) <= Bonded(b.validators)
    ensures forall k :: k in b.coins ==> b.coins[k].balance <= Balances(b.coins)
    ensures forall k :: k in b.deposits ==> b.deposits[k] <= Total(b.deposits)
    ensures forall k :: k in b.fees ==> b.fees[k] <= Total(b.fees)
  {
    var stakes, balances := Stakes(b.validators), BalanceOf(b.coins);
    TotalNonNegative(stakes);
    TotalNonNegative(balances);
    TotalNonNegative(b.deposits);
    TotalNonNegative(b.fees);
    forall k | k in b.validators ensures StakeOf(b.validators[k]) <= Bonded(b.validators) { PartOfTotal(stakes, k); }
    forall k | k in b.coins ensures b.coins[k].balance <= Balances(b.coins) { PartOfTotal(balances, k); }
    forall k | k in b.deposits ensures b.deposits[k] <= Total(b.deposits) { PartOfTotal(b.deposits, k); }
    forall k | k in b.fees ensures b.fees[k] <= Total(b.fees) { PartOfTotal(b.fees, k); }
  }

  // ---- Moves are exact ----------------------------------------------------------------

  lemma DebitMoves(b: Book, coin: Hash, amount: u64)
    requires b.coinsTotal == Balances(b.coins) && Debit(b, coin, amount).Some?
    ensures var b' := Debit(b, coin, amount).value;
            && b' == b.(coins := b'.coins, coinsTotal := b'.coinsTotal)
            && b'.coinsTotal == b.coinsTotal - amount && b'.coinsTotal == Balances(b'.coins)
  {
    Parts(b);
    BalancesPut(b.coins, coin, b.coins[coin].(balance := b.coins[coin].balance - amount));
  }

  lemma CreditMoves(b: Book, coin: Hash, amount: u64)
    requires b.coinsTotal == Balances(b.coins) && b.coinsTotal + amount < WORD
    ensures Credit(b, coin, amount).Some? <==> amount == 0 || coin in b.coins
    ensures Credit(b, coin, amount).Some? ==>
              var b' := Credit(b, coin, amount).value;
              && b' == b.(coins := b'.coins, coinsTotal := b'.coinsTotal)
              && b'.coinsTotal == b.coinsTotal + amount && b'.coinsTotal == Balances(b'.coins)
  {
    Parts(b);
    if amount != 0 && coin in b.coins {
      assert WrapAdd(b.coins[coin].balance, amount) == b.coins[coin].balance + amount;
      BalancesPut(b.coins, coin, b.coins[coin].(balance := b.coins[coin].balance + amount));
    }
  }

  lemma DeductMoves(b: Book, coin: Hash, fee: u64)
    requires b.coinsTotal == Balances(b.coins) && DeductFee(b, coin, fee).Some?
    ensures var (b', taken, _) := DeductFee(b, coin, fee).value;
            && b' == b.(coins := b'.coins, coinsTotal := b'.coinsTotal) && taken <= fee
            && b'.coinsTotal == b.coinsTotal - taken && b'.coinsTotal == Balances(b'.coins)
  {
    Parts(b);
    var balance := b.coins[coin].balance;
    var taken := if balance >= fee then fee else balance;
    BalancesPut(b.coins, coin, b.coins[coin].(balance := balance - taken));
  }

  lemma PoolMoves(b: Book, epoch: nat, amount: u64)
    requires Total(b.fees) + amount < WORD
    ensures Total(Pool(b, epoch, amount).fees) == Total(b.fees) + amount
  {
    Parts(b);
    TotalPut(b.fees, epoch, SafeAdd(Bucket(b.fees, epoch), amount));
  }

  // ---- Conservation, flow by flow -------------------------------------------------------

  /** A bond moves tokens from the coin to the stake; it conserves exactly when the
      validator is not jailed, since a jailed stake is not counted as bonded. */
  lemma BondConserves(b: Book, sender: Hash, coin: Hash, amount: u64, minStake: u64)
    requires Sound(b) && Bond(b, sender, coin, amount, minStake).1
    requires b.validators[sender].jailed ==> b.validators[sender].selfStake + amount < WORD
    ensures var b' := Bond(b, sender, coin, amount, minStake).0;
            Sound(b') && (Gap(b') == Gap(b) <==> !b.validators[sender].jailed)
  {
    Parts(b);
    DebitMoves(b, coin, amount);
    var v := b.validators[sender];
    BondedPut(b.validators, sender, v.(selfStake := SafeAdd(v.selfStake, amount)));
    hide Bonded, Balances, Debit;
  }

  lemma UnbondConserves(b: Book, sender: Hash, coin: Hash, amount: u64, minStake: u64)
    requires Sound(b) && Unbond(b, sender, coin, amount, minStake).1
    requires b.validators[sender].jailed ==> b.coinsTotal + amount < WORD
    ensures var b' := Unbond(b, sender, coin, amount, minStake).0;
            && (Gap(b') == Gap(b) <==> !b.validators[sender].jailed)
            && (Gap(b') == Gap(b) ==> Sound(b'))
  {
    Parts(b);
    CreditMoves(b, coin, amount);
    var v := b.validators[sender];
    BondedPut(b.validators, sender, v.(selfStake := v.selfStake - amount));
    hide Bonded, Balances, Credit;
  }

  /** Restating one validator's positions and delegated total leaves the others covered. */
  lemma CoveredAt(b: Book, b': Book, v: Hash, held: map<Hash, u64>)
    requires Covered(b) && b'.positions == b.positions[v := held]
    requires Funded(held, DelegatedTo(b'.validators, v))
    requires forall u :: u in b.positions && u != v ==> DelegatedTo(b'.validators, u) == DelegatedTo(b.validators, u)
    ensures Covered(b')
  {
    hide Funded;
  }

  lemma SameCover(b: Book, b': Book)
    requires Covered(b) && b'.positions == b.positions && b'.validators == b.validators
    ensures Covered(b')
  {
  }

  lemma DelegateConserves(b: Book, d: Hash, coin: Hash, v: Hash, amount: u64)
    requires Sound(b) && Delegate(b, d, coin, v, amount).1
    ensures var b' := Delegate(b, d, coin, v, amount).0;
            Sound(b') && Gap(b') == Gap(b)
  {
    Parts(b);
    hide Bonded, Balances, Total, Covered, Funded;
    DebitMoves(b, coin, amount);
    var was := b.validators[v];
    assert was.delegated + amount < WORD;
    BondedPut(b.validators, v, was.(delegated := was.delegated + amount));
    CoveredBefore(b, v);
    PositionRaised(PositionsOf(b, v), d, amount, was.delegated);
    CoveredAt(b, Delegate(b, d, coin, v, amount).0, v, PositionsOf(b, v)[d := amount]);
  }

  lemma CoveredBefore(b: Book, v: Hash)
    requires Covered(b)
    ensures v in b.positions ==> Funded(PositionsOf(b, v), DelegatedTo(b.validators, v))
    ensures v !in b.positions ==> PositionsOf(b, v) == map[]
  {
  }

  lemma PositionRaised(held: map<Hash, u64>, d: Hash, amount: u64, delegated: int)
    requires (Funded(held, delegated) || (held == map[] && delegated >= 0)) && amount > 0
    ensures Funded(held[d := amount], delegated + amount)
  {
    TotalPut(held, d, amount);
    EmptyTotal();
  }

  lemma EmptyTotal()
    ensures Total<Hash>(map[]) == 0
  {
  }

  lemma PositionFreed(b: Book, d: Hash, v: Hash)
    requires Covered(b) && d in PositionsOf(b, v)
    ensures v in b.validators && 0 < PositionsOf(b, v)[d] <= b.validators[v].delegated
    ensures Funded(PositionsOf(b, v) - {d}, b.validators[v].delegated - PositionsOf(b, v)[d])
  {
    var held := PositionsOf(b, v);
    assert Funded(held, DelegatedTo(b.validators, v));
    PartOfTotal(held, d);
    TotalDrop(held, d);
  }

  lemma PositionGrows(b: Book, d: Hash, v: Hash, reward: u64)
    requires Covered(b) && v in b.validators && d in PositionsOf(b, v) && b.validators[v].delegated + reward < WORD
    ensures PositionsOf(b, v)[d] + reward < WORD
    ensures Funded(PositionsOf(b, v)[d := PositionsOf(b, v)[d] + reward], b.validators[v].delegated + reward)
  {
    hide Funded;
    PositionFreed(b, d, v);
    assert Funded(PositionsOf(b, v), DelegatedTo(b.validators, v));
    FundedGrows(PositionsOf(b, v), d, reward, b.validators[v].delegated);
  }

  lemma FundedGrows(held: map<Hash, u64>, d: Hash, reward: u64, delegated: int)
    requires Funded(held, delegated) && d in held && held[d] + reward < WORD
    ensures Funded(held[d := held[d] + reward], delegated + reward)
  {
    TotalPut(held, d, held[d] + reward);
  }

  lemma UndelegateConserves(b: Book, d: Hash, coin: Hash, v: Hash)
    requires Sound(b) && Undelegate(b, d, coin, v).1
    requires v in b.validators && b.validators[v].jailed ==> b.coinsTotal + PositionsOf(b, v)[d] < WORD
    ensures v in b.validators
    ensures var b' := Undelegate(b, d, coin, v).0;
            && (Gap(b') == Gap(b) <==> !b.validators[v].jailed)
            && (Gap(b') == Gap(b) ==> Sound(b'))
  {
    Parts(b);
    hide Bonded, Balances, Credit, Total, Covered, Funded;
    var amount := PositionsOf(b, v)[d];
    PositionFreed(b, d, v);
    CreditMoves(b, coin, amount);
    var was := b.validators[v];
    BondedPut(b.validators, v, was.(delegated := was.delegated - amount));
    CoveredAt(b, Undelegate(b, d, coin, v).0, v, PositionsOf(b, v) - {d});
  }

  /** The part of a validator's delegated total that no position accounts for. */
  ghost function Stranded(b: Book, v: Hash): int
  {
    DelegatedTo(b.validators, v) - Total(PositionsOf(b, v))
  }

  /** Delegating strands exactly the position it overwrites: the totals still agree if and
      only if the delegator held none with this validator. */
  lemma DelegateStrands(b: Book, d: Hash, coin: Hash, v: Hash, amount: u64, u: Hash)
    requires Sound(b) && Delegate(b, d, coin, v, amount).1
    ensures var b' := Delegate(b, d, coin, v, amount).0;
            && Stranded(b', u) == Stranded(b, u)
                 + (if u == v && d in PositionsOf(b, v) then PositionsOf(b, v)[d] else 0)
            && (Stranded(b', v) == Stranded(b, v) <==> d !in PositionsOf(b, v))
  {
    Parts(b);
    hide Bonded, Balances, Total, Covered;
    DebitMoves(b, coin, amount);
    assert b.validators[v].delegated + amount < WORD;
    CoveredBefore(b, v);
    TotalPut(PositionsOf(b, v), d, amount);
  }

  /** Undelegating gives back what the position holds and strands nothing. */
  lemma UndelegateStrands(b: Book, d: Hash, coin: Hash, v: Hash, u: Hash)
    requires Sound(b) && Undelegate(b, d, coin, v).1
    ensures Stranded(Undelegate(b, d, coin, v).0, u) == Stranded(b, u)
  {
    hide Bonded, Balances, Credit, Total, Covered, Funded;
    PositionFreed(b, d, v);
    TotalDrop(PositionsOf(b, v), d);
    CreditFrame(b, coin, PositionsOf(b, v)[d]);
  }

  lemma CreditFrame(b: Book, coin: Hash, amount: u64)
    requires Credit(b, coin, amount).Some?
    ensures var b' := Credit(b, coin, amount).value; b'.validators == b.validators && b'.positions == b.positions
  {
  }

  /** A delegator who adds four units to three can take back only the four. */
  lemma RedelegationLosesThree()
    ensures var v := Stake.Validator(1, 0, 0, false, ZERO_HASH);
            var b := Book(map[9 := Coin(10, 0)], 10, 10, map[1 := v], map[], map[], map[], 0);
            var once := Delegate(b, 5, 9, 1, 3).0;
            var twice := Delegate(once, 5, 9, 1, 4).0;
            Undelegate(twice, 5, 9, 1).0
            == b.(coins := map[9 := Coin(7, 0)], coinsTotal := 7, positions := map[1 := map[]],
                  validators := map[1 := v.(delegated := 3)])
  {
    var v := Stake.Validator(1, 0, 0, false, ZERO_HASH);
    var b := Book(map[9 := Coin(10, 0)], 10, 10, map[1 := v], map[], map[], map[], 0);
    var first, second: map<Hash, u64> := map[5 := 3], map[5 := 4];
    var once := b.(coins := map[9 := Coin(7, 0)], coinsTotal := 7, positions := map[1 := first],
                   validators := map[1 := v.(delegated := 3)]);
    var twice := b.(coins := map[9 := Coin(3, 0)], coinsTotal := 3, positions := map[1 := second],
                    validators := map[1 := v.(delegated := 7)]);
    assert Delegate(b, 5, 9, 1, 3).0 == once;
    assert first[5 := 4] == second;
    assert once.positions[1 := second] == twice.positions && once.coins[9 := Coin(3, 0)] == twice.coins;
    assert once.validators[1 := v.(delegated := 7)] == twice.validators;
    assert Delegate(once, 5, 9, 1, 4).0 == twice;
    assert second - {5} == map[];
  }

  /** The coin exists and covers the fee; a zero fee asks for no coin. */
  predicate Covers(b: Book, coin: Hash, fee: u64)
  {
    fee == 0 || (coin in b.coins && b.coins[coin].balance >= fee)
  }

  /** A fee leaves the coin for the pool and the withheld deposit. The burned share is
      dropped without lowering the supply, so a charge conserves exactly when there is
      none, or when the coin could not cover the fee. */
  lemma ChargeConserves(b: Book, coin: Hash, consumed: u64, storage: u64, burnBps: u64, epoch: nat)
    requires Sound(b) && consumed + storage < WORD && burnBps <= BPS_MAX
    ensures var (b', ok) := Charge(b, coin, consumed, storage, burnBps, epoch);
            && Sound(b') && b'.supply == b.supply
            && (ok <==> Covers(b, coin, consumed + storage))
            && (Gap(b') == Gap(b) <==> BurnedShare(consumed, burnBps) == 0 || !Covers(b, coin, consumed + storage))
  {
    WrappedShare(consumed, burnBps);
    Parts(b);
    hide Bonded, Balances, Total, Covered;
    if consumed + storage != 0 && coin in b.coins {
      DeductMoves(b, coin, consumed + storage);
      var (paid, taken, covered) := DeductFee(b, coin, consumed + storage).value;
      PoolMoves(paid, epoch, if covered then consumed - BurnedShare(consumed, burnBps) else taken);
      SameCover(b, Charge(b, coin, consumed, storage, burnBps, epoch).0);
    }
  }

  /** Ten units in one coin and nothing else: a validator without stake, jailed or not. */
  function TenUnits(jailed: bool): Book
  {
    Book(map[9 := Coin(10, 0)], 10, 10, map[1 := Stake.Validator(1, 0, 0, jailed, ZERO_HASH)], map[], map[], map[], 0)
  }

  lemma TenUnitsAreSound(jailed: bool)
    ensures Sound(TenUnits(jailed)) && Gap(TenUnits(jailed)) == 0
  {
    var b, none: map<Hash, int> := TenUnits(jailed), map[];
    EmptyTotal();
    TotalPut(none, 1, 0);
    assert Stakes(b.validators) == none[1 := 0];
    TotalPut(none, 9, 10);
    assert BalanceOf(b.coins) == none[9 := 10];
  }

  /** A jailed validator that bonds four units leaves the ledger short of the supply. */
  lemma JailedBondFallsShort()
    ensures var b := TenUnits(true);
            && Sound(b) && Bond(b, 1, 9, 4, 0).1
            && Gap(Bond(b, 1, 9, 4, 0).0) < Gap(b)
  {
    hide Sound, Gap;
    TenUnitsAreSound(true);
    BondConserves(TenUnits(true), 1, 9, 4, 0);
    NeverAbove(Bond(TenUnits(true), 1, 9, 4, 0).0);
  }

  /** Charging four units with half of them burned leaves the ledger short of the supply. */
  lemma BurnedChargeFallsShort()
    ensures var b := TenUnits(false);
            && Sound(b) && Charge(b, 9, 4, 0, 5000, 0).1
            && Gap(Charge(b, 9, 4, 0, 5000, 0).0) < Gap(b)
  {
    hide Sound, Gap, Charge;
    TenUnitsAreSound(false);
    assert BurnedShare(4, 5000) == 2;
    ChargeConserves(TenUnits(false), 9, 4, 0, 5000, 0);
    NeverAbove(Charge(TenUnits(false), 9, 4, 0, 5000, 0).0);
  }

  lemma NeverAbove(b: Book)
    requires Sound(b)
    ensures Gap(b) <= 0
  {
  }

  lemma PoolWithheldConserves(b: Book, epoch: nat)
    requires Sound(b)
    ensures Sound(PoolWithheld(b, epoch)) && Gap(PoolWithheld(b, epoch)) == Gap(b)
  {
    Parts(b);
    PoolMoves(b, epoch, b.withheld);
    hide Bonded, Balances, Total;
  }

  lemma LockConserves(b: Book, id: Hash, deposit: u64)
    requires Sound(b) && id !in b.deposits && deposit <= b.withheld
    ensures Sound(Lock(b, id, deposit)) && Gap(Lock(b, id, deposit)) == Gap(b)
  {
    TotalPut(b.deposits, id, deposit);
    hide Bonded, Balances, Total;
  }

  /** Deletion refunds to a coin and burns from the supply exactly what the deposit held,
      whatever the refund rate and whether or not the coin exists. */
  lemma DeletionConserves(b: Book, id: Hash, gasCoin: Option<Hash>, refundBps: u64)
    requires Sound(b) && refundBps <= BPS_MAX
    ensures var b' := SettleDeletion(b, id, gasCoin, refundBps).0;
            Sound(b') && Gap(b') == Gap(b) && b'.deposits == b.deposits - {id}
  {
    Parts(b);
    TotalDrop(b.deposits, id);
    var deposit := if id in b.deposits then b.deposits[id] else 0;
    var freed := b.(deposits := b.deposits - {id});
    if deposit != 0 && gasCoin.Some? && refundBps != 0 {
      CreditMoves(freed, gasCoin.value, Refund(deposit, refundBps));
    }
    hide Bonded, Balances, Total, Credit, Refund;
  }
}
