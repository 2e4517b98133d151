/** What delegators' positions leave unaccounted in the delegated totals, over every run of
    the ledger (internal/consensus/commit.go, epoch.go). */
module Positions {
  import opened Common
  import opened Sums
  import opened Ledger
  import opened Rewards
  import opened Settlement

  /** No validator's delegated total moved away from the positions behind it. */
  ghost predicate SameStranded(b: Book, b': Book)
  {
    forall u :: Stranded(b', u) == Stranded(b, u)
  }

  // ---- Settlement strands nothing ---------------------------------------------------------

  /** A reward compounds into position and total alike. */
  lemma CompoundStrands(b: Book, d: Hash, v: Hash, reward: u64)
    requires Ready(b) && v in b.validators && !b.validators[v].jailed
    requires Paid(b) + reward < WORD && Compound(b, d, v, reward).Some?
    ensures SameStranded(b, Compound(b, d, v, reward).value)
  {
    Parts(b);
    hide Bonded, Balances, Covered, Funded, Total;
    var was, held := b.validators[v], PositionsOf(b, v);
    assert was.delegated + reward < WORD;
    PositionGrows(b, d, v, reward);
    var b' := Compound(b, d, v, reward).value;
    assert WrapAdd(was.delegated, reward) == was.delegated + reward;
    assert PositionsOf(b', v) == held[d := held[d] + reward];
    PositionPut(held, d, held[d] + reward);
    assert DelegatedTo(b'.validators, v) == was.delegated + reward;
    assert Stranded(b', v) == Stranded(b, v);
    forall u | u != v ensures Stranded(b', u) == Stranded(b, u) {
      assert PositionsOf(b', u) == PositionsOf(b, u);
    }
  }

  lemma PositionPut(held: map<Hash, u64>, d: Hash, amount: u64)
    requires d in held
    ensures Total(held[d := amount]) == Total(held) - held[d] + amount
  {
    TotalPut(held, d, amount);
  }

  lemma {:induction false} DelegatorsStrand(b: Book, v: Hash, payouts: seq<Payout>)
    requires Ready(b) && v in b.validators && !b.validators[v].jailed
    requires Paid(b) >= 0 && Paid(b) + Sum(Amounts(payouts)) < WORD
    requires forall i :: 0 <= i < |payouts| ==> payouts[i].0 in PositionsOf(b, v)
    ensures SameStranded(b, CreditDelegators(b, v, payouts).0)
    decreases |payouts|
  {
    hide Ready, Paid, Compound, PositionsOf, Stranded;
    if payouts != [] {
      var n := |payouts| - 1;
      SumIsClamped(payouts[..n]);
      assert Amounts(payouts)[..n] == Amounts(payouts[..n]);
      DelegatorsPaid(b, v, payouts[..n]);
      DelegatorsStrand(b, v, payouts[..n]);
      var (paid, credited) := CreditDelegators(b, v, payouts[..n]);
      CreditsFacts(b, paid, credited);
      if Compound(paid, payouts[n].0, v, payouts[n].1).Some? {
        CompoundStrands(paid, payouts[n].0, v, payouts[n].1);
      }
    }
  }

  /** A book that keeps every delegated total and every position strands nothing. */
  lemma Untouched(b: Book, b': Book)
    requires b'.positions == b.positions
    requires forall u :: DelegatedTo(b'.validators, u) == DelegatedTo(b.validators, u)
    ensures SameStranded(b, b')
  {
  }

  lemma SelfStakeStrands(b: Book, v: Hash, stake: u64)
    ensures SameStranded(b, SetSelf(b, v, stake))
  {
    Untouched(b, SetSelf(b, v, stake));
  }

  lemma CoinStrands(b: Book, coin: Hash, amount: u64)
    requires Credit(b, coin, amount).Some?
    ensures SameStranded(b, Credit(b, coin, amount).value)
  {
    Untouched(b, Credit(b, coin, amount).value);
  }

  lemma ValidatorStrands(b: Book, key: Hash, was: Validator, amount: u64, restakeMille: u64)
    requires restakeMille <= MILLE_MAX
    ensures SameStranded(b, CreditValidator(b, key, was, amount, restakeMille).0)
  {
    hide SetSelf, Credit, Stranded, Share;
    ShareBound(amount, restakeMille, MILLE_MAX);
    var restake := Share(amount, restakeMille, MILLE_MAX);
    SelfStakeStrands(b, key, SafeAdd(was.selfStake, amount));
    SelfStakeStrands(b, key, SafeAdd(was.selfStake, restake));
    var staked := if restake > 0 then SetSelf(b, key, SafeAdd(was.selfStake, restake)) else b;
    if Credit(staked, was.rewardCoin, amount - restake).Some? {
      CoinStrands(staked, was.rewardCoin, amount - restake);
    }
  }

  lemma ShareStrands(b: Book, key: Hash, was: Validator, share: u64, s: Schedule)
    requires Ready(b) && Governed(s) && key in b.validators && was == b.validators[key]
    requires Lists(PositionsOf(b, key), Listed(s, key)) && (was.jailed ==> share == 0)
    requires Paid(b) >= 0 && Paid(b) + share < WORD
    ensures Listed(s, key) != [] ==> SumDelegations(Listed(s, key)) > 0
    ensures SameStranded(b, CreditShare(b, key, was, share, s).0)
  {
    hide Lists, Ready, Paid, CreditDelegators, CreditValidator, SplitReward, Sum, Amounts, SumDelegations, Stranded;
    assert Covered(b) by { ReadyIsCovered(b); }
    ListingFits(b, key, Listed(s, key));
    SplitConserves(share, was.selfStake, s.commissionBps, Listed(s, key));
    var (own, payouts) := SplitReward(share, was.selfStake, s.commissionBps, Listed(s, key));
    PayoutsHeld(PositionsOf(b, key), Listed(s, key), payouts);
    if was.jailed { NothingToPay(b, key, payouts); } else { DelegatorsStrand(b, key, payouts); }
    ValidatorStrands(CreditDelegators(b, key, payouts).0, key, was, own, s.restakeMille);
  }

  lemma {:induction false} SharesStrand(b: Book, seats: Seats, pool: u64, total: u64, s: Schedule)
    requires Ready(b) && SeatsOf(b, seats) && Listing(b, s) && Payable(seats, s) && total > 0
    requires Paid(b) >= 0 && Paid(b) + Sum(Shares(seats, pool, total, s.produced)) < WORD
    requires forall i :: 0 <= i < |seats| ==> Sum(Shares(seats[..i], pool, total, s.produced)) >= 0
    ensures SameStranded(b, CreditShares(b, seats, pool, total, s).0)
    decreases |seats|
  {
    hide Ready, Paid, Lists, Credits, Spares, Share, RewardWeight, Sum, Shares, CreditShare, Keys, Listed,
      SumDelegations, Stranded;
    if seats != [] {
      var n := |seats| - 1;
      SharesPrefix(seats, n, pool, total, s.produced);
      SharesPaid(b, seats[..n], pool, total, s);
      SharesStrand(b, seats[..n], pool, total, s);
      var (p, distributed) := CreditShares(b, seats[..n], pool, total, s);
      var (key, was) := seats[n];
      var share := Share(pool, RewardWeight(key, was, s.produced), total);
      if was.jailed { JailedHasNoShare(key, was, pool, total, s.produced); }
      NotYet(seats);
      CreditsFacts(b, p, distributed);
      SparedAt(b, p, Keys(seats[..n]), key);
      ShareStrands(p, key, was, share, s);
    }
  }

  lemma RemainderStrands(b: Book, top: Hash, remainder: u64)
    ensures SameStranded(b, CreditRemainder(b, top, remainder).0)
  {
    hide Stranded, Credit;
    if top in b.validators && Credit(b, b.validators[top].rewardCoin, remainder).Some? {
      CoinStrands(b, b.validators[top].rewardCoin, remainder);
    }
  }

  lemma DistributionStrands(b: Book, epoch: nat, issuance: u64, seats: Seats, s: Schedule)
    requires Ready(b) && SeatsOf(b, seats) && Listing(b, s) && Payable(seats, s)
    requires PoolSuffices(seats, SafeAdd(Bucket(b.fees, epoch), issuance), s.produced)
    requires Paid(b) >= 0 && Paid(b) + Bucket(b.fees, epoch) + issuance < WORD
    ensures SameStranded(b, Distribute(b, epoch, issuance, seats, s).0)
  {
    hide Ready, Paid, CreditShares, CreditRemainder, Listing, SeatsOf, Payable, Sum, Weights, Top, TotalWeight,
      PoolSuffices, Stranded;
    var pool := SafeAdd(Bucket(b.fees, epoch), issuance);
    var total := TotalWeight(seats, s.produced);
    if pool != 0 && total != 0 {
      SharesFitPoolIff(seats, pool, s.produced);
      PrefixShares(seats, pool, total, s.produced);
      SharesStrand(b, seats, pool, total, s);
      var (paid, distributed) := CreditShares(b, seats, pool, total, s);
      RemainderStrands(paid, Top(seats, s.produced).0, WrapSub(pool, distributed));
    }
  }

  lemma SettleStrands(b: Book, current: nat, rate: u64, p: Thermostat, seats: Seats, s: Schedule)
    requires Sound(b) && SeatsOf(b, seats) && Listing(b, s) && Payable(seats, s)
    requires current > 0 ==> PoolSuffices(seats, SettledPool(b, current, rate, p, seats, s), s.produced)
    requires b.supply + Minted(b, rate, p, seats, s).1 < WORD
    ensures SameStranded(b, Settle(b, current, rate, p, seats, s).0)
  {
    Parts(b);
    hide Bonded, Balances, Covered, Distribute, Payable, Total, PoolSuffices, Minted, Listing, SeatsOf;
    if current > 0 {
      var issuance := Minted(b, rate, p, seats, s).1;
      var minted := b.(supply := b.supply + issuance);
      SameListing(b, minted, seats, s);
      DistributionStrands(minted, current - 1, issuance, seats, s);
      Untouched(b, minted);
      Untouched(Distribute(minted, current - 1, issuance, seats, s).0, Settle(b, current, rate, p, seats, s).0);
      hide Stranded;
    }
  }

  // ---- Nor does a departure -----------------------------------------------------------------

  lemma DepartStrands(b: Book, key: Hash)
    requires Depart(b, key).Some?
    ensures SameStranded(b, Depart(b, key).value)
  {
    hide Credit;
    var principal := ReleasedSelfStake(b, key);
    if principal != 0 { CreditFrame(b, b.validators[key].rewardCoin, principal); }
    Untouched(b, Depart(b, key).value);
  }

  lemma {:induction false} RemovalsStrand(b: Book, pending: seq<Hash>, maxChurn: nat)
    ensures SameStranded(b, ApplyRemovals(b, pending, maxChurn).0)
    decreases |pending|
  {
    hide Depart, Stranded;
    if pending != [] {
      var n := |pending| - 1;
      RemovalsStrand(b, pending[..n], maxChurn);
      var before := ApplyRemovals(b, pending[..n], maxChurn).0;
      if Depart(before, pending[n]).Some? { DepartStrands(before, pending[n]); }
    }
  }

  // ---- Over every run ---------------------------------------------------------------------------

  /** The flow delegates to `v` where the delegator already holds a position. */
  predicate DelegatesOnto(b: Book, f: Flow, v: Hash)
  {
    && f.Delegating? && f.validator == v && f.delegator in PositionsOf(b, v)
    && Delegate(b, f.delegator, f.coin, v, f.amount).1
  }

  /** The position with `v` that a flow overwrites, zero if it overwrites none. */
  function Overwritten(b: Book, f: Flow, v: Hash): u64
  {
    if DelegatesOnto(b, f, v) then PositionsOf(b, v)[f.delegator] else 0
  }

  lemma BondStrands(b: Book, sender: Hash, coin: Hash, amount: u64, minStake: u64)
    ensures SameStranded(b, Bond(b, sender, coin, amount, minStake).0)
    ensures SameStranded(b, Unbond(b, sender, coin, amount, minStake).0)
  {
    Untouched(b, Bond(b, sender, coin, amount, minStake).0);
    Untouched(b, Unbond(b, sender, coin, amount, minStake).0);
  }

  lemma FeesStrand(b: Book, f: Flow)
    requires Admissible(b, f) && (f.Charging? || f.Pooling? || f.Locking? || f.Deleting?)
    ensures SameStranded(b, After(b, f))
  {
    hide BurnedShare, Refund;
    Untouched(b, After(b, f));
  }

  /** A flow strands exactly the position it overwrites. */
  lemma FlowStrands(b: Book, f: Flow, v: Hash)
    requires Sound(b) && Admissible(b, f)
    ensures Stranded(After(b, f), v) == Stranded(b, v) + Overwritten(b, f, v)
  {
    hide Sound, SeatsOf, Listing, Payable, Settle, ApplyRemovals, Charge, SettleDeletion, Minted, Stranded, Bond,
      Unbond, Delegate, Undelegate;
    match f
    case Bonding(sender, coin, amount, minStake) => BondStrands(b, sender, coin, amount, minStake);
    case Unbonding(sender, coin, amount, minStake) => BondStrands(b, sender, coin, amount, minStake);
    case Delegating(d, coin, u, amount) =>
      if Delegate(b, d, coin, u, amount).1 { DelegateStrands(b, d, coin, u, amount, v); }
      else { RefusedDelegation(b, d, coin, u, amount); }
    case Undelegating(d, coin, u) =>
      if Undelegate(b, d, coin, u).1 { UndelegateStrands(b, d, coin, u, v); }
      else { RefusedUndelegation(b, d, coin, u); }
    case Settling(epoch, rate, p, seats, s) => SettleStrands(b, epoch, rate, p, seats, s);
    case Removing(pending, maxChurn) => RemovalsStrand(b, pending, maxChurn);
    case _ => FeesStrand(b, f);
  }

  lemma RefusedDelegation(b: Book, d: Hash, coin: Hash, v: Hash, amount: u64)
    ensures !Delegate(b, d, coin, v, amount).1 ==> Delegate(b, d, coin, v, amount).0 == b
  {
  }

  lemma RefusedUndelegation(b: Book, d: Hash, coin: Hash, v: Hash)
    ensures !Undelegate(b, d, coin, v).1 ==> Undelegate(b, d, coin, v).0 == b
  {
  }

  /** What the first `i` flows of a run overwrote with `v`. */
  function Lost(books: seq<Book>, flows: seq<Flow>, v: Hash, i: nat): nat
    requires |books| == |flows| + 1 && i < |books|
  {
    if i == 0 then 0 else Lost(books, flows, v, i - 1) + Overwritten(books[i - 1], flows[i - 1], v)
  }

  /** Over every run: the part of a delegated total that no position accounts for grows by
      exactly the positions overwritten, so it is unchanged exactly when nobody delegated
      onto a position already held. */
  lemma StrandedOverRuns(books: seq<Book>, flows: seq<Flow>, v: Hash, i: nat)
    requires |books| == |flows| + 1 && i < |books| && Sound(books[0])
    requires forall j :: 0 <= j < |books| ==> NoneJailed(books[j])
    requires forall j :: 0 <= j < |flows| ==>
              Admissible(books[j], flows[j]) && books[j + 1] == After(books[j], flows[j])
    ensures Stranded(books[i], v) == Stranded(books[0], v) + Lost(books, flows, v, i)
    ensures Stranded(books[i], v) == Stranded(books[0], v) <==>
              forall j :: 0 <= j < i ==> !DelegatesOnto(books[j], flows[j], v)
  {
    hide Sound, NoneJailed, Admissible, After, Stranded, Overwritten, DelegatesOnto;
    StrandedGrows(books, flows, v, i);
    LostNothingIff(books, flows, v, i);
    forall j | 0 <= j < i ensures Overwritten(books[j], flows[j], v) == 0 <==> !DelegatesOnto(books[j], flows[j], v) {
      SupplyIsConserved(books, flows, j);
      OverwritesIff(books[j], flows[j], v);
    }
  }

  lemma {:induction false} StrandedGrows(books: seq<Book>, flows: seq<Flow>, v: Hash, i: nat)
    requires |books| == |flows| + 1 && i < |books| && Sound(books[0])
    requires forall j :: 0 <= j < |books| ==> NoneJailed(books[j])
    requires forall j :: 0 <= j < |flows| ==>
              Admissible(books[j], flows[j]) && books[j + 1] == After(books[j], flows[j])
    ensures Stranded(books[i], v) == Stranded(books[0], v) + Lost(books, flows, v, i)
  {
    hide Sound, NoneJailed, Admissible, After, Stranded, Overwritten;
    if i > 0 {
      StrandedGrows(books, flows, v, i - 1);
      SupplyIsConserved(books, flows, i - 1);
      FlowStrands(books[i - 1], flows[i - 1], v);
      assert books[i - 1 + 1] == After(books[i - 1], flows[i - 1]);
    }
  }

  lemma {:induction false} LostNothingIff(books: seq<Book>, flows: seq<Flow>, v: Hash, i: nat)
    requires |books| == |flows| + 1 && i < |books|
    ensures Lost(books, flows, v, i) == 0 <==> forall j :: 0 <= j < i ==> Overwritten(books[j], flows[j], v) == 0
  {
    hide Overwritten;
    if i > 0 { LostNothingIff(books, flows, v, i - 1); }
  }

  /** A position is positive, so overwriting nothing is delegating onto none. */
  lemma OverwritesIff(b: Book, f: Flow, v: Hash)
    requires Sound(b)
    ensures Overwritten(b, f, v) == 0 <==> !DelegatesOnto(b, f, v)
  {
    hide Delegate;
    CoveredBefore(b, v);
  }
}
