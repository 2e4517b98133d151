/** Rendezvous placement of objects on validators, and attestation quorums
    (internal/attest/rendezvous.go). */
module Rendezvous {
  import opened Common

  predicate Distinct(s: seq<Hash>)
  {
    forall i, j :: 0 <= i < j < |s| ==> s[i] != s[j]
  }

  /** The object's score of each validator tells them apart. */
  ghost predicate Separates(score: Hash -> nat, s: set<Hash>)
  {
    forall x, y :: x in s && y in s && x != y ==> score(x) != score(y)
  }

  predicate Descending(s: seq<Hash>, score: Hash -> nat)
  {
    forall i, j :: 0 <= i < j < |s| ==> score(s[i]) > score(s[j])
  }

  function Insert(s: seq<Hash>, x: Hash, score: Hash -> nat): (r: seq<Hash>)
    ensures Elements(r) == Elements(s) + {x} && |r| == |s| + 1
  {
    if s == [] || score(x) > score(s[0]) then
      assert Elements([x] + s) == Elements(s) + {x};
      [x] + s
    else
      var rest := Insert(s[1..], x, score);
      assert s == [s[0]] + s[1..];
      assert Elements([s[0]] + rest) == {s[0]} + Elements(rest);
      [s[0]] + rest
  }

  /** All validators, highest score first. */
  function Ranked(vs: seq<Hash>, score: Hash -> nat): (r: seq<Hash>)
    ensures Elements(r) == Elements(vs) && |r| == |vs|
  {
    if vs == [] then []
    else
      assert vs == [vs[0]] + vs[1..];
      Insert(Ranked(vs[1..], score), vs[0], score)
  }

  function Min(a: nat, b: nat): nat
  {
    if a < b then a else b
  }

  /** ComputeHolders: the best `replication` validators, none for a non-positive factor. */
  function Holders(vs: seq<Hash>, score: Hash -> nat, replication: int): seq<Hash>
  {
    if replication <= 0 then [] else Ranked(vs, score)[..Min(replication, |vs|)]
  }

  lemma {:induction false} InsertDescends(s: seq<Hash>, x: Hash, score: Hash -> nat)
    requires Descending(s, score) && forall y :: y in s ==> score(y) != score(x)
    ensures Descending(Insert(s, x, score), score)
  {
    if s != [] && score(x) < score(s[0]) {
      assert s[0] in s;
      InsertDescends(s[1..], x, score);
      var rest := Insert(s[1..], x, score);
      forall j | 0 <= j < |rest| ensures score(s[0]) > score(rest[j]) {
        assert rest[j] in Elements(rest);
        assert rest[j] in Elements(s[1..]) + {x};
      }
    } else if s != [] {
      assert s[0] in s;
    }
  }

  lemma {:induction false} RankedDescends(vs: seq<Hash>, score: Hash -> nat)
    requires Distinct(vs) && Separates(score, Elements(vs))
    ensures Descending(Ranked(vs, score), score)
  {
    if vs != [] {
      assert vs == [vs[0]] + vs[1..];
      assert vs[0] in Elements(vs);
      RankedDescends(vs[1..], score);
      forall y | y in Ranked(vs[1..], score) ensures score(y) != score(vs[0]) {
        assert y in Elements(vs[1..]);
        assert y in vs[1..] && y in Elements(vs);
        var k :| 0 <= k < |vs[1..]| && vs[1..][k] == y;
        assert vs[k + 1] == y && vs[0] != vs[k + 1];
      }
      InsertDescends(Ranked(vs[1..], score), vs[0], score);
    }
  }

  /** There is one descending listing of a set. */
  lemma {:induction false} DescendingUnique(a: seq<Hash>, b: seq<Hash>, score: Hash -> nat)
    requires Descending(a, score) && Descending(b, score) && Elements(a) == Elements(b)
    ensures a == b
  {
    if a == [] {
      NonEmptyElements(b);
    } else {
      assert a[0] in Elements(b);
      assert b != [] && b[0] in Elements(a);
      assert a[0] == b[0];
      forall x ensures x in Elements(a[1..]) <==> x in Elements(b[1..]) {
        assert x in Elements(a) <==> x in Elements(b);
        assert x in a[1..] <==> x in a && x != a[0];
        assert x in b[1..] <==> x in b && x != b[0];
      }
      DescendingUnique(a[1..], b[1..], score);
    }
  }

  lemma {:induction false} DescendingIsDistinct(s: seq<Hash>, score: Hash -> nat)
    requires Descending(s, score)
    ensures Distinct(s)
  {
  }

  /** Holders are distinct validators, as many as asked for and available, and each of them
      outscores every validator left out. */
  lemma HoldersAreBest(vs: seq<Hash>, score: Hash -> nat, k: int, x: Hash)
    requires Distinct(vs) && Separates(score, Elements(vs)) && x in vs
    ensures Distinct(Holders(vs, score, k)) && Elements(Holders(vs, score, k)) <= Elements(vs)
    ensures |Holders(vs, score, k)| == if k <= 0 then 0 else Min(k, |vs|)
    ensures x !in Holders(vs, score, k) ==> forall h :: h in Holders(vs, score, k) ==> score(h) > score(x)
  {
    RankedDescends(vs, score);
    var r := Ranked(vs, score);
    DescendingIsDistinct(r, score);
    assert x in Elements(r);
    var i :| 0 <= i < |r| && r[i] == x;
    forall h | h in Holders(vs, score, k) ensures h in Elements(vs) {
      assert h in Elements(r);
    }
  }

  /** Nodes that list the validators in different orders place an object alike. */
  lemma PlacementIgnoresOrder(a: seq<Hash>, b: seq<Hash>, score: Hash -> nat, k: int)
    requires Distinct(a) && Distinct(b) && Elements(a) == Elements(b) && Separates(score, Elements(a))
    ensures Holders(a, score, k) == Holders(b, score, k)
  {
    RankedDescends(a, score);
    RankedDescends(b, score);
    DescendingUnique(Ranked(a, score), Ranked(b, score), score);
  }

  /** One more replica only adds a holder at the end. */
  lemma MoreReplicasExtend(vs: seq<Hash>, score: Hash -> nat, k: int)
    ensures Holders(vs, score, k) <= Holders(vs, score, k + 1)
  {
  }

  function Without(s: seq<Hash>, x: Hash): seq<Hash>
  {
    if s == [] then []
    else if s[0] == x then Without(s[1..], x)
    else [s[0]] + Without(s[1..], x)
  }

  lemma {:induction false} WithoutElements(s: seq<Hash>, x: Hash)
    ensures Elements(Without(s, x)) == Elements(s) - {x}
  {
    if s != [] {
      assert s == [s[0]] + s[1..];
      WithoutElements(s[1..], x);
      var rest := Without(s[1..], x);
      assert Elements(s) == {s[0]} + Elements(s[1..]);
      if s[0] != x { assert Elements([s[0]] + rest) == {s[0]} + Elements(rest); }
    }
  }

  lemma {:induction false} WithoutDescends(s: seq<Hash>, x: Hash, score: Hash -> nat)
    requires Descending(s, score)
    ensures Descending(Without(s, x), score)
  {
    if s != [] {
      WithoutDescends(s[1..], x, score);
      WithoutElements(s[1..], x);
      var rest := Without(s[1..], x);
      forall j | 0 <= j < |rest| ensures score(s[0]) > score(rest[j]) {
        assert rest[j] in Elements(rest);
        var i :| 0 <= i < |s[1..]| && s[1..][i] == rest[j];
      }
    }
  }

  lemma {:induction false} WithoutAt(s: seq<Hash>, x: Hash, i: nat)
    requires Distinct(s) && i < |s| && s[i] == x
    ensures Without(s, x) == s[..i] + s[i + 1..]
  {
    if i == 0 {
      WithoutAbsent(s[1..], x);
    } else {
      WithoutAt(s[1..], x, i - 1);
      assert s[1..][..i - 1] == s[1..i];
    }
  }

  lemma {:induction false} WithoutAbsent(s: seq<Hash>, x: Hash)
    requires x !in s
    ensures Without(s, x) == s
  {
    if s != [] { WithoutAbsent(s[1..], x); }
  }

  /** Ranking commutes with a departure. */
  lemma RankedWithout(vs: seq<Hash>, ws: seq<Hash>, score: Hash -> nat, x: Hash)
    requires Distinct(vs) && Distinct(ws) && Separates(score, Elements(vs)) && Elements(ws) == Elements(vs) - {x}
    ensures Ranked(ws, score) == Without(Ranked(vs, score), x)
  {
    RankedDescends(vs, score);
    RankedDescends(ws, score);
    WithoutDescends(Ranked(vs, score), x, score);
    WithoutElements(Ranked(vs, score), x);
    DescendingUnique(Ranked(ws, score), Without(Ranked(vs, score), x), score);
  }

  /** Minimal disruption: when a validator leaves, an object it did not hold keeps its
      holders, and one it did hold replaces that holder alone, by the next in rank. */
  lemma DepartureMovesOne(vs: seq<Hash>, ws: seq<Hash>, score: Hash -> nat, x: Hash, k: nat)
    requires Distinct(vs) && Distinct(ws) && Separates(score, Elements(vs))
    requires x in vs && Elements(ws) == Elements(vs) - {x} && 0 < k
    ensures x !in Holders(vs, score, k) ==> Holders(ws, score, k) == Holders(vs, score, k)
    ensures x in Holders(vs, score, k) ==> Holders(ws, score, k) == Without(Holders(vs, score, k + 1), x)
  {
    hide Ranked, Without, Descending, Elements, Distinct, Separates;
    var r := Ranked(vs, score);
    var i := Position(vs, score, x);
    RankedWithout(vs, ws, score, x);
    WithoutAt(r, x, i);
    TakeWithout(r, i, k);
    FrontHas(r, i, Min(k, |vs|));
    if i < k {
      DistinctFront(r, Min(k + 1, |vs|));
      WithoutAt(r[..Min(k + 1, |vs|)], x, i);
    }
  }

  lemma Position(vs: seq<Hash>, score: Hash -> nat, x: Hash) returns (i: nat)
    requires Distinct(vs) && Separates(score, Elements(vs)) && x in vs
    ensures i < |Ranked(vs, score)| && Ranked(vs, score)[i] == x && Distinct(Ranked(vs, score))
  {
    RankedDescends(vs, score);
    DescendingIsDistinct(Ranked(vs, score), score);
    assert x in Elements(Ranked(vs, score));
    i :| 0 <= i < |Ranked(vs, score)| && Ranked(vs, score)[i] == x;
  }

  lemma FrontHas(r: seq<Hash>, i: nat, m: nat)
    requires Distinct(r) && i < |r| && m <= |r|
    ensures r[i] in r[..m] <==> i < m
  {
    if i < m { assert r[..m][i] == r[i]; }
  }

  lemma DistinctFront(r: seq<Hash>, m: nat)
    requires Distinct(r) && m <= |r|
    ensures Distinct(r[..m])
  {
  }

  /** The front of a list with one position cut out. */
  lemma TakeWithout(r: seq<Hash>, i: nat, k: nat)
    requires i < |r|
    ensures var w := r[..i] + r[i + 1..];
            var m := Min(k + 1, |r|);
            w[..Min(k, |w|)] == if i < k then r[..m][..i] + r[..m][i + 1..] else r[..Min(k, |r|)]
  {
  }

  // ---- Quorums --------------------------------------------------------------------------

  function QuorumSize(replication: nat): nat
  {
    (replication * 67 + 99) / 100
  }

  /** The quorum is the least number of holders that is at least 67 percent of them. */
  lemma QuorumIsLeast(replication: nat)
    ensures 100 * QuorumSize(replication) >= 67 * replication
    ensures replication > 0 ==> 100 * (QuorumSize(replication) - 1) < 67 * replication
  {
  }

  lemma {:induction false} UnionSize(a: set<Hash>, b: set<Hash>)
    ensures |a + b| + |a * b| == |a| + |b|
  {
    if a != {} {
      var x :| x in a;
      UnionSize(a - {x}, b);
      if x in b {
        assert a + b == (a - {x}) + b && a * b == (a - {x}) * b + {x};
      } else {
        assert a + b == (a - {x}) + b + {x} && a * b == (a - {x}) * b;
      }
    }
  }

  /** Any two attestation quorums of one holder list share more than a third of it, and a
      quorum is never more than the list. */
  lemma QuorumsIntersect(holders: set<Hash>, a: set<Hash>, b: set<Hash>)
    requires a <= holders && b <= holders && |holders| > 0
    requires |a| >= QuorumSize(|holders|) && |b| >= QuorumSize(|holders|)
    ensures 3 * |a * b| > |holders| && QuorumSize(|holders|) <= |holders|
  {
    UnionSize(a, b);
    SubsetSize(a + b, holders);
  }

  // ---- In place -------------------------------------------------------------------------

  datatype Scored = Scored(pubkey: Hash, score: nat)

  predicate NonAscending(s: seq<Scored>)
  {
    forall i, j :: 0 <= i < j < |s| ==> s[i].score >= s[j].score
  }

  /** The first `n` are in their final places. */
  predicate SettledTo(s: seq<Scored>, n: nat)
  {
    forall i, j :: 0 <= i < n && i < j < |s| ==> s[i].score >= s[j].score
  }

  method BestFrom(a: array<Scored>, from: nat) returns (best: nat)
    requires from < a.Length
    ensures from <= best < a.Length && forall k :: from <= k < a.Length ==> a[best].score >= a[k].score
  {
    best := from;
    for j := from + 1 to a.Length
      invariant from <= best < a.Length && forall k :: from <= k < j ==> a[best].score >= a[k].score
    {
      if a[j].score > a[best].score { best := j; }
    }
  }

  function Swapped(s: seq<Scored>, i: nat, k: nat): (r: seq<Scored>)
    requires i < |s| && k < |s|
    ensures multiset(r) == multiset(s)
  {
    s[i := s[k]][k := s[i]]
  }

  lemma SwapSettles(s: seq<Scored>, i: nat, best: nat)
    requires i <= best < |s| && SettledTo(s, i) && forall k :: i <= k < |s| ==> s[best].score >= s[k].score
    ensures SettledTo(Swapped(s, i, best), i + 1)
  {
  }

  /** sort.Slice by score, highest first: which of two equal scores comes first is open. */
  method SortByScore(a: array<Scored>)
    modifies a
    ensures NonAscending(a[..]) && multiset(a[..]) == multiset(old(a[..]))
  {
    hide SettledTo, NonAscending;
    assert SettledTo(a[..], 0) by { NothingSettled(a[..]); }
    for i := 0 to a.Length
      invariant SettledTo(a[..], i) && multiset(a[..]) == multiset(old(a[..]))
    {
      var best := BestFrom(a, i);
      ghost var was := a[..];
      SwapSettles(was, i, best);
      a[i], a[best] := a[best], a[i];
      assert a[..] == Swapped(was, i, best);
    }
    AllSettled(a[..]);
  }

  lemma NothingSettled(s: seq<Scored>)
    ensures SettledTo(s, 0)
  {
  }

  lemma AllSettled(s: seq<Scored>)
    requires SettledTo(s, |s|)
    ensures NonAscending(s)
  {
  }

  function ScoreAll(vs: seq<Hash>, score: Hash -> nat): seq<Scored>
  {
    seq(|vs|, i requires 0 <= i < |vs| => Scored(vs[i], score(vs[i])))
  }

  function Pubkeys(s: seq<Scored>): seq<Hash>
  {
    seq(|s|, i requires 0 <= i < |s| => s[i].pubkey)
  }

  lemma {:induction false} PubkeysOf(s: seq<Scored>, vs: seq<Hash>, score: Hash -> nat)
    requires multiset(s) == multiset(ScoreAll(vs, score))
    ensures |s| == |vs| && Elements(Pubkeys(s)) == Elements(vs)
    ensures forall i :: 0 <= i < |s| ==> s[i].score == score(s[i].pubkey)
  {
    var all := ScoreAll(vs, score);
    assert |s| == |multiset(s)| == |multiset(all)| == |vs|;
    forall i | 0 <= i < |s| ensures s[i].score == score(s[i].pubkey) && Pubkeys(s)[i] in Elements(vs) {
      assert s[i] in multiset(all);
      var j :| 0 <= j < |all| && all[j] == s[i];
      assert vs[j] in vs;
    }
    forall v | v in Elements(vs) ensures v in Elements(Pubkeys(s)) {
      var j :| 0 <= j < |vs| && vs[j] == v;
      assert all[j] in multiset(s);
      var i :| 0 <= i < |s| && s[i] == all[j];
      assert Pubkeys(s)[i] == v;
    }
  }

  lemma {:induction false} SizeOfDistinct(s: seq<Hash>)
    ensures |Elements(s)| <= |s| && (Distinct(s) <==> |Elements(s)| == |s|)
  {
    if s != [] {
      var n := |s| - 1;
      assert s == s[..n] + [s[n]];
      SizeOfDistinct(s[..n]);
      assert Elements(s) == Elements(s[..n]) + {s[n]};
      if s[n] in s[..n] {
        assert Elements(s) == Elements(s[..n]);
        var i :| 0 <= i < n && s[..n][i] == s[n];
        assert s[i] == s[n];
      } else {
        assert forall i :: 0 <= i < n ==> s[..n][i] == s[i];
        assert forall i :: 0 <= i < n ==> s[i] in s[..n];
      }
    }
  }

  /** Any way of sorting the scored validators ends in their ranking. */
  lemma SortedIsRanked(s: seq<Scored>, vs: seq<Hash>, score: Hash -> nat)
    requires Distinct(vs) && Separates(score, Elements(vs))
    requires NonAscending(s) && multiset(s) == multiset(ScoreAll(vs, score))
    ensures Pubkeys(s) == Ranked(vs, score)
  {
    hide Ranked, Elements;
    PubkeysOf(s, vs, score);
    SizeOfDistinct(vs);
    SizeOfDistinct(Pubkeys(s));
    SortedDescends(s, vs, score);
    RankedDescends(vs, score);
    DescendingUnique(Pubkeys(s), Ranked(vs, score), score);
  }

  lemma SortedDescends(s: seq<Scored>, vs: seq<Hash>, score: Hash -> nat)
    requires Separates(score, Elements(vs)) && NonAscending(s) && Distinct(Pubkeys(s))
    requires Elements(Pubkeys(s)) == Elements(vs) && forall i :: 0 <= i < |s| ==> s[i].score == score(s[i].pubkey)
    ensures Descending(Pubkeys(s), score)
  {
    var ks := Pubkeys(s);
    forall i, j | 0 <= i < j < |ks| ensures score(ks[i]) > score(ks[j]) {
      assert ks[i] in Elements(ks) && ks[j] in Elements(ks);
      assert s[i].score >= s[j].score;
    }
  }

  /** ComputeHolders as it runs: score everyone into an array, sort it in place, keep the
      front. However ties fall the result is the front of a sorted listing, and without ties
      it is the one that ranking gives. */
  method ComputeHolders(vs: seq<Hash>, score: Hash -> nat, replication: int) returns (result: seq<Hash>)
    ensures |result| == if replication <= 0 then 0 else Min(replication, |vs|)
    ensures replication > 0 ==>
              exists s :: NonAscending(s) && multiset(s) == multiset(ScoreAll(vs, score)) && result <= Pubkeys(s)
    ensures Distinct(vs) && Separates(score, Elements(vs)) ==> result == Holders(vs, score, replication)
  {
    hide Ranked, Separates, Distinct, NonAscending, Elements;
    if replication <= 0 { return []; }
    var keep := if replication > |vs| then |vs| else replication;
    var scored := new Scored[|vs|];
    for i := 0 to |vs|
      invariant scored[..i] == ScoreAll(vs, score)[..i]
    {
      scored[i] := Scored(vs[i], score(vs[i]));
    }
    assert scored[..] == ScoreAll(vs, score);
    SortByScore(scored);
    ghost var s := scored[..];
    PubkeysOf(s, vs, score);
    if Distinct(vs) && Separates(score, Elements(vs)) { SortedIsRanked(s, vs, score); }
    result := [];
    for i := 0 to keep
      invariant scored[..] == s && result == Pubkeys(s)[..i]
    {
      result := result + [scored[i].pubkey];
    }
  }
}
