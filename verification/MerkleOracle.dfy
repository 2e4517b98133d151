/** The from-scratch computation over a sorted entry list (smt_oracle.go), which splits
    the list where a bit flips. */
module MerkleOracle {
  import opened Merkle

  datatype Entry<+V> = Entry(key: Position, value: V)

  /** Byte order of two positions: the first differing bit decides. */
  ghost predicate Precedes(a: Position, b: Position)
  {
    exists i :: 0 <= i < DEPTH && a[..i] == b[..i] && !a[i] && b[i]
  }

  ghost predicate Sorted<V>(es: seq<Entry<V>>)
  {
    forall i, j :: 0 <= i < j < |es| ==> Precedes(es[i].key, es[j].key)
  }

  ghost function EntriesOf<V>(es: seq<Entry<V>>): Entries<V>
  {
    if es == [] then map[] else EntriesOf(es[..|es| - 1])[es[|es| - 1].key := es[|es| - 1].value]
  }

  /** First index whose bit is set: the contract of the standard binary search. */
  function SplitOnBit<V>(es: seq<Entry<V>>, depth: nat): (mid: nat)
    requires depth < DEPTH
    ensures mid <= |es| && (forall i :: 0 <= i < mid ==> !es[i].key[depth]) && (mid < |es| ==> es[mid].key[depth])
  {
    if es == [] || es[0].key[depth] then 0 else 1 + SplitOnBit(es[1..], depth)
  }

  /** The split point by bisection, for a list whose set bits are all at the end. */
  method SearchSplit<V>(es: seq<Entry<V>>, depth: nat) returns (mid: nat)
    requires depth < DEPTH
    requires forall i, j :: 0 <= i < j < |es| && es[i].key[depth] ==> es[j].key[depth]
    ensures mid == SplitOnBit(es, depth)
  {
    var lo, hi := 0, |es|;
    while lo < hi
      invariant lo <= hi <= |es|
      invariant forall i :: 0 <= i < lo ==> !es[i].key[depth]
      invariant hi < |es| ==> es[hi].key[depth]
    {
      var h := (lo + hi) / 2;
      if !es[h].key[depth] { lo := h + 1; } else { hi := h; }
    }
    mid := lo;
  }

  ghost predicate ListShares<V>(es: seq<Entry<V>>, depth: nat)
    requires depth <= DEPTH
  {
    forall i, j :: 0 <= i < |es| && 0 <= j < |es| ==> es[i].key[..depth] == es[j].key[..depth]
  }

  ghost predicate Listing<V>(es: seq<Entry<V>>, depth: nat)
    requires depth <= DEPTH
  {
    Sorted(es) && ListShares(es, depth)
  }

  /** In a sorted list sharing its prefix, clear bits come before set bits. */
  lemma SplitIsPartition<V>(es: seq<Entry<V>>, depth: nat)
    requires depth < DEPTH && Listing(es, depth)
    ensures forall i, j :: 0 <= i < j < |es| && es[i].key[depth] ==> es[j].key[depth]
    ensures var mid := SplitOnBit(es, depth);
            && Listing(es[..mid], depth + 1) && Listing(es[mid..], depth + 1)
            && (forall i :: 0 <= i < |es| ==> (es[i].key[depth] <==> mid <= i))
  {
    forall i, j | 0 <= i < j < |es| && es[i].key[depth] ensures es[j].key[depth] {
      var a, b := es[i].key, es[j].key;
      var at :| 0 <= at < DEPTH && a[..at] == b[..at] && !a[at] && b[at];
      PrefixBits(a, b, depth);
      PrefixBits(a, b, at);
    }
    var mid := SplitOnBit(es, depth);
    HalfListing(es, depth, 0, mid);
    HalfListing(es, depth, mid, |es|);
    assert es[mid..|es|] == es[mid..] && es[0..mid] == es[..mid];
  }

  lemma PrefixBits(a: Position, b: Position, n: nat)
    requires n <= DEPTH && a[..n] == b[..n]
    ensures forall i :: 0 <= i < n ==> a[i] == b[i]
  {
    assert forall i :: 0 <= i < n ==> a[i] == a[..n][i] && b[i] == b[..n][i];
  }

  lemma HalfListing<V>(es: seq<Entry<V>>, depth: nat, lo: nat, hi: nat)
    requires depth < DEPTH && Listing(es, depth) && lo <= hi <= |es|
    requires forall i, j :: lo <= i < hi && lo <= j < hi ==> es[i].key[depth] == es[j].key[depth]
    ensures Listing(es[lo..hi], depth + 1)
  {
    var half := es[lo..hi];
    forall i, j | 0 <= i < |half| && 0 <= j < |half| ensures half[i].key[..depth + 1] == half[j].key[..depth + 1] {
      var a, b := es[lo + i].key, es[lo + j].key;
      assert a[..depth + 1] == a[..depth] + [a[depth]];
      assert b[..depth + 1] == b[..depth] + [b[depth]];
    }
  }

  lemma PrecedesIrreflexive(a: Position)
    ensures !Precedes(a, a)
  {
  }

  ghost predicate Distinct<V>(es: seq<Entry<V>>)
  {
    forall i, j :: 0 <= i < j < |es| ==> es[i].key != es[j].key
  }

  /** A sorted list holds each key once. */
  lemma SortedIsDistinct<V>(es: seq<Entry<V>>)
    requires Sorted(es)
    ensures Distinct(es)
  {
    hide Precedes;
    forall i, j | 0 <= i < j < |es| ensures es[i].key != es[j].key {
      PrecedesIrreflexive(es[i].key);
    }
  }

  ghost predicate Tabulates<V>(m: Entries<V>, es: seq<Entry<V>>)
  {
    && (forall i :: 0 <= i < |es| ==> es[i].key in m && m[es[i].key] == es[i].value)
    && (forall k :: k in m ==> Listed(es, k))
  }

  ghost predicate Listed<V>(es: seq<Entry<V>>, k: Position)
  {
    exists i :: 0 <= i < |es| && es[i].key == k
  }

  /** The map of a duplicate-free list has exactly one entry per element. */
  lemma {:induction false} DistinctEntries<V>(es: seq<Entry<V>>)
    requires Distinct(es)
    ensures |EntriesOf(es)| == |es| && Tabulates(EntriesOf(es), es)
  {
    if es != [] {
      var n := |es| - 1;
      DistinctEntries(es[..n]);
      TabulatesExtend(EntriesOf(es[..n]), es, n);
    }
  }

  lemma TabulatesExtend<V>(m: Entries<V>, es: seq<Entry<V>>, n: nat)
    requires |es| == n + 1 && Distinct(es) && Tabulates(m, es[..n])
    ensures es[n].key !in m && Tabulates(m[es[n].key := es[n].value], es)
  {
    var rest := es[..n];
    assert forall i :: 0 <= i < n ==> rest[i] == es[i];
    assert !Listed(rest, es[n].key);
    var m' := m[es[n].key := es[n].value];
    forall k | k in m' ensures Listed(es, k) {
      if k == es[n].key {
        assert es[n].key == k;
      } else {
        assert Listed(rest, k);
        var i :| 0 <= i < |rest| && rest[i].key == k;
        assert es[i].key == k;
      }
    }
  }

  lemma SortedEntries<V>(es: seq<Entry<V>>)
    requires Sorted(es)
    ensures |EntriesOf(es)| == |es| && Tabulates(EntriesOf(es), es)
  {
    SortedIsDistinct(es);
    DistinctEntries(es);
  }

  lemma ListingShares<V>(es: seq<Entry<V>>, depth: nat)
    requires depth <= DEPTH && Listing(es, depth)
    ensures SharePrefix(EntriesOf(es), depth)
  {
    SortedEntries(es);
  }

  /** The two halves of a sorted list are the two sides of its entry set. */
  lemma HalvesAreSides<V>(es: seq<Entry<V>>, depth: nat)
    requires depth < DEPTH && Listing(es, depth)
    ensures var mid := SplitOnBit(es, depth);
            EntriesOf(es[..mid]) == Side(EntriesOf(es), depth, false)
            && EntriesOf(es[mid..]) == Side(EntriesOf(es), depth, true)
  {
    var mid := SplitOnBit(es, depth);
    SplitIsPartition(es, depth);
    HalfIsSide(es, depth, 0, mid, false);
    HalfIsSide(es, depth, mid, |es|, true);
    assert es[mid..|es|] == es[mid..] && es[0..mid] == es[..mid];
  }

  lemma HalfIsSide<V>(es: seq<Entry<V>>, depth: nat, lo: nat, hi: nat, bit: bool)
    requires depth < DEPTH && Sorted(es) && lo <= hi <= |es|
    requires forall i :: 0 <= i < |es| ==> (es[i].key[depth] == bit <==> lo <= i < hi)
    ensures EntriesOf(es[lo..hi]) == Side(EntriesOf(es), depth, bit)
  {
    SortedIsDistinct(es);
    hide Sorted, EntriesOf, Side;
    var half := es[lo..hi];
    DistinctEntries(es);
    DistinctEntries(half);
    SideOfTable(EntriesOf(es), EntriesOf(half), es, depth, lo, hi, bit);
  }

  lemma SideOfTable<V>(m: Entries<V>, half: Entries<V>, es: seq<Entry<V>>, depth: nat, lo: nat, hi: nat, bit: bool)
    requires depth < DEPTH && lo <= hi <= |es| && Tabulates(m, es) && Tabulates(half, es[lo..hi])
    requires forall i :: 0 <= i < |es| ==> (es[i].key[depth] == bit <==> lo <= i < hi)
    ensures half == Side(m, depth, bit)
  {
    var cut := es[lo..hi];
    assert forall i :: 0 <= i < |cut| ==> cut[i] == es[lo + i];
    forall k | k in half ensures k in m && k[depth] == bit && half[k] == m[k] {
      assert Listed(cut, k);
      var i :| 0 <= i < |cut| && cut[i].key == k;
    }
    forall k | k in m && k[depth] == bit ensures k in half {
      assert Listed(es, k);
      var i :| 0 <= i < |es| && es[i].key == k;
      assert cut[i - lo].key == k;
    }
  }

  lemma ManyEntriesListed<V>(es: seq<Entry<V>>, depth: nat)
    requires depth <= DEPTH && Listing(es, depth) && |es| >= 2
    ensures depth < DEPTH
  {
    SortedEntries(es);
    ListingShares(es, depth);
    ManyEntriesAboveBottom(EntriesOf(es), depth);
  }

  /** From-scratch hash over a sorted list. */
  function OracleSubtree<V>(depth: nat, es: seq<Entry<V>>): Digest<V>
    requires depth <= DEPTH && Listing(es, depth)
    decreases DEPTH - depth
  {
    if |es| == 0 then Default(depth)
    else if |es| == 1 then Leaf(es[0].key, es[0].value)
    else
      ManyEntriesListed(es, depth);
      SplitIsPartition(es, depth);
      var mid := SplitOnBit(es, depth);
      Inner(OracleSubtree(depth + 1, es[..mid]), OracleSubtree(depth + 1, es[mid..]))
  }

  /** From-scratch path over a sorted list. */
  function OraclePath<V>(depth: nat, es: seq<Entry<V>>, key: Position): Proof<V>
    requires depth <= DEPTH && Listing(es, depth)
    decreases DEPTH - depth
  {
    if |es| == 0 then Proof([], NoLeaf)
    else if |es| == 1 then Proof([], if es[0].key == key then NoLeaf else Occupant(es[0].key, es[0].value))
    else
      ManyEntriesListed(es, depth);
      SplitIsPartition(es, depth);
      var mid := SplitOnBit(es, depth);
      if !key[depth] then
        var rest := OraclePath(depth + 1, es[..mid], key);
        Proof(rest.siblings + [OracleSubtree(depth + 1, es[mid..])], rest.leaf)
      else
        var rest := OraclePath(depth + 1, es[mid..], key);
        Proof(rest.siblings + [OracleSubtree(depth + 1, es[..mid])], rest.leaf)
  }

  /** The list computation over a sorted list gives the hash of its entry set. */
  lemma {:induction false} OracleHashes<V>(depth: nat, es: seq<Entry<V>>)
    requires depth <= DEPTH && Listing(es, depth)
    ensures SharePrefix(EntriesOf(es), depth) && OracleSubtree(depth, es) == Subtree(depth, EntriesOf(es))
    decreases DEPTH - depth
  {
    hide Sorted, ListShares, EntriesOf, SharePrefix, Side, SplitOnBit;
    SortedEntries(es);
    ListingShares(es, depth);
    if |es| == 1 {
      OnlyKey(EntriesOf(es), es[0].key);
    } else if |es| >= 2 {
      ManyEntriesListed(es, depth);
      SplitIsPartition(es, depth);
      HalvesAreSides(es, depth);
      var mid := SplitOnBit(es, depth);
      OracleHashes(depth + 1, es[..mid]);
      OracleHashes(depth + 1, es[mid..]);
    }
  }

  /** The two halves of a listing, the key's own half first. */
  function Halves<V>(es: seq<Entry<V>>, mid: nat, bit: bool): (seq<Entry<V>>, seq<Entry<V>>)
    requires mid <= |es|
  {
    if bit then (es[mid..], es[..mid]) else (es[..mid], es[mid..])
  }

  lemma OraclePathSplits<V>(depth: nat, es: seq<Entry<V>>, key: Position)
    requires depth < DEPTH && Listing(es, depth) && |es| >= 2
    ensures var mid := SplitOnBit(es, depth);
            && mid <= |es| && var (near, far) := Halves(es, mid, key[depth]);
            && Listing(near, depth + 1) && Listing(far, depth + 1)
            && OraclePath(depth, es, key) ==
                 Proof(OraclePath(depth + 1, near, key).siblings + [OracleSubtree(depth + 1, far)],
                       OraclePath(depth + 1, near, key).leaf)
  {
    SplitIsPartition(es, depth);
  }

  /** The list computation generates the proof of the entry set. */
  lemma {:induction false} OracleProves<V>(depth: nat, es: seq<Entry<V>>, key: Position)
    requires depth <= DEPTH && Listing(es, depth)
    ensures SharePrefix(EntriesOf(es), depth) && OraclePath(depth, es, key) == Path(depth, EntriesOf(es), key)
    decreases DEPTH - depth, 1
  {
    hide Sorted, ListShares, EntriesOf, SharePrefix, Side, SplitOnBit, Subtree, OracleSubtree;
    SortedEntries(es);
    ListingShares(es, depth);
    if |es| == 1 {
      OnlyKey(EntriesOf(es), es[0].key);
    } else if |es| >= 2 {
      OracleProvesSplit(depth, es, key);
    }
  }

  lemma {:induction false} OracleProvesSplit<V>(depth: nat, es: seq<Entry<V>>, key: Position)
    requires depth <= DEPTH && Listing(es, depth) && |es| >= 2
    requires SharePrefix(EntriesOf(es), depth) && |EntriesOf(es)| >= 2
    ensures OraclePath(depth, es, key) == Path(depth, EntriesOf(es), key)
    decreases DEPTH - depth, 0
  {
    hide Sorted, ListShares, EntriesOf, SharePrefix, Side, SplitOnBit, Subtree, OracleSubtree, Path, OraclePath;
    ManyEntriesListed(es, depth);
    OraclePathSplits(depth, es, key);
    HalvesAreSides(es, depth);
    var (near, far) := Halves(es, SplitOnBit(es, depth), key[depth]);
    OracleHashes(depth + 1, far);
    OracleProves(depth + 1, near, key);
    SplitPath(depth, EntriesOf(es), key, key[depth]);
  }

  // ---- Sorting first ------------------------------------------------------------

  /** Byte comparison from bit `i` on. */
  predicate Less(a: Position, b: Position, i: nat)
    requires i <= DEPTH
    decreases DEPTH - i
  {
    i < DEPTH && if a[i] == b[i] then Less(a, b, i + 1) else b[i]
  }

  lemma {:induction false} LessPrecedes(a: Position, b: Position, i: nat)
    requires i <= DEPTH && a[..i] == b[..i]
    ensures Less(a, b, i) ==> Precedes(a, b)
    ensures a != b ==> Less(a, b, i) || Less(b, a, i)
    decreases DEPTH - i
  {
    if i == DEPTH {
      assert a[..DEPTH] == a && b[..DEPTH] == b;
    } else if a[i] == b[i] {
      PrefixGrows(a, b, i);
      LessPrecedes(a, b, i + 1);
    }
  }

  lemma PrecedesTransitive(a: Position, b: Position, c: Position)
    requires Precedes(a, b) && Precedes(b, c)
    ensures Precedes(a, c)
  {
    var i :| 0 <= i < DEPTH && a[..i] == b[..i] && !a[i] && b[i];
    var j :| 0 <= j < DEPTH && b[..j] == c[..j] && !b[j] && c[j];
    PrefixBits(a, b, i);
    PrefixBits(b, c, j);
    var k := if i < j then i else j;
    assert a[..k] == c[..k] && !a[k] && c[k];
  }

  function InsertEntry<V>(es: seq<Entry<V>>, e: Entry<V>): (r: seq<Entry<V>>)
    ensures multiset(r) == multiset(es) + multiset{e}
  {
    if es == [] || Less(e.key, es[0].key, 0) then [e] + es
    else
      assert es == [es[0]] + es[1..];
      [es[0]] + InsertEntry(es[1..], e)
  }

  /** sortEntries: a sorted copy. */
  function SortEntries<V>(es: seq<Entry<V>>): (r: seq<Entry<V>>)
    ensures multiset(r) == multiset(es)
  {
    if es == [] then []
    else
      assert es == [es[0]] + es[1..];
      InsertEntry(SortEntries(es[1..]), es[0])
  }

  lemma {:induction false} InsertKeepsSorted<V>(es: seq<Entry<V>>, e: Entry<V>)
    requires Sorted(es) && forall x :: x in es ==> x.key != e.key
    ensures Sorted(InsertEntry(es, e))
  {
    hide Precedes, Less;
    if es != [] {
      assert es[0] in es;
      LessPrecedes(e.key, es[0].key, 0);
      LessPrecedes(es[0].key, e.key, 0);
      if Less(e.key, es[0].key, 0) {
        forall j | 1 <= j < |es| ensures Precedes(e.key, es[j].key) {
          PrecedesTransitive(e.key, es[0].key, es[j].key);
        }
      } else {
        InsertKeepsSorted(es[1..], e);
        var rest := InsertEntry(es[1..], e);
        forall j | 0 <= j < |rest| ensures Precedes(es[0].key, rest[j].key) {
          HeadPrecedes(es, e, rest[j]);
        }
      }
    }
  }

  lemma HeadPrecedes<V>(es: seq<Entry<V>>, e: Entry<V>, x: Entry<V>)
    requires es != [] && Sorted(es) && Precedes(es[0].key, e.key) && x in InsertEntry(es[1..], e)
    ensures Precedes(es[0].key, x.key)
  {
    hide Precedes;
    assert x in multiset(InsertEntry(es[1..], e));
    if x != e {
      assert x in multiset(es[1..]);
      var j :| 0 <= j < |es[1..]| && es[1..][j] == x;
      assert es[j + 1] == x;
    }
  }

  lemma {:induction false} SortedCopy<V>(es: seq<Entry<V>>)
    requires Distinct(es)
    ensures Sorted(SortEntries(es))
  {
    if es != [] {
      SortedCopy(es[1..]);
      forall x | x in SortEntries(es[1..]) ensures x.key != es[0].key {
        assert x in multiset(es[1..]);
        var j :| 0 <= j < |es[1..]| && es[1..][j] == x;
        assert es[j + 1] == x;
      }
      InsertKeepsSorted(SortEntries(es[1..]), es[0]);
    }
  }

  /** Two listings of the same entries tabulate to the same set. */
  lemma SameEntries<V>(es: seq<Entry<V>>, fs: seq<Entry<V>>)
    requires Distinct(es) && Distinct(fs) && forall x :: x in es <==> x in fs
    ensures EntriesOf(es) == EntriesOf(fs)
  {
    hide EntriesOf;
    DistinctEntries(es);
    DistinctEntries(fs);
    EntriesIncluded(es, fs, EntriesOf(es), EntriesOf(fs));
    EntriesIncluded(fs, es, EntriesOf(fs), EntriesOf(es));
  }

  lemma EntriesIncluded<V>(es: seq<Entry<V>>, fs: seq<Entry<V>>, m: Entries<V>, n: Entries<V>)
    requires Tabulates(m, es) && Tabulates(n, fs) && forall x :: x in es <==> x in fs
    ensures forall k :: k in m ==> k in n && n[k] == m[k]
  {
    forall k | k in m ensures k in n && n[k] == m[k] {
      assert Listed(es, k);
      var i :| 0 <= i < |es| && es[i].key == k;
      assert es[i] in fs;
      var j :| 0 <= j < |fs| && fs[j] == es[i];
    }
  }

  /** functionalRoot and functionalProve: from any listing of an entry set, in any order,
      the root and the proofs of the set. */
  lemma AnyListing<V>(es: seq<Entry<V>>, key: Position)
    requires Distinct(es)
    ensures Listing(SortEntries(es), 0)
    ensures OracleSubtree(0, SortEntries(es)) == Root(EntriesOf(es))
    ensures OraclePath(0, SortEntries(es), key) == Prove(EntriesOf(es), key)
    ensures Accepts(Root(EntriesOf(es)), key, Lookup(EntriesOf(es), key), OraclePath(0, SortEntries(es), key))
  {
    hide OracleSubtree, OraclePath, Subtree, Path, EntriesOf, SortEntries, Sorted, Accepts;
    SortedCopy(es);
    var sorted := SortEntries(es);
    SortedIsDistinct(sorted);
    forall x ensures x in es <==> x in sorted { assert x in multiset(es) <==> x in multiset(sorted); }
    SameEntries(es, sorted);
    assert ListShares(sorted, 0);
    OracleHashes(0, sorted);
    OracleProves(0, sorted, key);
    ProofsAreComplete(EntriesOf(es), key);
  }
}
