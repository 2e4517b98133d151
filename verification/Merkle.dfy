/** The sparse Merkle tree of internal/index: what a root commits to, and what a proof
    shows (smt.go, smt_oracle.go, proof.go).

    Hashes are terms: `Leaf` is the prefixed hash of a position and a value hash, `Inner`
    the prefixed hash of two children, `Zero` the all-zero base of the empty tree. Terms
    are equal exactly when they are built alike, which is what collision resistance and
    domain separation give. */
module Merkle {
  import opened Common

  const DEPTH: nat := 256

  /** The 256 path bits of a key, most significant first. */
  type Position = p: seq<bool> | |p| == DEPTH witness seq(DEPTH, _ => false)

  datatype Digest<+V> = Zero | Leaf(key: Position, value: V) | Inner(left: Digest<V>, right: Digest<V>)

  /** The entry set of a tree: position to value hash. */
  type Entries<V> = map<Position, V>

  /** Root of an empty subtree at a depth. */
  function Default<V>(depth: nat): Digest<V>
    requires depth <= DEPTH
    decreases DEPTH - depth
  {
    if depth == DEPTH then Zero else Inner(Default(depth + 1), Default(depth + 1))
  }

  /** All positions agree on their first `depth` bits. */
  ghost predicate SharePrefix<V>(m: Entries<V>, depth: nat)
    requires depth <= DEPTH
  {
    forall j, k :: j in m && k in m ==> j[..depth] == k[..depth]
  }

  /** The entries on one side of a split. */
  function Side<V>(m: Entries<V>, depth: nat, bit: bool): (r: Entries<V>)
    requires depth < DEPTH
    ensures forall k :: k in r <==> k in m && k[depth] == bit
    ensures forall k :: k in r ==> r[k] == m[k]
  {
    map k | k in m && k[depth] == bit :: m[k]
  }

  /** Hash of the subtree at a depth, over an entry set: the default when empty, the
      bare leaf when single, and the two halves otherwise. */
  ghost function Subtree<V>(depth: nat, m: Entries<V>): Digest<V>
    requires depth <= DEPTH && SharePrefix(m, depth)
    decreases DEPTH - depth
  {
    if |m| == 0 then Default(depth)
    else if |m| == 1 then var k :| k in m; Leaf(k, m[k])
    else
      ManyEntriesAboveBottom(m, depth);
      SidesSharePrefix(m, depth);
      Inner(Subtree(depth + 1, Side(m, depth, false)), Subtree(depth + 1, Side(m, depth, true)))
  }

  /** The root a tree anchors. */
  ghost function Root<V>(m: Entries<V>): Digest<V>
  {
    RootSharesPrefix(m);
    Subtree(0, m)
  }

  lemma RootSharesPrefix<V>(m: Entries<V>)
    ensures SharePrefix(m, 0)
  {
    assert forall j, k :: j in m && k in m ==> j[..0] == k[..0];
  }

  lemma TwoKeys<V>(m: Entries<V>) returns (j: Position, k: Position)
    requires |m| >= 2
    ensures j in m && k in m && j != k
  {
    j :| j in m.Keys;
    assert |m.Keys - {j}| > 0;
    k :| k in m.Keys - {j};
  }

  lemma OnlyKey<V>(m: Entries<V>, k: Position)
    requires |m| == 1 && k in m
    ensures m == map[k := m[k]]
  {
    assert |m.Keys - {k}| == 0;
    assert forall j :: j in m ==> j !in m.Keys - {k};
  }

  lemma ManyEntriesAboveBottom<V>(m: Entries<V>, depth: nat)
    requires depth <= DEPTH && SharePrefix(m, depth) && |m| >= 2
    ensures depth < DEPTH
  {
    var j, k := TwoKeys(m);
    assert j[..DEPTH] == j && k[..DEPTH] == k;
  }

  lemma SidesSharePrefix<V>(m: Entries<V>, depth: nat)
    requires depth < DEPTH && SharePrefix(m, depth)
    ensures SharePrefix(Side(m, depth, false), depth + 1) && SharePrefix(Side(m, depth, true), depth + 1)
  {
    forall j, k | j in m && k in m && j[depth] == k[depth] ensures j[..depth + 1] == k[..depth + 1] {
      assert j[..depth + 1] == j[..depth] + [j[depth]];
      assert k[..depth + 1] == k[..depth] + [k[depth]];
    }
  }

  lemma SidesPartition<V>(m: Entries<V>, depth: nat)
    requires depth < DEPTH
    ensures Side(m, depth, false).Keys + Side(m, depth, true).Keys == m.Keys
    ensures Side(m, depth, false).Keys !! Side(m, depth, true).Keys
    ensures |m| == |Side(m, depth, false)| + |Side(m, depth, true)|
  {
    var l, r := Side(m, depth, false).Keys, Side(m, depth, true).Keys;
    assert l + r == m.Keys;
    assert |l + r| == |l| + |r|;
  }

  // ---- A root commits to its set ---------------------------------------------

  /** Only the empty set hashes to the default. */
  lemma {:induction false} DefaultMeansEmpty<V>(depth: nat, m: Entries<V>)
    requires depth <= DEPTH && SharePrefix(m, depth) && Subtree(depth, m) == Default(depth)
    ensures m == map[]
    decreases DEPTH - depth
  {
    if |m| >= 2 {
      ManyEntriesAboveBottom(m, depth);
      SidesSharePrefix(m, depth);
      DefaultMeansEmpty(depth + 1, Side(m, depth, false));
      DefaultMeansEmpty(depth + 1, Side(m, depth, true));
      SidesPartition(m, depth);
      assert false;
    }
  }

  lemma {:induction false} SubtreeInjective<V>(depth: nat, m: Entries<V>, n: Entries<V>)
    requires depth <= DEPTH && SharePrefix(m, depth) && SharePrefix(n, depth)
    requires Subtree(depth, m) == Subtree(depth, n)
    ensures m == n
    decreases DEPTH - depth
  {
    if |m| == 0 {
      DefaultMeansEmpty(depth, n);
    } else if |n| == 0 {
      DefaultMeansEmpty(depth, m);
    } else if |m| == 1 {
      var k :| k in m && Subtree(depth, m) == Leaf(k, m[k]);
      OnlyKey(m, k);
      assert |n| == 1;
      OnlyKey(n, k);
    } else {
      assert |n| >= 2;
      ManyEntriesAboveBottom(m, depth);
      SidesSharePrefix(m, depth);
      SidesSharePrefix(n, depth);
      SubtreeInjective(depth + 1, Side(m, depth, false), Side(n, depth, false));
      SubtreeInjective(depth + 1, Side(m, depth, true), Side(n, depth, true));
      SameSides(m, n, depth);
    }
  }

  lemma SameSides<V>(m: Entries<V>, n: Entries<V>, depth: nat)
    requires depth < DEPTH
    requires Side(m, depth, false) == Side(n, depth, false) && Side(m, depth, true) == Side(n, depth, true)
    ensures m == n
  {
    forall k ensures k in m <==> k in n { assert k in Side(m, depth, k[depth]) <==> k in Side(n, depth, k[depth]); }
    forall k | k in m ensures m[k] == n[k] {
      assert Side(m, depth, k[depth])[k] == m[k];
      assert Side(n, depth, k[depth])[k] == n[k];
    }
  }

  /** Two entry sets with one root are the same set, values included. */
  lemma RootCommitsToSet<V>(m: Entries<V>, n: Entries<V>)
    ensures Root(m) == Root(n) <==> m == n
  {
    RootSharesPrefix(m);
    RootSharesPrefix(n);
    if Root(m) == Root(n) { SubtreeInjective(0, m, n); }
  }

  // ---- Proofs ----------------------------------------------------------------

  /** The other-leaf field as decoded from its bytes: empty, exactly 64 bytes, or any
      other length. */
  datatype LeafField<+V> = NoLeaf | Occupant(key: Position, value: V) | Malformed

  /** Siblings are listed deepest first. */
  datatype Proof<+V> = Proof(siblings: seq<Digest<V>>, leaf: LeafField<V>)

  function Join<V>(bit: bool, cur: Digest<V>, sibling: Digest<V>): Digest<V>
  {
    if bit then Inner(sibling, cur) else Inner(cur, sibling)
  }

  /** The node at `depth` that a target lying |siblings| levels below folds to. */
  function Fold<V>(depth: nat, target: Digest<V>, key: Position, siblings: seq<Digest<V>>): Digest<V>
    requires depth + |siblings| <= DEPTH
    decreases |siblings|
  {
    if siblings == [] then target
    else
      var n := |siblings| - 1;
      Join(key[depth], Fold(depth + 1, target, key, siblings[..n]), siblings[n])
  }

  /** Climb from the deepest sibling to the root. */
  method FoldPath<V>(target: Digest<V>, key: Position, siblings: seq<Digest<V>>) returns (cur: Digest<V>)
    requires |siblings| <= DEPTH
    ensures cur == Fold(0, target, key, siblings)
  {
    cur := target;
    for i := 0 to |siblings|
      invariant cur == Fold(|siblings| - i, target, key, siblings[..i])
    {
      var depth := |siblings| - 1 - i;
      assert siblings[..i + 1][..i] == siblings[..i];
      cur := Join(key[depth], cur, siblings[i]);
    }
    assert siblings[..|siblings|] == siblings;
  }

  /** The hash that must sit at the key's position, if the proof has the right shape:
      `value` present asks for inclusion, absent for absence. */
  function Target<V>(key: Position, value: Option<V>, p: Proof<V>): Option<Digest<V>>
    requires |p.siblings| <= DEPTH
  {
    match (value, p.leaf)
    case (Some(v), NoLeaf) => Some(Leaf(key, v))
    case (Some(_), _) => None
    case (None, NoLeaf) => Some(Default(|p.siblings|))
    case (None, Occupant(other, v)) => if other == key then None else Some(Leaf(other, v))
    case (None, Malformed) => None
  }

  predicate Accepts<V(==)>(root: Digest<V>, key: Position, value: Option<V>, p: Proof<V>)
  {
    && |p.siblings| <= DEPTH
    && Target(key, value, p).Some?
    && Fold(0, Target(key, value, p).value, key, p.siblings) == root
  }

  method Verify<V(==)>(root: Digest<V>, key: Position, value: Option<V>, p: Proof<V>) returns (ok: bool)
    ensures ok <==> Accepts(root, key, value, p)
  {
    if |p.siblings| > DEPTH {
      return false;
    }
    var target := Target(key, value, p);
    if target.None? {
      return false;
    }
    var folded := FoldPath(target.value, key, p.siblings);
    return folded == root;
  }

  // ---- Soundness -------------------------------------------------------------

  /** The entries under the first `depth` bits of a key. */
  function Below<V>(m: Entries<V>, key: Position, depth: nat): (r: Entries<V>)
    requires depth <= DEPTH
    ensures forall k :: k in r <==> k in m && k[..depth] == key[..depth]
    ensures forall k :: k in r ==> r[k] == m[k]
  {
    map k | k in m && k[..depth] == key[..depth] :: m[k]
  }

  lemma BelowStep<V>(m: Entries<V>, key: Position, depth: nat)
    requires depth < DEPTH
    ensures Below(m, key, depth + 1) == Side(Below(m, key, depth), depth, key[depth])
  {
    forall k: Position
      ensures k[..depth + 1] == key[..depth + 1] <==> k[..depth] == key[..depth] && k[depth] == key[depth] {
      PrefixGrows(k, key, depth);
    }
    var below, side := Below(m, key, depth + 1), Side(Below(m, key, depth), depth, key[depth]);
    assert below.Keys == side.Keys;
  }

  lemma PrefixGrows(j: Position, k: Position, depth: nat)
    requires depth < DEPTH
    ensures j[..depth + 1] == k[..depth + 1] <==> j[..depth] == k[..depth] && j[depth] == k[depth]
  {
    assert j[..depth + 1] == j[..depth] + [j[depth]];
    assert k[..depth + 1] == k[..depth] + [k[depth]];
  }

  /** An inner node decomposes into the two subtrees below it. */
  lemma InnerSubtree<V>(m: Entries<V>, depth: nat, left: Digest<V>, right: Digest<V>)
    requires depth < DEPTH && SharePrefix(m, depth) && Subtree(depth, m) == Inner(left, right)
    ensures SharePrefix(Side(m, depth, false), depth + 1) && SharePrefix(Side(m, depth, true), depth + 1)
    ensures left == Subtree(depth + 1, Side(m, depth, false))
    ensures right == Subtree(depth + 1, Side(m, depth, true))
  {
    SidesSharePrefix(m, depth);
    if |m| == 0 {
      assert Side(m, depth, false) == map[] && Side(m, depth, true) == map[];
    }
  }

  /** A path that folds to a subtree's hash ends at the hash of the subtree it walks to. */
  lemma {:induction false} FoldBindsPath<V>(m: Entries<V>, key: Position, depth: nat,
                                            target: Digest<V>, siblings: seq<Digest<V>>)
    requires depth + |siblings| <= DEPTH
    requires SharePrefix(Below(m, key, depth), depth)
    requires Fold(depth, target, key, siblings) == Subtree(depth, Below(m, key, depth))
    ensures SharePrefix(Below(m, key, depth + |siblings|), depth + |siblings|)
    ensures target == Subtree(depth + |siblings|, Below(m, key, depth + |siblings|))
    decreases |siblings|
  {
    hide Subtree, SharePrefix, Below, Side;
    if siblings != [] {
      var n := |siblings| - 1;
      BelowStep(m, key, depth);
      var below := Fold(depth + 1, target, key, siblings[..n]);
      var top := Subtree(depth, Below(m, key, depth));
      assert top == Join(key[depth], below, siblings[n]);
      hide Fold;
      InnerSubtree(Below(m, key, depth), depth, top.left, top.right);
      FoldBindsPath(m, key, depth + 1, target, siblings[..n]);
    }
  }

  lemma LeafMeansSingle<V>(depth: nat, m: Entries<V>, key: Position, value: V)
    requires depth <= DEPTH && SharePrefix(m, depth) && Subtree(depth, m) == Leaf(key, value)
    ensures m == map[key := value]
  {
    OnlyKey(m, key);
  }

  /** Whatever proof is offered: an accepted inclusion means the key maps to the value,
      an accepted absence means it has no entry. */
  lemma ProofsAreSound<V>(m: Entries<V>, key: Position, value: Option<V>, p: Proof<V>)
    requires Accepts(Root(m), key, value, p)
    ensures value.Some? ==> key in m && m[key] == value.value
    ensures value.None? ==> key !in m
  {
    hide Subtree, SharePrefix, Fold, Below, Default;
    var d := |p.siblings|;
    var here := Below(m, key, d);
    RootSharesPrefix(m);
    BelowRoot(m, key);
    OwnBelow(m, key, d);
    FoldBindsPath(m, key, 0, Target(key, value, p).value, p.siblings);
    if value.Some? {
      LeafMeansSingle(d, here, key, value.value);
    } else if p.leaf.Occupant? {
      LeafMeansSingle(d, here, p.leaf.key, p.leaf.value);
    } else {
      DefaultMeansEmpty(d, here);
    }
  }

  lemma BelowRoot<V>(m: Entries<V>, key: Position)
    ensures Below(m, key, 0) == m
  {
  }

  lemma OwnBelow<V>(m: Entries<V>, key: Position, depth: nat)
    requires depth <= DEPTH
    ensures key in m <==> key in Below(m, key, depth)
    ensures key in m ==> Below(m, key, depth)[key] == m[key]
  {
  }

  // ---- Completeness ----------------------------------------------------------

  /** The path a prover collects through the subtree at a depth. */
  ghost function Path<V>(depth: nat, m: Entries<V>, key: Position): (p: Proof<V>)
    requires depth <= DEPTH && SharePrefix(m, depth)
    ensures depth + |p.siblings| <= DEPTH
    decreases DEPTH - depth
  {
    if |m| == 0 then Proof([], NoLeaf)
    else if |m| == 1 then
      var k :| k in m;
      Proof([], if k == key then NoLeaf else Occupant(k, m[k]))
    else
      ManyEntriesAboveBottom(m, depth);
      SidesSharePrefix(m, depth);
      var rest := Path(depth + 1, Side(m, depth, key[depth]), key);
      Proof(rest.siblings + [Subtree(depth + 1, Side(m, depth, !key[depth]))], rest.leaf)
  }

  ghost function Prove<V>(m: Entries<V>, key: Position): Proof<V>
  {
    RootSharesPrefix(m);
    Path(0, m, key)
  }

  function Lookup<V>(m: Entries<V>, key: Position): Option<V>
  {
    if key in m then Some(m[key]) else None
  }

  /** What a generated path claims to find at its end. */
  function PathEnd<V>(key: Position, value: Option<V>, leaf: LeafField<V>, depth: nat): Digest<V>
    requires depth <= DEPTH
  {
    if value.Some? then Leaf(key, value.value)
    else if leaf.Occupant? then Leaf(leaf.key, leaf.value)
    else Default(depth)
  }

  /** Folding the generated path back up gives the subtree's hash. */
  lemma {:induction false} PathFolds<V>(depth: nat, m: Entries<V>, key: Position)
    requires depth <= DEPTH && SharePrefix(m, depth)
    ensures var p := Path(depth, m, key);
            Fold(depth, PathEnd(key, Lookup(m, key), p.leaf, depth + |p.siblings|), key, p.siblings)
            == Subtree(depth, m)
    ensures var leaf := Path(depth, m, key).leaf;
            (key in m ==> leaf == NoLeaf) && leaf != Malformed && (leaf.Occupant? ==> leaf.key != key)
    decreases DEPTH - depth
  {
    if |m| == 1 {
      var k :| k in m && Subtree(depth, m) == Leaf(k, m[k]);
      OnlyKey(m, k);
    } else if |m| >= 2 {
      PathFoldsStep(depth, m, key);
    }
  }

  lemma {:induction false} PathFoldsStep<V>(depth: nat, m: Entries<V>, key: Position)
    requires depth <= DEPTH && SharePrefix(m, depth) && |m| >= 2
    ensures var p := Path(depth, m, key);
            Fold(depth, PathEnd(key, Lookup(m, key), p.leaf, depth + |p.siblings|), key, p.siblings)
            == Subtree(depth, m)
    ensures var leaf := Path(depth, m, key).leaf;
            (key in m ==> leaf == NoLeaf) && leaf != Malformed && (leaf.Occupant? ==> leaf.key != key)
    decreases DEPTH - depth, 0
  {
    hide Subtree, Path, SharePrefix, Default, Side, Fold;
    ManyEntriesAboveBottom(m, depth);
    SidesSharePrefix(m, depth);
    var near := Side(m, depth, key[depth]);
    PathFolds(depth + 1, near, key);
    var rest := Path(depth + 1, near, key);
    SplitPath(depth, m, key, key[depth]);
    assert Lookup(near, key) == Lookup(m, key);
    var p := Path(depth, m, key);
    var far := Subtree(depth + 1, Side(m, depth, !key[depth]));
    FoldAppend(depth, PathEnd(key, Lookup(m, key), p.leaf, depth + |p.siblings|), key, rest.siblings, far);
  }

  lemma FoldAppend<V>(depth: nat, target: Digest<V>, key: Position, siblings: seq<Digest<V>>, top: Digest<V>)
    requires depth + |siblings| < DEPTH
    ensures Fold(depth, target, key, siblings + [top]) == Join(key[depth], Fold(depth + 1, target, key, siblings), top)
  {
    assert (siblings + [top])[..|siblings|] == siblings;
  }

  lemma SplitPath<V>(depth: nat, m: Entries<V>, key: Position, bit: bool)
    requires depth < DEPTH && SharePrefix(m, depth) && |m| >= 2 && bit == key[depth]
    requires SharePrefix(Side(m, depth, bit), depth + 1) && SharePrefix(Side(m, depth, !bit), depth + 1)
    ensures var rest := Path(depth + 1, Side(m, depth, bit), key);
            var far := Subtree(depth + 1, Side(m, depth, !bit));
            && Path(depth, m, key) == Proof(rest.siblings + [far], rest.leaf)
            && Subtree(depth, m) == Join(bit, Subtree(depth + 1, Side(m, depth, bit)), far)
  {
  }

  /** The generated proof of every key, present or absent, is accepted. */
  lemma ProofsAreComplete<V>(m: Entries<V>, key: Position)
    ensures Accepts(Root(m), key, Lookup(m, key), Prove(m, key))
  {
    RootSharesPrefix(m);
    PathFolds(0, m, key);
  }
}
