/** The materialized tree of internal/index/smt_inc.go: only non-empty paths exist, each
    inner node memoizes its hash, and a mutation dirties the path it touches. Proved to
    hold the same root and the same proofs as the from-scratch computation. */
module MerkleTree {
  import opened Common
  import opened Merkle

  datatype Tree<+V> =
    | Nil
    | Tip(key: Position, value: V, hash: Digest<V>)
    | Fork(left: Tree<V>, right: Tree<V>, hash: Digest<V>, dirty: bool)

  function Contents<V>(t: Tree<V>): Entries<V>
  {
    match t
    case Nil => map[]
    case Tip(k, v, _) => map[k := v]
    case Fork(l, r, _, _) => Contents(l) + Contents(r)
  }

  /** Two entry sets on either side of a bit, at least two entries in all. */
  ghost predicate Splits<V>(l: Entries<V>, r: Entries<V>, depth: nat)
    requires depth < DEPTH
  {
    OnSides(l, r, depth) && SharePrefix(l + r, depth) && |l + r| >= 2
  }

  ghost predicate OnSides<V>(l: Entries<V>, r: Entries<V>, depth: nat)
    requires depth < DEPTH
  {
    (forall k :: k in l ==> !k[depth]) && (forall k :: k in r ==> k[depth])
  }

  /** Entries sit on the side their bit names; a fork holds at least two; tips carry their
      own hash; a clean fork's memo is the hash of its contents. */
  ghost predicate Sound<V>(t: Tree<V>, depth: nat)
    requires depth <= DEPTH
    decreases t
  {
    match t
    case Nil => true
    case Tip(k, v, h) => h == Leaf(k, v)
    case Fork(l, r, h, dirty) =>
      && depth < DEPTH
      && Sound(l, depth + 1) && Sound(r, depth + 1)
      && Splits(Contents(l), Contents(r), depth)
      && (!dirty ==> h == Subtree(depth, Contents(l) + Contents(r)))
  }

  lemma SoundShares<V>(t: Tree<V>, depth: nat)
    requires depth <= DEPTH && Sound(t, depth)
    ensures SharePrefix(Contents(t), depth)
  {
  }

  // ---- Hashing ---------------------------------------------------------------

  /** The subtree's hash and the tree with its dirty memos refreshed. */
  function NodeHash<V>(t: Tree<V>, depth: nat): (Digest<V>, Tree<V>)
    requires depth <= DEPTH && Sound(t, depth)
    decreases t
  {
    match t
    case Nil => (Default(depth), t)
    case Tip(_, _, h) => (h, t)
    case Fork(l, r, h, dirty) =>
      if !dirty then (h, t)
      else
        var (lh, l') := NodeHash(l, depth + 1);
        var (rh, r') := NodeHash(r, depth + 1);
        var h' := Inner(lh, rh);
        (h', Fork(l', r', h', false))
  }

  lemma SplitSides<V>(l: Entries<V>, r: Entries<V>, depth: nat)
    requires depth < DEPTH && Splits(l, r, depth)
    ensures Side(l + r, depth, false) == l && Side(l + r, depth, true) == r
    ensures SharePrefix(l, depth + 1) && SharePrefix(r, depth + 1)
    ensures |l + r| == |l| + |r|
  {
    hide SharePrefix, Side;
    SidesSharePrefix(l + r, depth);
    SideOfUnion(l, r, depth);
    DisjointSides(l, r, depth);
    UnionSize(l, r);
  }

  lemma SideOfUnion<V>(l: Entries<V>, r: Entries<V>, depth: nat)
    requires depth < DEPTH && OnSides(l, r, depth)
    ensures Side(l + r, depth, false) == l && Side(l + r, depth, true) == r
  {
    var m := l + r;
    assert forall k :: k in m <==> k in l || k in r;
    assert Side(m, depth, false).Keys == l.Keys;
    assert Side(m, depth, true).Keys == r.Keys;
  }

  lemma DisjointSides<V>(l: Entries<V>, r: Entries<V>, depth: nat)
    requires depth < DEPTH && OnSides(l, r, depth)
    ensures l.Keys !! r.Keys
  {
  }

  /** A split set's hash is the join of its halves'. */
  lemma SplitHash<V>(l: Entries<V>, r: Entries<V>, depth: nat)
    requires depth < DEPTH && Splits(l, r, depth)
    ensures SharePrefix(l, depth + 1) && SharePrefix(r, depth + 1)
    ensures Subtree(depth, l + r) == Inner(Subtree(depth + 1, l), Subtree(depth + 1, r))
  {
    SplitSides(l, r, depth);
    hide SharePrefix, Side;
  }

  /** The memoized hash is the from-scratch hash, and refreshing memos changes no entry. */
  lemma {:induction false} NodeHashIsSubtree<V>(t: Tree<V>, depth: nat)
    requires depth <= DEPTH && Sound(t, depth)
    ensures SharePrefix(Contents(t), depth)
    ensures NodeHash(t, depth).0 == Subtree(depth, Contents(t))
    ensures Contents(NodeHash(t, depth).1) == Contents(t) && Sound(NodeHash(t, depth).1, depth)
    ensures var t' := NodeHash(t, depth).1; t'.Fork? ==> !t'.dirty
    decreases t
  {
    SoundShares(t, depth);
    match t
    case Nil =>
    case Tip(k, v, h) => OnlyKey(Contents(t), k);
    case Fork(l, r, h, dirty) =>
      if dirty {
        NodeHashIsSubtree(l, depth + 1);
        NodeHashIsSubtree(r, depth + 1);
        SplitHash(Contents(l), Contents(r), depth);
        hide Subtree, Splits;
      }
  }

  // ---- Insertion -------------------------------------------------------------

  function NewTip<V>(key: Position, value: V): Tree<V>
  {
    Tip(key, value, Leaf(key, value))
  }

  /** A dirty fork with `first` on the side its bit names; the stale memo is unspecified
      in the source and zero here. */
  function Branch<V>(first: Tree<V>, second: Tree<V>, bit: bool): Tree<V>
  {
    if bit then Fork(second, first, Zero, true) else Fork(first, second, Zero, true)
  }

  /** Chain two distinct tips apart at the first bit where they differ. */
  function SplitTips<V>(a: Tree<V>, b: Tree<V>, depth: nat): Tree<V>
    requires a.Tip? && b.Tip? && a.key != b.key && depth <= DEPTH && a.key[..depth] == b.key[..depth]
    decreases DEPTH - depth
  {
    DistinctAbove(a.key, b.key, depth);
    if a.key[depth] != b.key[depth] then Branch(a, b, a.key[depth])
    else Branch(SplitTips(a, b, depth + 1), Nil, a.key[depth])
  }

  lemma DistinctAbove(a: Position, b: Position, depth: nat)
    requires a != b && depth <= DEPTH && a[..depth] == b[..depth]
    ensures depth < DEPTH
    ensures a[depth] == b[depth] ==> a[..depth + 1] == b[..depth + 1]
  {
    assert a[..DEPTH] == a && b[..DEPTH] == b;
    if depth < DEPTH {
      assert a[..depth + 1] == a[..depth] + [a[depth]];
      assert b[..depth + 1] == b[..depth] + [b[depth]];
    }
  }

  /** The key belongs under this subtree. */
  ghost predicate Fits<V>(t: Tree<V>, depth: nat, key: Position)
    requires depth <= DEPTH
  {
    forall k :: k in Contents(t) ==> k[..depth] == key[..depth]
  }

  function InsertNode<V>(t: Tree<V>, depth: nat, key: Position, value: V): Tree<V>
    requires depth <= DEPTH && Sound(t, depth) && Fits(t, depth, key)
    decreases t
  {
    match t
    case Nil => NewTip(key, value)
    case Tip(k, _, _) =>
      if k == key then NewTip(key, value) else SplitTips(t, NewTip(key, value), depth)
    case Fork(l, r, h, _) =>
      ChildFits(t, depth, key);
      if !key[depth] then Fork(InsertNode(l, depth + 1, key, value), r, h, true)
      else Fork(l, InsertNode(r, depth + 1, key, value), h, true)
  }

  lemma ChildFits<V>(t: Tree<V>, depth: nat, key: Position)
    requires depth <= DEPTH && Sound(t, depth) && Fits(t, depth, key) && t.Fork?
    ensures Fits(if key[depth] then t.right else t.left, depth + 1, key)
  {
    var l, r := Contents(t.left), Contents(t.right);
    assert Contents(t) == l + r;
    hide Contents, SharePrefix;
    forall k | k in l + r && k[depth] == key[depth] ensures k[..depth + 1] == key[..depth + 1] {
      PrefixGrows(k, key, depth);
    }
  }

  lemma {:induction false} SplitTipsCorrect<V>(a: Tree<V>, b: Tree<V>, depth: nat)
    requires a.Tip? && b.Tip? && a.key != b.key && depth <= DEPTH && a.key[..depth] == b.key[..depth]
    requires Sound(a, depth) && Sound(b, depth)
    ensures Contents(SplitTips(a, b, depth)) == map[a.key := a.value, b.key := b.value]
    ensures Sound(SplitTips(a, b, depth), depth)
    decreases DEPTH - depth
  {
    DistinctAbove(a.key, b.key, depth);
    var both := map[a.key := a.value, b.key := b.value];
    PairSplits(a.key, a.value, b.key, b.value, depth);
    if a.key[depth] == b.key[depth] {
      SplitTipsCorrect(a, b, depth + 1);
    }
    hide Splits, Subtree;
  }

  lemma PairSplits<V>(j: Position, v: V, k: Position, w: V, depth: nat)
    requires j != k && depth < DEPTH && j[..depth] == k[..depth]
    ensures var both := map[j := v, k := w];
            && (j[depth] == k[depth] ==> if j[depth] then Splits(map[], both, depth) else Splits(both, map[], depth))
            && (!j[depth] && k[depth] ==> Splits(map[j := v], map[k := w], depth) && map[j := v] + map[k := w] == both)
            && (j[depth] && !k[depth] ==> Splits(map[k := w], map[j := v], depth) && map[k := w] + map[j := v] == both)
            && map[] + both == both && both + map[] == both
  {
    hide SharePrefix;
    PairShares(j, v, k, w, depth);
    PairUnion(j, v, k, w);
    NothingLeft(map[j := v, k := w]);
    NothingRight(map[j := v, k := w]);
  }

  lemma PairShares<V>(j: Position, v: V, k: Position, w: V, depth: nat)
    requires j != k && depth < DEPTH && j[..depth] == k[..depth]
    ensures SharePrefix(map[j := v, k := w], depth) && |map[j := v, k := w]| == 2
  {
    var both := map[j := v, k := w];
    assert both.Keys == {j, k};
  }

  lemma PairUnion<V>(j: Position, v: V, k: Position, w: V)
    requires j != k
    ensures map[k := w] + map[j := v] == map[j := v, k := w] && map[j := v] + map[k := w] == map[j := v, k := w]
  {
    var both := map[j := v, k := w];
    assert (map[k := w] + map[j := v]).Keys == both.Keys;
    assert (map[j := v] + map[k := w]).Keys == both.Keys;
  }

  /** Insertion adds or overwrites exactly one entry and keeps the tree valid. */
  lemma {:induction false} InsertCorrect<V>(t: Tree<V>, depth: nat, key: Position, value: V)
    requires depth <= DEPTH && Sound(t, depth) && Fits(t, depth, key)
    ensures Contents(InsertNode(t, depth, key, value)) == Contents(t)[key := value]
    ensures Sound(InsertNode(t, depth, key, value), depth)
    decreases t
  {
    match t
    case Nil =>
    case Tip(k, v, h) =>
      if k != key {
        SplitTipsCorrect(t, NewTip(key, value), depth);
      }
    case Fork(l, r, h, dirty) =>
      ChildFits(t, depth, key);
      InsertCorrect(if key[depth] then r else l, depth + 1, key, value);
      SplitsInsert(Contents(l), Contents(r), depth, key, value);
      hide Splits, Subtree, Fits;
  }

  lemma SplitsInsert<V>(l: Entries<V>, r: Entries<V>, depth: nat, key: Position, value: V)
    requires depth < DEPTH && Splits(l, r, depth) && forall k :: k in l + r ==> k[..depth] == key[..depth]
    ensures key[depth] ==> Splits(l, r[key := value], depth) && l + r[key := value] == (l + r)[key := value]
    ensures !key[depth] ==> Splits(l[key := value], r, depth) && l[key := value] + r == (l + r)[key := value]
  {
    UpdateShares(l + r, depth, key, value);
    hide SharePrefix, OnSides;
    SubsetSize((l + r).Keys, (l + r)[key := value].Keys);
    if key[depth] { UpdateRight(l, r, depth, key, value); } else { UpdateLeft(l, r, depth, key, value); }
  }

  lemma UpdateRight<V>(l: Entries<V>, r: Entries<V>, depth: nat, key: Position, value: V)
    requires depth < DEPTH && OnSides(l, r, depth) && key[depth]
    ensures OnSides(l, r[key := value], depth) && l + r[key := value] == (l + r)[key := value]
  {
    assert (l + r[key := value]).Keys == (l + r)[key := value].Keys;
  }

  lemma UpdateLeft<V>(l: Entries<V>, r: Entries<V>, depth: nat, key: Position, value: V)
    requires depth < DEPTH && OnSides(l, r, depth) && !key[depth]
    ensures OnSides(l[key := value], r, depth) && l[key := value] + r == (l + r)[key := value]
  {
    assert key !in r;
    assert (l[key := value] + r).Keys == (l + r)[key := value].Keys;
  }

  lemma UpdateShares<V>(m: Entries<V>, depth: nat, key: Position, value: V)
    requires depth <= DEPTH && forall k :: k in m ==> k[..depth] == key[..depth]
    ensures SharePrefix(m[key := value], depth)
  {
  }

  lemma SubsetShares<V>(m: Entries<V>, n: Entries<V>, depth: nat)
    requires depth <= DEPTH && SharePrefix(m, depth) && n.Keys <= m.Keys
    ensures SharePrefix(n, depth)
  {
    assert forall k :: k in n ==> k in m;
  }

  // ---- Deletion --------------------------------------------------------------

  /** A fork left with a single entry floats its tip up. */
  function Collapse<V>(t: Tree<V>): Tree<V>
    requires t.Fork?
  {
    if t.left.Nil? && t.right.Tip? then t.right
    else if t.right.Nil? && t.left.Tip? then t.left
    else t
  }

  function DeleteNode<V>(t: Tree<V>, depth: nat, key: Position): Tree<V>
    requires depth <= DEPTH && Sound(t, depth)
    decreases t
  {
    hide Splits, Subtree;
    match t
    case Nil => Nil
    case Tip(k, _, _) => if k == key then Nil else t
    case Fork(l, r, h, _) =>
      if !key[depth] then Collapse(Fork(DeleteNode(l, depth + 1, key), r, h, true))
      else Collapse(Fork(l, DeleteNode(r, depth + 1, key), h, true))
  }

  lemma EmptyIsNil<V>(t: Tree<V>, depth: nat)
    requires depth <= DEPTH && Sound(t, depth)
    ensures |Contents(t)| == 0 <==> t == Nil
    ensures |Contents(t)| == 1 <==> t.Tip?
  {
  }

  /** Deletion removes exactly the key and keeps the tree valid. */
  lemma {:induction false} DeleteCorrect<V>(t: Tree<V>, depth: nat, key: Position)
    requires depth <= DEPTH && Sound(t, depth)
    ensures Contents(DeleteNode(t, depth, key)) == Contents(t) - {key}
    ensures Sound(DeleteNode(t, depth, key), depth)
    decreases t
  {
    hide *;
    if t.Fork? {
      ForkParts(t, depth);
      DeleteUnfolds(t, depth, key);
      if key[depth] {
        DeleteCorrect(t.right, depth + 1, key);
        DeleteRight(t.left, t.right, DeleteNode(t.right, depth + 1, key), t.hash, depth, key);
      } else {
        DeleteCorrect(t.left, depth + 1, key);
        DeleteLeft(t.left, t.right, DeleteNode(t.left, depth + 1, key), t.hash, depth, key);
      }
    } else {
      DeleteSmall(t, depth, key);
    }
  }

  lemma ForkParts<V>(t: Tree<V>, depth: nat)
    requires depth <= DEPTH && Sound(t, depth) && t.Fork?
    ensures depth < DEPTH && Sound(t.left, depth + 1) && Sound(t.right, depth + 1)
    ensures Splits(Contents(t.left), Contents(t.right), depth) && Contents(t) == Contents(t.left) + Contents(t.right)
  {
  }

  lemma DeleteUnfolds<V>(t: Tree<V>, depth: nat, key: Position)
    requires depth < DEPTH && Sound(t, depth) && t.Fork? && Sound(t.left, depth + 1) && Sound(t.right, depth + 1)
    ensures key[depth] ==>
              DeleteNode(t, depth, key) == Collapse(Fork(t.left, DeleteNode(t.right, depth + 1, key), t.hash, true))
    ensures !key[depth] ==>
              DeleteNode(t, depth, key) == Collapse(Fork(DeleteNode(t.left, depth + 1, key), t.right, t.hash, true))
  {
    hide Collapse, Splits, Contents, Subtree;
  }

  lemma DeleteSmall<V>(t: Tree<V>, depth: nat, key: Position)
    requires depth <= DEPTH && Sound(t, depth) && !t.Fork?
    ensures Contents(DeleteNode(t, depth, key)) == Contents(t) - {key}
    ensures Sound(DeleteNode(t, depth, key), depth)
  {
    SmallMinus(Contents(t), key);
  }

  lemma SmallMinus<V>(m: Entries<V>, key: Position)
    requires |m.Keys| <= 1
    ensures m - {key} == if key in m then map[] else m
  {
    if key in m {
      assert |m.Keys - {key}| == 0;
      assert (m - {key}).Keys == {};
    }
  }

  lemma DeleteRight<V>(l: Tree<V>, r: Tree<V>, r': Tree<V>, h: Digest<V>, depth: nat, key: Position)
    requires depth < DEPTH && Sound(l, depth + 1) && Splits(Contents(l), Contents(r), depth) && key[depth]
    requires Contents(r') == Contents(r) - {key} && Sound(r', depth + 1)
    ensures Sound(Collapse(Fork(l, r', h, true)), depth)
    ensures Contents(Collapse(Fork(l, r', h, true))) == (Contents(l) + Contents(r)) - {key}
  {
    hide Splits, Subtree, Sound, Contents, Collapse, SplitsOrSingle;
    SplitsDelete(Contents(l), Contents(r), depth, key);
    CollapseHalves(l, r', h, depth);
  }

  lemma DeleteLeft<V>(l: Tree<V>, r: Tree<V>, l': Tree<V>, h: Digest<V>, depth: nat, key: Position)
    requires depth < DEPTH && Sound(r, depth + 1) && Splits(Contents(l), Contents(r), depth) && !key[depth]
    requires Contents(l') == Contents(l) - {key} && Sound(l', depth + 1)
    ensures Sound(Collapse(Fork(l', r, h, true)), depth)
    ensures Contents(Collapse(Fork(l', r, h, true))) == (Contents(l) + Contents(r)) - {key}
  {
    hide Splits, Subtree, Sound, Contents, Collapse, SplitsOrSingle;
    SplitsDelete(Contents(l), Contents(r), depth, key);
    CollapseHalves(l', r, h, depth);
  }

  lemma CollapseHalves<V>(l: Tree<V>, r: Tree<V>, h: Digest<V>, depth: nat)
    requires depth < DEPTH && Sound(l, depth + 1) && Sound(r, depth + 1)
    requires SplitsOrSingle(Contents(l), Contents(r), depth)
    ensures Contents(Collapse(Fork(l, r, h, true))) == Contents(l) + Contents(r)
    ensures Sound(Collapse(Fork(l, r, h, true)), depth)
  {
    hide Splits, Subtree, Sound, Contents, Collapse;
    EmptyIsNil(l, depth + 1);
    EmptyIsNil(r, depth + 1);
    CollapseCorrect(l, r, h, depth);
  }

  /** Two halves that still hold two entries, or one single entry. */
  ghost predicate SplitsOrSingle<V>(l: Entries<V>, r: Entries<V>, depth: nat)
    requires depth < DEPTH
  {
    Splits(l, r, depth) || (|l| == 0 && |r| == 1) || (|l| == 1 && |r| == 0)
  }

  lemma SplitsDelete<V>(l: Entries<V>, r: Entries<V>, depth: nat, key: Position)
    requires depth < DEPTH && Splits(l, r, depth)
    ensures key[depth] ==> SplitsOrSingle(l, r - {key}, depth) && l + (r - {key}) == (l + r) - {key}
    ensures !key[depth] ==> SplitsOrSingle(l - {key}, r, depth) && (l - {key}) + r == (l + r) - {key}
  {
    hide SharePrefix, OnSides;
    if key[depth] {
      RemoveRight(l, r, depth, key);
      StillSplits(l, r, l, r - {key}, depth);
    } else {
      RemoveLeft(l, r, depth, key);
      StillSplits(l, r, l - {key}, r, depth);
    }
  }

  lemma StillSplits<V>(l: Entries<V>, r: Entries<V>, l': Entries<V>, r': Entries<V>, depth: nat)
    requires depth < DEPTH && Splits(l, r, depth) && OnSides(l', r', depth)
    requires (l' + r').Keys <= (l + r).Keys && |l' + r'| >= 1
    ensures SplitsOrSingle(l', r', depth)
  {
    SubsetShares(l + r, l' + r', depth);
    DisjointSides(l', r', depth);
    hide SharePrefix, OnSides;
    UnionSize(l', r');
  }

  lemma RemoveRight<V>(l: Entries<V>, r: Entries<V>, depth: nat, key: Position)
    requires depth < DEPTH && OnSides(l, r, depth) && key[depth] && |l + r| >= 2
    ensures OnSides(l, r - {key}, depth) && l + (r - {key}) == (l + r) - {key}
    ensures (l + (r - {key})).Keys <= (l + r).Keys && |l + (r - {key})| >= 1
  {
    assert key !in l;
    RemoveFromUnion(l, r, key);
  }

  lemma RemoveFromUnion<V>(l: Entries<V>, r: Entries<V>, key: Position)
    requires key !in l
    ensures l + (r - {key}) == (l + r) - {key} && (l + (r - {key})).Keys == (l + r).Keys - {key}
  {
    var a, b := l + (r - {key}), (l + r) - {key};
    assert forall k :: k in a <==> k in b;
    assert forall k :: k in a ==> a[k] == b[k];
  }

  lemma RemoveLeft<V>(l: Entries<V>, r: Entries<V>, depth: nat, key: Position)
    requires depth < DEPTH && OnSides(l, r, depth) && !key[depth] && |l + r| >= 2
    ensures OnSides(l - {key}, r, depth) && (l - {key}) + r == (l + r) - {key}
    ensures ((l - {key}) + r).Keys <= (l + r).Keys && |(l - {key}) + r| >= 1
  {
    assert key !in r;
    UnionCommutes(l, r, depth);
    UnionCommutes(l - {key}, r, depth);
    RemoveFromUnion(r, l, key);
  }

  lemma UnionCommutes<V>(l: Entries<V>, r: Entries<V>, depth: nat)
    requires depth < DEPTH && OnSides(l, r, depth)
    ensures l + r == r + l
  {
    var a, b := l + r, r + l;
    assert forall k :: k in a <==> k in b;
    assert forall k :: k in a ==> a[k] == b[k];
  }

  lemma UnionSize<V>(l: Entries<V>, r: Entries<V>)
    requires l.Keys !! r.Keys
    ensures |l + r| == |l| + |r|
  {
    assert (l + r).Keys == l.Keys + r.Keys;
    assert |l.Keys + r.Keys| == |l.Keys| + |r.Keys|;
  }

  lemma CollapseCorrect<V>(l: Tree<V>, r: Tree<V>, h: Digest<V>, depth: nat)
    requires depth < DEPTH && Sound(l, depth + 1) && Sound(r, depth + 1)
    requires Splits(Contents(l), Contents(r), depth) || (l.Nil? && r.Tip?) || (l.Tip? && r.Nil?)
    ensures Contents(Collapse(Fork(l, r, h, true))) == Contents(l) + Contents(r)
    ensures Sound(Collapse(Fork(l, r, h, true)), depth)
  {
    hide Splits, Subtree;
    if l.Nil? && r.Tip? {
      NothingLeft(Contents(r));
    } else if l.Tip? && r.Nil? {
      NothingRight(Contents(l));
    }
  }

  lemma NothingLeft<V>(m: Entries<V>)
    ensures map[] + m == m
  {
  }

  lemma NothingRight<V>(m: Entries<V>)
    ensures m + map[] == m
  {
  }

  // ---- Proofs off the tree ----------------------------------------------------

  function Reversed<T>(s: seq<T>): (r: seq<T>)
    ensures |r| == |s| && forall i :: 0 <= i < |s| ==> r[i] == s[|s| - 1 - i]
  {
    seq(|s|, i requires 0 <= i < |s| => s[|s| - 1 - i])
  }

  /** The path through the tree, deepest sibling first. */
  ghost function TreePath<V>(t: Tree<V>, depth: nat, key: Position): Proof<V>
    requires depth <= DEPTH && Sound(t, depth)
    decreases t
  {
    match t
    case Nil => Proof([], NoLeaf)
    case Tip(k, v, _) => Proof([], if k == key then NoLeaf else Occupant(k, v))
    case Fork(l, r, _, _) =>
      var rest := TreePath(if key[depth] then r else l, depth + 1, key);
      Proof(rest.siblings + [NodeHash(if key[depth] then l else r, depth + 1).0], rest.leaf)
  }

  lemma {:induction false} TreePathIsPath<V>(t: Tree<V>, depth: nat, key: Position)
    requires depth <= DEPTH && Sound(t, depth)
    ensures SharePrefix(Contents(t), depth) && TreePath(t, depth, key) == Path(depth, Contents(t), key)
    decreases t
  {
    SoundShares(t, depth);
    match t
    case Nil =>
    case Tip(k, v, h) => OnlyKey(Contents(t), k);
    case Fork(l, r, h, dirty) =>
      hide Subtree, NodeHash;
      TreePathIsPath(if key[depth] then r else l, depth + 1, key);
      NodeHashIsSubtree(if key[depth] then l else r, depth + 1);
      SplitSides(Contents(l), Contents(r), depth);
  }

  /** Walk down collecting siblings shallowest first, then reverse them. */
  method ProvePath<V(==)>(root: Tree<V>, key: Position) returns (p: Proof<V>)
    requires Sound(root, 0)
    ensures p == TreePath(root, 0, key)
  {
    hide NodeHash, Contents, Splits, Subtree;
    var siblings: seq<Digest<V>> := [];
    var n, depth := root, 0;
    while n.Fork?
      invariant depth <= DEPTH && Sound(n, depth)
      invariant TreePath(root, 0, key) ==
                  Proof(TreePath(n, depth, key).siblings + Reversed(siblings), TreePath(n, depth, key).leaf)
      decreases n
    {
      var sibling := NodeHash(if key[depth] then n.left else n.right, depth + 1).0;
      ghost var rest := TreePath(if key[depth] then n.right else n.left, depth + 1, key);
      assert Reversed(siblings + [sibling]) == [sibling] + Reversed(siblings);
      assert rest.siblings + [sibling] + Reversed(siblings) == rest.siblings + Reversed(siblings + [sibling]);
      siblings := siblings + [sibling];
      n := if key[depth] then n.right else n.left;
      depth := depth + 1;
    }
    p := Proof(Reversed(siblings), if n.Nil? || n.key == key then NoLeaf else Occupant(n.key, n.value));
    assert [] + Reversed(siblings) == Reversed(siblings);
  }

  // ---- The tree object --------------------------------------------------------

  class Smt<V(==)> {
    var entries: Entries<V>
    var root: Tree<V>

    ghost predicate Valid()
      reads this
    {
      Sound(root, 0) && Contents(root) == entries
    }

    constructor ()
      ensures Valid() && entries == map[]
    {
      entries, root := map[], Nil;
    }

    method Insert(key: Position, value: V)
      requires Valid()
      modifies this
      ensures Valid() && entries == old(entries)[key := value]
    {
      assert Fits(root, 0, key) by { assert forall k: Position :: k[..0] == key[..0]; }
      InsertCorrect(root, 0, key, value);
      entries := entries[key := value];
      root := InsertNode(root, 0, key, value);
    }

    /** Deleting an absent key leaves tree and memos untouched. */
    method Delete(key: Position)
      requires Valid()
      modifies this
      ensures Valid() && entries == old(entries) - {key}
      ensures key !in old(entries) ==> root == old(root)
    {
      if key !in entries {
        assert entries - {key} == entries;
        return;
      }
      DeleteCorrect(root, 0, key);
      entries := entries - {key};
      root := DeleteNode(root, 0, key);
    }

    /** The incremental root is the from-scratch root of the entries. */
    method RootHash() returns (h: Digest<V>)
      requires Valid()
      modifies this`root
      ensures Valid() && entries == old(entries)
      ensures h == Root(entries)
    {
      NodeHashIsSubtree(root, 0);
      var (hash, refreshed) := NodeHash(root, 0);
      root := refreshed;
      return hash;
    }

    /** The proof read off the tree is the from-scratch proof of the entries. */
    method ProveKey(key: Position) returns (p: Proof<V>)
      requires Valid()
      ensures p == Prove(entries, key)
      ensures Accepts(Root(entries), key, Lookup(entries, key), p)
    {
      p := ProvePath(root, key);
      TreePathIsPath(root, 0, key);
      ProofsAreComplete(entries, key);
    }
  }
}
