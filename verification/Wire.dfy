/** Big-endian byte strings: integers, length-prefixed blobs and counted tables
    (internal/consensus/epoch_accumulators.go, regime_sync.go; internal/index/proof.go). */
module Wire {
  import opened Common

  type byte = x: int | 0 <= x < 256

  type Bytes = seq<byte>

  /** A 32-byte identifier as the wire carries it. */
  type Block = b: Bytes | |b| == 32 witness seq(32, _ => 0)

  function Pow(w: nat): nat
  {
    if w == 0 then 1 else 256 * Pow(w - 1)
  }

  /** The low `w` bytes of `n`, most significant first. */
  function Put(n: nat, w: nat): (r: Bytes)
    ensures |r| == w
  {
    if w == 0 then [] else Put(n / 256, w - 1) + [n % 256]
  }

  function Val(s: Bytes): nat
  {
    if s == [] then 0 else 256 * Val(s[..|s| - 1]) + s[|s| - 1]
  }

  lemma {:induction false} ValPut(n: nat, w: nat)
    requires n < Pow(w)
    ensures Val(Put(n, w)) == n
  {
    if w > 0 {
      ValPut(n / 256, w - 1);
      var s := Put(n / 256, w - 1) + [n % 256];
      assert s[..|s| - 1] == Put(n / 256, w - 1);
    }
  }

  lemma {:induction false} PutVal(s: Bytes)
    ensures Put(Val(s), |s|) == s && Val(s) < Pow(|s|)
  {
    if s != [] {
      var t := s[..|s| - 1];
      PutVal(t);
      assert Val(s) / 256 == Val(t) && Val(s) % 256 == s[|s| - 1];
    }
  }

  /** Byte strings of one length are told apart by their values. */
  lemma ValInjective(a: Bytes, b: Bytes)
    requires |a| == |b| && Val(a) == Val(b)
    ensures a == b
  {
    PutVal(a);
    PutVal(b);
  }

  /** `a` comes before `b` in byte order, first difference first. */
  predicate ByteLess(a: Bytes, b: Bytes)
  {
    a != [] && b != [] && (a[0] < b[0] || (a[0] == b[0] && ByteLess(a[1..], b[1..])))
  }

  lemma {:induction false} ValFront(s: Bytes)
    requires s != []
    ensures Val(s) == s[0] * Pow(|s| - 1) + Val(s[1..])
  {
    var n := |s| - 1;
    if n > 0 {
      ValFront(s[..n]);
      assert s[..n][1..] == s[1..][..n - 1] && s[1..][n - 1] == s[n];
      assert 256 * (s[0] * Pow(n - 1)) == s[0] * Pow(n);
    } else {
      assert s[..0] == [] && s[1..] == [];
    }
  }

  /** The most significant byte is written first, so numbers compare as their bytes do. */
  lemma {:induction false} BytesCompareAsNumbers(a: Bytes, b: Bytes)
    requires |a| == |b|
    ensures Val(a) < Val(b) <==> ByteLess(a, b)
  {
    if a != [] {
      ValFront(a);
      ValFront(b);
      PutVal(a[1..]);
      PutVal(b[1..]);
      BytesCompareAsNumbers(a[1..], b[1..]);
      Leading(a[0], b[0], Val(a[1..]), Val(b[1..]), Pow(|a| - 1));
    }
  }

  lemma Leading(x: nat, y: nat, p: nat, q: nat, w: nat)
    requires p < w && q < w
    ensures x * w + p < y * w + q <==> x < y || (x == y && p < q)
  {
    if x < y { assert (x + 1) * w <= y * w; }
    if y < x { assert (y + 1) * w <= x * w; }
  }

  // ---- Length-prefixed blobs -------------------------------------------------------------

  function Framed(b: Bytes): Bytes
  {
    Put(|b|, 4) + b
  }

  /** A truncated prefix or body yields nothing and consumes the input. */
  function Unframe(data: Bytes): (Bytes, Bytes)
  {
    if |data| < 4 then ([], [])
    else
      var n := Val(data[..4]);
      if |data| - 4 < n then ([], []) else (data[4..4 + n], data[4 + n..])
  }

  lemma UnframeFramed(b: Bytes, tail: Bytes)
    requires |b| < Pow(4)
    ensures Unframe(Framed(b) + tail) == (b, tail)
  {
    var data := Framed(b) + tail;
    assert data[..4] == Put(|b|, 4);
    ValPut(|b|, 4);
    assert data[4..4 + |b|] == b;
  }

  // ---- Counted tables of fixed-size records -----------------------------------------------

  function Join(rs: seq<Bytes>): Bytes
  {
    if rs == [] then [] else rs[0] + Join(rs[1..])
  }

  predicate Sized(rs: seq<Bytes>, size: nat)
  {
    forall i :: 0 <= i < |rs| ==> |rs[i]| == size
  }

  function Split(data: Bytes, size: nat, count: nat): (rs: seq<Bytes>)
    requires count * size <= |data|
    ensures |rs| == count && Sized(rs, size)
  {
    if count == 0 then []
    else
      assert (count - 1) * size == count * size - size;
      [data[..size]] + Split(data[size..], size, count - 1)
  }

  function Table(rs: seq<Bytes>): Bytes
  {
    Put(|rs|, 4) + Join(rs)
  }

  /** An absent, truncated or count-0 table reads as empty. */
  function Untable(data: Bytes, size: nat): (rs: seq<Bytes>)
    ensures Sized(rs, size)
  {
    if |data| < 4 then []
    else
      var count := Val(data[..4]);
      if count == 0 || |data| < 4 + count * size then [] else Split(data[4..], size, count)
  }

  lemma {:induction false} SplitJoin(rs: seq<Bytes>, size: nat)
    requires Sized(rs, size)
    ensures |Join(rs)| == |rs| * size && Split(Join(rs), size, |rs|) == rs
  {
    if rs != [] {
      SplitJoin(rs[1..], size);
      assert (|rs| - 1) * size == |rs| * size - size;
      assert Join(rs)[..size] == rs[0] && Join(rs)[size..] == Join(rs[1..]);
    }
  }

  lemma UntableTable(rs: seq<Bytes>, size: nat)
    requires Sized(rs, size) && |rs| < Pow(4)
    ensures Untable(Table(rs), size) == rs
  {
    SplitJoin(rs, size);
    ValPut(|rs|, 4);
    var data := Table(rs);
    assert data[..4] == Put(|rs|, 4) && data[4..] == Join(rs);
  }

  lemma {:induction false} JoinPush(rs: seq<Bytes>, r: Bytes)
    ensures Join(rs + [r]) == Join(rs) + r
  {
    if rs != [] {
      assert (rs + [r])[1..] == rs[1..] + [r];
      JoinPush(rs[1..], r);
    }
  }

  // ---- Canonical order ---------------------------------------------------------------------

  ghost predicate Ranks<T(!new)>(rank: T -> nat, s: set<T>)
  {
    forall x, y :: x in s && y in s && rank(x) == rank(y) ==> x == y
  }

  lemma {:induction false} LeastExists<T>(s: set<T>, rank: T -> nat)
    requires s != {}
    ensures exists m :: m in s && forall x :: x in s ==> rank(m) <= rank(x)
  {
    var y :| y in s;
    if s == {y} {
      assert y in s;
    } else {
      LeastExists(s - {y}, rank);
      var m :| m in s - {y} && forall x :: x in s - {y} ==> rank(m) <= rank(x);
      var least := if rank(m) <= rank(y) then m else y;
      assert least in s && forall x :: x in s ==> rank(least) <= rank(x);
    }
  }

  /** The elements of a set, lowest rank first. */
  ghost function Canonical<T(!new)>(s: set<T>, rank: T -> nat): seq<T>
  {
    if s == {} then [] else var m := Least(s, rank); [m] + Canonical(s - {m}, rank)
  }

  ghost function Least<T(!new)>(s: set<T>, rank: T -> nat): (m: T)
    requires s != {}
    ensures m in s && forall x :: x in s ==> rank(m) <= rank(x)
  {
    LeastExists(s, rank);
    var m :| m in s && forall x :: x in s ==> rank(m) <= rank(x);
    m
  }

  lemma {:induction false} CanonicalLists<T(!new)>(s: set<T>, rank: T -> nat)
    ensures |Canonical(s, rank)| == |s| && Elements(Canonical(s, rank)) == s
  {
    if s != {} {
      var m := Least(s, rank);
      CanonicalLists(s - {m}, rank);
      var rest := Canonical(s - {m}, rank);
      assert Elements([m] + rest) == {m} + Elements(rest);
    }
  }

  predicate Rising<T>(s: seq<T>, rank: T -> nat)
  {
    forall i, j :: 0 <= i < j < |s| ==> rank(s[i]) < rank(s[j])
  }

  lemma {:induction false} CanonicalRises<T(!new)>(s: set<T>, rank: T -> nat)
    requires Ranks(rank, s)
    ensures Rising(Canonical(s, rank), rank)
  {
    if s != {} {
      var m := Least(s, rank);
      var rest := Canonical(s - {m}, rank);
      CanonicalRises(s - {m}, rank);
      CanonicalLists(s - {m}, rank);
      forall j | 0 <= j < |rest| ensures rank(m) < rank(rest[j]) {
        assert rest[j] in Elements(rest);
      }
    }
  }

  lemma {:induction false} RisingUnique<T(!new)>(a: seq<T>, b: seq<T>, rank: T -> nat)
    requires Rising(a, rank) && Rising(b, rank) && Elements(a) == Elements(b)
    ensures a == b
  {
    if a == [] {
      NonEmptyElements(b);
    } else {
      assert a[0] in Elements(b);
      assert b != [] && b[0] in Elements(a);
      assert a[0] == b[0];
      forall x ensures x in Elements(a[1..]) <==> x in Elements(b[1..]) {
        assert x in Elements(a) <==> x in Elements(b);
        assert x in a[1..] <==> x in a && x != a[0];
        assert x in b[1..] <==> x in b && x != b[0];
      }
      RisingUnique(a[1..], b[1..], rank);
    }
  }

  /** Sorting what an arbitrary iteration order collected. */
  method SortRising<T(==)>(s: set<T>, rank: T -> nat) returns (r: seq<T>)
    requires forall x, y :: x in s && y in s && rank(x) == rank(y) ==> x == y
    ensures Rising(r, rank) && Elements(r) == s
  {
    r := [];
    var rest := s;
    while rest != {}
      invariant rest <= s && Rising(r, rank) && Elements(r) == s - rest
      decreases rest
    {
      var x :| x in rest;
      r := InsertRising(r, x, rank);
      rest := rest - {x};
    }
  }

  method InsertRising<T(==)>(r: seq<T>, x: T, rank: T -> nat) returns (r': seq<T>)
    requires Rising(r, rank) && forall y :: y in Elements(r) ==> rank(y) != rank(x)
    ensures Rising(r', rank) && Elements(r') == Elements(r) + {x}
  {
    var i := 0;
    while i < |r| && rank(r[i]) < rank(x)
      invariant i <= |r| && forall j :: 0 <= j < i ==> rank(r[j]) < rank(x)
    {
      i := i + 1;
    }
    r' := r[..i] + [x] + r[i..];
    InsertedElements(r, i, x);
    InsertedRises(r, i, x, rank);
  }

  lemma InsertedRises<T>(r: seq<T>, i: nat, x: T, rank: T -> nat)
    requires i <= |r| && Rising(r, rank) && forall y :: y in Elements(r) ==> rank(y) != rank(x)
    requires (forall j :: 0 <= j < i ==> rank(r[j]) < rank(x)) && (i < |r| ==> rank(r[i]) >= rank(x))
    ensures Rising(r[..i] + [x] + r[i..], rank)
  {
    forall j | i <= j < |r| ensures rank(x) < rank(r[j]) {
      assert r[i] in Elements(r);
    }
  }

  lemma InsertedElements<T>(r: seq<T>, i: nat, x: T)
    requires i <= |r|
    ensures Elements(r[..i] + [x] + r[i..]) == Elements(r) + {x}
  {
    var s := r[..i] + [x] + r[i..];
    forall y ensures y in s <==> y in r || y == x {
      if y in r {
        var j :| 0 <= j < |r| && r[j] == y;
        assert s[if j < i then j else j + 1] == y;
      }
      if y == x { assert s[i] == x; }
    }
  }

  // ---- Lists that may repeat ---------------------------------------------------------------

  predicate Ordered<T>(s: seq<T>, rank: T -> nat)
  {
    forall i, j :: 0 <= i < j < |s| ==> rank(s[i]) <= rank(s[j])
  }

  function InsertOrdered<T(==)>(s: seq<T>, x: T, rank: T -> nat): (r: seq<T>)
    ensures multiset(r) == multiset(s) + multiset{x}
  {
    if s == [] || rank(x) <= rank(s[0]) then [x] + s
    else assert s == [s[0]] + s[1..]; [s[0]] + InsertOrdered(s[1..], x, rank)
  }

  /** The list in rising order, repeats kept. */
  function InOrder<T(==)>(list: seq<T>, rank: T -> nat): (r: seq<T>)
    ensures multiset(r) == multiset(list)
  {
    if list == [] then []
    else
      var n := |list| - 1;
      assert list == list[..n] + [list[n]];
      InsertOrdered(InOrder(list[..n], rank), list[n], rank)
  }

  lemma {:induction false} InsertKeepsOrder<T>(s: seq<T>, x: T, rank: T -> nat)
    requires Ordered(s, rank)
    ensures Ordered(InsertOrdered(s, x, rank), rank)
  {
    if s != [] && rank(x) > rank(s[0]) {
      var rest := InsertOrdered(s[1..], x, rank);
      InsertKeepsOrder(s[1..], x, rank);
      forall j | 0 <= j < |rest| ensures rank(s[0]) <= rank(rest[j]) {
        assert rest[j] in multiset(rest);
        assert rest[j] == x || rest[j] in s[1..];
      }
    }
  }

  lemma {:induction false} InOrderIsOrdered<T>(list: seq<T>, rank: T -> nat)
    ensures Ordered(InOrder(list, rank), rank)
  {
    if list != [] {
      var n := |list| - 1;
      InOrderIsOrdered(list[..n], rank);
      InsertKeepsOrder(InOrder(list[..n], rank), list[n], rank);
    }
  }

  /** Sorting leaves no choice: two ordered lists of the same elements are equal. */
  lemma {:induction false} OrderedUnique<T>(a: seq<T>, b: seq<T>, rank: T -> nat)
    requires Ordered(a, rank) && Ordered(b, rank) && multiset(a) == multiset(b)
    requires forall x, y :: x in a && y in a && rank(x) == rank(y) ==> x == y
    ensures a == b
  {
    SameHead(a, b, rank);
    if a != [] {
      TailElements(a);
      TailElements(b);
      assert forall x :: x in a[1..] ==> x in a;
      OrderedUnique(a[1..], b[1..], rank);
    }
  }

  lemma SameHead<T>(a: seq<T>, b: seq<T>, rank: T -> nat)
    requires Ordered(a, rank) && Ordered(b, rank) && multiset(a) == multiset(b)
    requires forall x, y :: x in a && y in a && rank(x) == rank(y) ==> x == y
    ensures |a| == |b| && (a != [] ==> a[0] == b[0])
  {
    assert |a| == |multiset(a)| == |multiset(b)| == |b|;
    if a != [] {
      assert a[0] in multiset(b) && b[0] in multiset(a);
      assert rank(a[0]) <= rank(b[0]) && rank(b[0]) <= rank(a[0]);
    }
  }

  lemma TailElements<T>(s: seq<T>)
    requires s != []
    ensures multiset(s[1..]) == multiset(s) - multiset{s[0]}
  {
    assert s == [s[0]] + s[1..];
  }

  /** Sorting a copy of a list: the least remaining element goes next. */
  method SortOrdered<T(==)>(list: seq<T>, rank: T -> nat) returns (r: seq<T>)
    ensures Ordered(r, rank) && multiset(r) == multiset(list)
  {
    r := [];
    var rest := list;
    while rest != []
      invariant Ordered(r, rank) && multiset(r) + multiset(rest) == multiset(list)
      invariant forall i, j :: 0 <= i < |r| && 0 <= j < |rest| ==> rank(r[i]) <= rank(rest[j])
      decreases |rest|
    {
      var least := LeastIndex(rest, rank);
      RemoveAt(rest, least);
      r := r + [rest[least]];
      rest := rest[..least] + rest[least + 1..];
    }
  }

  method LeastIndex<T>(s: seq<T>, rank: T -> nat) returns (k: nat)
    requires s != []
    ensures k < |s| && forall j :: 0 <= j < |s| ==> rank(s[k]) <= rank(s[j])
  {
    k := 0;
    for i := 1 to |s|
      invariant k < i && forall j :: 0 <= j < i ==> rank(s[k]) <= rank(s[j])
    {
      if rank(s[i]) < rank(s[k]) { k := i; }
    }
  }

  lemma RemoveAt<T>(s: seq<T>, k: nat)
    requires k < |s|
    ensures multiset(s) == multiset(s[..k] + s[k + 1..]) + multiset{s[k]}
  {
    assert s == s[..k] + [s[k]] + s[k + 1..];
  }

  // ---- Merkle proofs on the wire ---------------------------------------------------------

  datatype WireProof = WireProof(siblings: seq<Block>, leaf: Bytes)

  const TREE_DEPTH: nat := 256

  function Serialize(p: WireProof): Bytes
  {
    Put(|p.siblings|, 4) + Join(p.siblings) + Put(|p.leaf|, 4) + p.leaf
  }

  function ReadLeaf(data: Bytes): Option<Bytes>
  {
    if |data| < 4 || |data| - 4 != Val(data[..4]) then None else Some(data[4..])
  }

  function ReadBlocks(data: Bytes, count: nat): (r: Option<(seq<Block>, Bytes)>)
    ensures r.Some? ==> |r.value.0| == count
  {
    if count == 0 then Some(([], data))
    else if |data| < 32 then None
    else
      var rest := ReadBlocks(data[32..], count - 1);
      if rest.None? then None else Some(([data[..32]] + rest.value.0, rest.value.1))
  }

  function Deserialize(data: Bytes): Option<WireProof>
  {
    if |data| < 4 || Val(data[..4]) > TREE_DEPTH then None
    else
      var r := ReadBlocks(data[4..], Val(data[..4]));
      if r.None? then None
      else
        var leaf := ReadLeaf(r.value.1);
        if leaf.None? then None else Some(WireProof(r.value.0, leaf.value))
  }

  lemma {:induction false} ReadBlocksExact(data: Bytes, count: nat)
    ensures ReadBlocks(data, count).Some? ==>
              data == Join(ReadBlocks(data, count).value.0) + ReadBlocks(data, count).value.1
    decreases count
  {
    if count > 0 && |data| >= 32 { ReadBlocksExact(data[32..], count - 1); }
  }

  lemma {:induction false} ReadBlocksBack(blocks: seq<Block>, tail: Bytes)
    ensures ReadBlocks(Join(blocks) + tail, |blocks|) == Some((blocks, tail))
  {
    if blocks != [] {
      var data := Join(blocks) + tail;
      assert data[..32] == blocks[0] && data[32..] == Join(blocks[1..]) + tail;
      ReadBlocksBack(blocks[1..], tail);
      assert blocks == [blocks[0]] + blocks[1..];
      assert ReadBlocks(data, |blocks|) == Some(([data[..32]] + blocks[1..], tail));
    } else {
      assert Join(blocks) + tail == tail;
    }
  }

  /** A proof survives the wire exactly when it is no deeper than the tree. */
  lemma ProofRoundTrip(p: WireProof)
    requires |p.leaf| < Pow(4) && |p.siblings| < Pow(4)
    ensures Deserialize(Serialize(p)) == if |p.siblings| <= TREE_DEPTH then Some(p) else None
  {
    var data := Serialize(p);
    var tail := Put(|p.leaf|, 4) + p.leaf;
    ValPut(|p.siblings|, 4);
    ValPut(|p.leaf|, 4);
    assert data[..4] == Put(|p.siblings|, 4) && data[4..] == Join(p.siblings) + tail;
    ReadBlocksBack(p.siblings, tail);
    assert tail[..4] == Put(|p.leaf|, 4) && tail[4..] == p.leaf;
  }

  /** The format has no slack: whatever decodes is the encoding of what it decodes to. */
  lemma DecodedIsEncoded(data: Bytes)
    requires Deserialize(data).Some?
    ensures Serialize(Deserialize(data).value) == data
  {
    var p := Deserialize(data).value;
    var count := Val(data[..4]);
    ReadBlocksExact(data[4..], count);
    var rest := ReadBlocks(data[4..], count).value.1;
    PutVal(data[..4]);
    PutVal(rest[..4]);
    assert data == data[..4] + data[4..];
    assert rest == rest[..4] + rest[4..];
  }

  method SerializeProof(p: WireProof) returns (buf: Bytes)
    ensures buf == Serialize(p)
  {
    hide Put;
    buf := Put(|p.siblings|, 4);
    for i := 0 to |p.siblings|
      invariant buf == Put(|p.siblings|, 4) + Join(p.siblings[..i])
    {
      assert p.siblings[..i + 1] == p.siblings[..i] + [p.siblings[i]];
      JoinPush(p.siblings[..i], p.siblings[i]);
      buf := buf + p.siblings[i];
    }
    assert p.siblings[..|p.siblings|] == p.siblings;
    buf := buf + Put(|p.leaf|, 4) + p.leaf;
  }

  method DeserializeProof(data: Bytes) returns (r: Option<WireProof>)
    ensures r == Deserialize(data)
  {
    hide Val;
    if |data| < 4 { return None; }
    var count := Val(data[..4]);
    if count > TREE_DEPTH { return None; }
    var rest := data[4..];
    var siblings: seq<Block> := [];
    PrependNothing(ReadBlocks(rest, count));
    for i := 0 to count
      invariant ReadBlocks(data[4..], count) == Prepend(siblings, ReadBlocks(rest, count - i))
    {
      if |rest| < 32 { return None; }
      ReadOne(siblings, rest, count - i);
      siblings := siblings + [rest[..32]];
      rest := rest[32..];
    }
    assert siblings + [] == siblings;
    var leaf := ReadLeaf(rest);
    if leaf.None? { return None; }
    return Some(WireProof(siblings, leaf.value));
  }

  function Prepend(front: seq<Block>, r: Option<(seq<Block>, Bytes)>): Option<(seq<Block>, Bytes)>
  {
    if r.None? then None else Some((front + r.value.0, r.value.1))
  }

  lemma PrependNothing(r: Option<(seq<Block>, Bytes)>)
    ensures Prepend([], r) == r
  {
    if r.Some? { assert [] + r.value.0 == r.value.0; }
  }

  lemma ReadOne(front: seq<Block>, data: Bytes, count: nat)
    requires count > 0 && |data| >= 32
    ensures Prepend(front, ReadBlocks(data, count)) == Prepend(front + [data[..32]], ReadBlocks(data[32..], count - 1))
  {
    var r := ReadBlocks(data[32..], count - 1);
    if r.Some? { assert front + ([data[..32]] + r.value.0) == front + [data[..32]] + r.value.0; }
  }
}
