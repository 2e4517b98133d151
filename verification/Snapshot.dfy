/** The regime state a sync snapshot carries, and its canonical bytes
    (internal/consensus/regime_sync.go, epoch_accumulators.go, epoch_persist.go, eligible.go). */
module Snapshot {
  import opened Common
  import opened Wire

  const BLS_LEN: nat := 48

  datatype Holder = Holder(pubkey: Bytes, bls: Bytes, selfStake: nat, delegated: nat, jailed: bool, addr: Bytes)

  /** Nil and empty collections are the same value here; an absent holder snapshot is `[]`. */
  datatype Regime = Regime(epoch: nat, latched: bool, strictStart: nat,
                           holders: seq<Holder>, prev: seq<Holder>, next: seq<Holder>,
                           produced: set<Bytes>, eligible: set<Bytes>, prevEligible: set<Bytes>,
                           nextEligible: set<Bytes>, committed: set<Bytes>,
                           fees: map<nat, nat>, rounds: map<nat, map<Bytes, nat>>,
                           additions: seq<Bytes>, removals: set<Bytes>)

  // ---- Member sets ---------------------------------------------------------------------

  ghost function EncodeMembers(s: set<Bytes>): Bytes
  {
    Table(Canonical(s, Val))
  }

  function DecodeMembers(data: Bytes): set<Bytes>
  {
    Elements(Untable(data, 32))
  }

  predicate Hashes(s: set<Bytes>)
  {
    forall k :: k in s ==> |k| == 32
  }

  ghost predicate Keys(s: set<Bytes>)
  {
    |s| < Pow(4) && Hashes(s)
  }

  lemma KeysRank(s: set<Bytes>)
    requires forall j, k :: j in s && k in s ==> |j| == |k|
    ensures Ranks(Val, s)
  {
    forall j, k | j in s && k in s && Val(j) == Val(k) ensures j == k { ValInjective(j, k); }
  }

  lemma ListedKeys(s: set<Bytes>)
    requires Keys(s)
    ensures Untable(EncodeMembers(s), 32) == Canonical(s, Val)
  {
    var ks := Canonical(s, Val);
    CanonicalLists(s, Val);
    forall i | 0 <= i < |ks| ensures |ks[i]| == 32 { assert ks[i] in Elements(ks); }
    UntableTable(ks, 32);
  }

  lemma MembersRoundTrip(s: set<Bytes>)
    requires Keys(s)
    ensures DecodeMembers(EncodeMembers(s)) == s
  {
    ListedKeys(s);
    CanonicalLists(s, Val);
  }

  /** encodeMemberSet: however the map is iterated, the bytes are the canonical ones. */
  method EncodeMemberSet(s: set<Bytes>) returns (buf: Bytes)
    requires Hashes(s)
    ensures buf == EncodeMembers(s)
  {
    hide Put, Val, Canonical, Join, Rising, Elements;
    KeysRank(s);
    var keys := SortRising(s, Val);
    SortedIsCanonical(keys, s);
    EmptyJoin();
    buf := Put(|keys|, 4);
    for i := 0 to |keys|
      invariant buf == Put(|keys|, 4) + Join(keys[..i])
    {
      assert keys[..i + 1] == keys[..i] + [keys[i]];
      JoinPush(keys[..i], keys[i]);
      buf := buf + keys[i];
    }
    assert keys[..|keys|] == keys;
  }

  lemma EmptyJoin()
    ensures Join([]) == []
  {
  }

  lemma SortedIsCanonical(keys: seq<Bytes>, s: set<Bytes>)
    requires Ranks(Val, s) && Rising(keys, Val) && Elements(keys) == s
    ensures keys == Canonical(s, Val)
  {
    hide Val, Canonical, Rising, Elements;
    CanonicalRises(s, Val);
    CanonicalLists(s, Val);
    RisingUnique(keys, Canonical(s, Val), Val);
  }

  method DecodeMemberSet(data: Bytes) returns (s: set<Bytes>)
    ensures s == DecodeMembers(data)
  {
    s := {};
    if |data| < 4 { return; }
    var count := Val(data[..4]);
    if count == 0 || |data| < 4 + count * 32 { return; }
    ghost var all := Split(data[4..], 32, count);
    for i := 0 to count
      invariant s == Elements(all[..i])
    {
      SplitAt(data[4..], 32, count, i);
      Shifted(data, 4, i * 32, (i + 1) * 32);
      s := s + {data[4 + i * 32..4 + (i + 1) * 32]};
      assert all[..i + 1] == all[..i] + [all[i]];
      assert Elements(all[..i] + [all[i]]) == Elements(all[..i]) + {all[i]};
    }
    assert all[..count] == all;
  }

  lemma {:induction false} SplitAt(data: Bytes, size: nat, count: nat, i: nat)
    requires count * size <= |data| && i < count
    ensures 0 <= i * size <= (i + 1) * size <= |data| && Split(data, size, count)[i] == data[i * size..(i + 1) * size]
    decreases count
  {
    Offsets(size, count, i);
    Offsets(size, count, 0);
    if i > 0 {
      SplitAt(data[size..], size, count - 1, i - 1);
      Offsets(size, count, i - 1);
      Shifted(data, size, (i - 1) * size, i * size);
    }
  }

  lemma Offsets(size: nat, count: nat, i: nat)
    requires i < count
    ensures 0 <= i * size && (i + 1) * size == i * size + size && (i + 1) * size <= count * size
    ensures (count - 1) * size == count * size - size
  {
    assert (count - (i + 1)) * size >= 0;
  }

  lemma Shifted(data: Bytes, size: nat, a: nat, b: nat)
    requires size <= |data| && a <= b && b + size <= |data|
    ensures data[size..][a..b] == data[a + size..b + size]
  {
  }

  // ---- Keyed counters --------------------------------------------------------------------

  type Pair = (Bytes, nat)

  function PairRecords(ps: seq<Pair>): seq<Bytes>
  {
    seq(|ps|, i requires 0 <= i < |ps| => ps[i].0 + Put(ps[i].1, 8))
  }

  function ReadPairs(data: Bytes, width: nat): seq<Pair>
  {
    var rs := Untable(data, width + 8);
    seq(|rs|, i requires 0 <= i < |rs| => (rs[i][..width], Val(rs[i][width..])))
  }

  lemma PairsRoundTrip(ps: seq<Pair>, width: nat)
    requires |ps| < Pow(4) && forall i :: 0 <= i < |ps| ==> |ps[i].0| == width && ps[i].1 < Pow(8)
    ensures ReadPairs(Table(PairRecords(ps)), width) == ps
  {
    var rs := PairRecords(ps);
    UntableTable(rs, width + 8);
    forall i | 0 <= i < |ps| ensures (rs[i][..width], Val(rs[i][width..])) == ps[i] {
      assert rs[i][..width] == ps[i].0 && rs[i][width..] == Put(ps[i].1, 8);
      ValPut(ps[i].1, 8);
    }
  }

  /** Later records win, as writing into a map does. */
  function ToMap<T>(ps: seq<Pair>, dec: Bytes -> T): map<T, nat>
  {
    if ps == [] then map[] else var n := |ps| - 1; ToMap(ps[..n], dec)[dec(ps[n].0) := ps[n].1]
  }

  ghost function PairsOf<T(!new)>(m: map<T, nat>, enc: T -> Bytes, ks: seq<T>): seq<Pair>
    requires forall k :: k in ks ==> k in m
  {
    seq(|ks|, i requires 0 <= i < |ks| => assert ks[i] in ks; (enc(ks[i]), m[ks[i]]))
  }

  lemma {:induction false} ToMapOf<T(!new)>(m: map<T, nat>, enc: T -> Bytes, dec: Bytes -> T, ks: seq<T>)
    requires forall k :: k in ks ==> k in m && dec(enc(k)) == k
    ensures var r := ToMap(PairsOf(m, enc, ks), dec);
            r.Keys == Elements(ks) && forall k :: k in r ==> k in m && r[k] == m[k]
  {
    if ks != [] {
      var n := |ks| - 1;
      assert ks == ks[..n] + [ks[n]] && ks[n] in ks;
      ToMapOf(m, enc, dec, ks[..n]);
      assert PairsOf(m, enc, ks)[..n] == PairsOf(m, enc, ks[..n]);
    }
  }

  function Same(b: Bytes): Bytes
  {
    b
  }

  lemma SameIs(b: Bytes)
    ensures Same(b) == b
  {
  }

  function Identity(n: nat): nat
  {
    n
  }

  function Eight(n: nat): Bytes
  {
    Put(n, 8)
  }

  ghost function EncodeCounters(m: map<Bytes, nat>): Bytes
  {
    CanonicalLists(m.Keys, Val);
    Table(PairRecords(PairsOf(m, Same, Listing(m.Keys))))
  }

  ghost function Listing(s: set<Bytes>): (r: seq<Bytes>)
    ensures forall k :: k in r ==> k in s
  {
    CanonicalLists(s, Val);
    assert forall k :: k in Canonical(s, Val) ==> k in Elements(Canonical(s, Val));
    Canonical(s, Val)
  }

  ghost function Epochs(s: set<nat>): (r: seq<nat>)
    ensures forall k :: k in r ==> k in s
  {
    CanonicalLists(s, Identity);
    assert forall k :: k in Canonical(s, Identity) ==> k in Elements(Canonical(s, Identity));
    Canonical(s, Identity)
  }

  function DecodeCounters(data: Bytes): map<Bytes, nat>
  {
    ToMap(ReadPairs(data, 32), Same)
  }

  ghost function EncodeFees(m: map<nat, nat>): Bytes
  {
    Table(PairRecords(PairsOf(m, Eight, Epochs(m.Keys))))
  }

  function DecodeFees(data: Bytes): map<nat, nat>
  {
    ToMap(ReadPairs(data, 8), Val)
  }

  ghost predicate SmallCounters(m: map<Bytes, nat>)
  {
    Keys(m.Keys) && forall k :: k in m ==> m[k] < Pow(8)
  }

  ghost predicate SmallFees(m: map<nat, nat>)
  {
    |m.Keys| < Pow(4) && forall e :: e in m ==> e < Pow(8) && m[e] < Pow(8)
  }

  lemma ListingIs(s: set<Bytes>)
    ensures Listing(s) == Canonical(s, Val)
  {
  }

  lemma EpochsAre(s: set<nat>)
    ensures Epochs(s) == Canonical(s, Identity)
  {
  }

  lemma CountersRoundTrip(m: map<Bytes, nat>)
    requires SmallCounters(m)
    ensures DecodeCounters(EncodeCounters(m)) == m
  {
    hide Put, Val, Canonical, Table, PairRecords, ReadPairs, ToMap, Pow;
    var ks := Listing(m.Keys);
    CanonicalLists(m.Keys, Val);
    ListingIs(m.Keys);
    var ps := PairsOf(m, Same, ks);
    forall i | 0 <= i < |ps| ensures |ps[i].0| == 32 && ps[i].1 < Pow(8) { assert ks[i] in ks; }
    PairsRoundTrip(ps, 32);
    ToMapOf(m, Same, Same, ks);
  }

  lemma FeesRoundTrip(m: map<nat, nat>)
    requires SmallFees(m)
    ensures DecodeFees(EncodeFees(m)) == m
  {
    hide Put, Val, Canonical, Table, PairRecords, ReadPairs, ToMap, Pow;
    var ks := Epochs(m.Keys);
    CanonicalLists(m.Keys, Identity);
    EpochsAre(m.Keys);
    var ps := PairsOf(m, Eight, ks);
    forall i | 0 <= i < |ps| ensures |ps[i].0| == 8 && ps[i].1 < Pow(8) { assert ks[i] in ks; }
    forall k | k in ks ensures Val(Eight(k)) == k { ValPut(k, 8); }
    PairsRoundTrip(ps, 8);
    ToMapOf(m, Eight, Val, ks);
  }

  lemma PairsPush<T(!new)>(m: map<T, nat>, enc: T -> Bytes, ks: seq<T>, i: nat)
    requires i < |ks| && forall k :: k in ks ==> k in m
    ensures Join(PairRecords(PairsOf(m, enc, ks[..i + 1])))
            == Join(PairRecords(PairsOf(m, enc, ks[..i]))) + enc(ks[i]) + Put(m[ks[i]], 8)
  {
    hide Put, Join;
    var before, record := PairRecords(PairsOf(m, enc, ks[..i])), enc(ks[i]) + Put(m[ks[i]], 8);
    assert PairRecords(PairsOf(m, enc, ks[..i + 1])) == before + [record];
    JoinPush(before, record);
    assert Join(before) + record == Join(before) + enc(ks[i]) + Put(m[ks[i]], 8);
  }

  lemma NoPairs<T(!new)>(m: map<T, nat>, enc: T -> Bytes)
    ensures Join(PairRecords(PairsOf(m, enc, []))) == []
  {
  }

  /** encodeCounterSet: however the map is iterated, the bytes are the canonical ones. */
  method EncodeCounterSet(m: map<Bytes, nat>) returns (buf: Bytes)
    requires Hashes(m.Keys)
    ensures buf == EncodeCounters(m)
  {
    hide *;
    var keys := SortKeys(m.Keys);
    buf := Put(|keys|, 4);
    NoPairs(m, Same);
    for i := 0 to |keys|
      invariant buf == Put(|keys|, 4) + Join(PairRecords(PairsOf(m, Same, keys[..i])))
    {
      PairsPush(m, Same, keys, i);
      SameIs(keys[i]);
      buf := buf + keys[i] + Put(m[keys[i]], 8);
    }
    assert keys[..|keys|] == keys;
    CountersTable(m, keys);
  }

  /** The keys of a map in byte order, collected in any order. */
  method SortKeys(s: set<Bytes>) returns (keys: seq<Bytes>)
    requires Hashes(s)
    ensures keys == Listing(s)
  {
    hide Put, Val, Canonical, Rising, Elements;
    KeysRank(s);
    keys := SortRising(s, Val);
    SortedIsCanonical(keys, s);
    ListingIs(s);
  }

  lemma CountersTable(m: map<Bytes, nat>, keys: seq<Bytes>)
    requires keys == Listing(m.Keys)
    ensures EncodeCounters(m) == Put(|keys|, 4) + Join(PairRecords(PairsOf(m, Same, keys)))
  {
    hide Put, Join, Listing;
  }

  /** encodeEpochFees: however the map is iterated, the bytes are the canonical ones. */
  method EncodeEpochFees(m: map<nat, nat>) returns (buf: Bytes)
    ensures buf == EncodeFees(m)
  {
    hide Put, Canonical, Join, Rising, PairRecords, PairsOf, Eight;
    var epochs := SortRising(m.Keys, Identity);
    SortedEpochs(epochs, m.Keys);
    assert forall e :: e in epochs ==> e in Elements(epochs);
    buf := Put(|epochs|, 4);
    NoPairs(m, Eight);
    for i := 0 to |epochs|
      invariant buf == Put(|epochs|, 4) + Join(PairRecords(PairsOf(m, Eight, epochs[..i])))
    {
      PairsPush(m, Eight, epochs, i);
      buf := buf + Eight(epochs[i]) + Put(m[epochs[i]], 8);
    }
    assert epochs[..|epochs|] == epochs;
    CountRecords(m, Eight, epochs);
  }

  lemma CountRecords<T(!new)>(m: map<T, nat>, enc: T -> Bytes, ks: seq<T>)
    requires forall k :: k in ks ==> k in m
    ensures |PairRecords(PairsOf(m, enc, ks))| == |ks|
  {
  }

  lemma SortedEpochs(es: seq<nat>, s: set<nat>)
    requires Rising(es, Identity) && Elements(es) == s
    ensures es == Epochs(s)
  {
    CanonicalRises(s, Identity);
    CanonicalLists(s, Identity);
    EpochsAre(s);
    hide Canonical, Rising, Elements;
    RisingUnique(es, Canonical(s, Identity), Identity);
  }

  // ---- Counters per epoch ------------------------------------------------------------------

  ghost function EpochRecords(m: map<nat, map<Bytes, nat>>, es: seq<nat>): Bytes
    requires forall e :: e in es ==> e in m
  {
    if es == [] then []
    else
      assert es[0] in es;
      assert forall e :: e in es[1..] ==> e in es;
      Put(es[0], 8) + Framed(EncodeCounters(m[es[0]])) + EpochRecords(m, es[1..])
  }

  ghost function EncodeRounds(m: map<nat, map<Bytes, nat>>): Bytes
  {
    Put(|Epochs(m.Keys)|, 4) + EpochRecords(m, Epochs(m.Keys))
  }

  /** The records from `rest` on, written over `acc`; a truncated record voids them all. */
  function ReadEpochs(rest: Bytes, count: nat, acc: map<nat, map<Bytes, nat>>): map<nat, map<Bytes, nat>>
    decreases count
  {
    if count == 0 then acc
    else if |rest| < 8 then map[]
    else
      var (raw, tail) := Unframe(rest[8..]);
      var inner := DecodeCounters(raw);
      ReadEpochs(tail, count - 1, if inner == map[] then acc else acc[Val(rest[..8]) := inner])
  }

  function DecodeRounds(data: Bytes): map<nat, map<Bytes, nat>>
  {
    if |data| < 4 then map[] else ReadEpochs(data[4..], Val(data[..4]), map[])
  }

  ghost predicate SmallRounds(m: map<nat, map<Bytes, nat>>)
  {
    && |m.Keys| < Pow(4)
    && forall e :: e in m ==> e < Pow(8) && SmallCounters(m[e]) && |EncodeCounters(m[e])| < Pow(4)
  }

  /** The epochs that count anyone. */
  function NonEmpty(m: map<nat, map<Bytes, nat>>): map<nat, map<Bytes, nat>>
  {
    map e | e in m && m[e] != map[] :: m[e]
  }

  function Restrict<V>(m: map<nat, V>, es: seq<nat>): map<nat, V>
  {
    map e | e in m && e in es :: m[e]
  }

  lemma {:induction false} EpochsBack(m: map<nat, map<Bytes, nat>>, es: seq<nat>, acc: map<nat, map<Bytes, nat>>)
    requires SmallRounds(m) && forall e :: e in es ==> e in m
    ensures ReadEpochs(EpochRecords(m, es), |es|, acc) == acc + Restrict(NonEmpty(m), es)
    decreases |es|
  {
    hide SmallCounters, EncodeCounters, DecodeCounters, Put, Val, Pow, Framed, Unframe;
    if es == [] {
      assert acc + Restrict(NonEmpty(m), es) == acc;
    } else {
      var e := es[0];
      assert e in es && forall x :: x in es[1..] ==> x in es;
      EpochRecordBack(e, EncodeCounters(m[e]), EpochRecords(m, es[1..]));
      CountersRoundTrip(m[e]);
      EpochsBack(m, es[1..], if m[e] == map[] then acc else acc[e := m[e]]);
      RestrictCons(NonEmpty(m), es, acc);
    }
  }

  lemma EpochRecordBack(e: nat, blob: Bytes, tail: Bytes)
    requires e < Pow(8) && |blob| < Pow(4)
    ensures var rest := Put(e, 8) + Framed(blob) + tail;
            && |rest| >= 8 && Val(rest[..8]) == e && Unframe(rest[8..]) == (blob, tail)
  {
    hide Put, Val, Pow, Unframe;
    var rest := Put(e, 8) + Framed(blob) + tail;
    assert rest[..8] == Put(e, 8) && rest[8..] == Framed(blob) + tail;
    ValPut(e, 8);
    UnframeFramed(blob, tail);
  }

  lemma RestrictCons<V>(m: map<nat, V>, es: seq<nat>, acc: map<nat, V>)
    requires es != []
    ensures (if es[0] in m then acc[es[0] := m[es[0]]] else acc) + Restrict(m, es[1..]) == acc + Restrict(m, es)
  {
    assert forall x :: x in es <==> x == es[0] || x in es[1..];
  }

  /** The per-epoch counters survive, less the epochs that count nobody. */
  lemma RoundsRoundTrip(m: map<nat, map<Bytes, nat>>)
    requires SmallRounds(m)
    ensures DecodeRounds(EncodeRounds(m)) == NonEmpty(m)
  {
    hide *;
    var es := Epochs(m.Keys);
    CanonicalLists(m.Keys, Identity);
    EpochsAre(m.Keys);
    SmallCount(m);
    RoundsDecode(m);
    EpochsBack(m, es, map[]);
    NonEmptyKeys(m);
    RestrictAll(NonEmpty(m), es);
  }

  lemma NonEmptyKeys(m: map<nat, map<Bytes, nat>>)
    ensures NonEmpty(m).Keys <= m.Keys
  {
  }

  lemma SmallCount(m: map<nat, map<Bytes, nat>>)
    requires SmallRounds(m)
    ensures |m.Keys| < Pow(4)
  {
  }

  lemma RoundsDecode(m: map<nat, map<Bytes, nat>>)
    requires |Epochs(m.Keys)| < Pow(4)
    ensures DecodeRounds(EncodeRounds(m)) == ReadEpochs(EpochRecords(m, Epochs(m.Keys)), |Epochs(m.Keys)|, map[])
  {
    hide Put, Val, Pow, Epochs, EpochRecords, ReadEpochs;
    var es := Epochs(m.Keys);
    var data := EncodeRounds(m);
    assert data[..4] == Put(|es|, 4) && data[4..] == EpochRecords(m, es);
    ValPut(|es|, 4);
  }

  lemma RestrictAll<V>(m: map<nat, V>, es: seq<nat>)
    requires m.Keys <= Elements(es)
    ensures map[] + Restrict(m, es) == m
  {
    assert forall e :: e in m ==> e in Elements(es);
  }

  lemma {:induction false} EpochRecordsPush(m: map<nat, map<Bytes, nat>>, es: seq<nat>, e: nat)
    requires e in m && forall x :: x in es ==> x in m
    ensures EpochRecords(m, es + [e]) == EpochRecords(m, es) + Put(e, 8) + Framed(EncodeCounters(m[e]))
    decreases |es|
  {
    hide Put, Framed, EncodeCounters;
    if es == [] {
      assert (es + [e])[1..] == [];
    } else {
      assert (es + [e])[1..] == es[1..] + [e] && es[0] in es;
      EpochRecordsPush(m, es[1..], e);
    }
  }

  /** encodePerEpochCounters: however both maps are iterated, the bytes are the canonical ones. */
  method EncodePerEpochCounters(m: map<nat, map<Bytes, nat>>) returns (buf: Bytes)
    requires forall e :: e in m ==> Hashes(m[e].Keys)
    ensures buf == EncodeRounds(m)
  {
    hide Put, Canonical, Rising, Framed, EncodeCounters, Hashes, Epochs;
    var epochs := SortRising(m.Keys, Identity);
    SortedEpochs(epochs, m.Keys);
    assert forall e :: e in epochs ==> e in Elements(epochs);
    buf := Put(|epochs|, 4);
    for i := 0 to |epochs|
      invariant buf == Put(|epochs|, 4) + EpochRecords(m, epochs[..i])
    {
      var inner := EncodeCounterSet(m[epochs[i]]);
      assert epochs[..i + 1] == epochs[..i] + [epochs[i]];
      EpochRecordsPush(m, epochs[..i], epochs[i]);
      buf := buf + Put(epochs[i], 8) + Framed(inner);
    }
    assert epochs[..|epochs|] == epochs;
  }

  // ---- Hash lists ---------------------------------------------------------------------------

  function EncodeList(list: seq<Bytes>): Bytes
  {
    Table(InOrder(list, Val))
  }

  /** encodeHashList: a copy is sorted, by whatever algorithm, and repeats are kept. */
  method EncodeHashList(list: seq<Bytes>) returns (buf: Bytes)
    requires Hashes(Elements(list))
    ensures buf == EncodeList(list)
  {
    hide Put, Val, Join, Ordered, InOrder;
    var sorted := SortOrdered(list, Val);
    SortedIsInOrder(sorted, list);
    EmptyJoin();
    buf := Put(|sorted|, 4);
    for i := 0 to |sorted|
      invariant buf == Put(|sorted|, 4) + Join(sorted[..i])
    {
      assert sorted[..i + 1] == sorted[..i] + [sorted[i]];
      JoinPush(sorted[..i], sorted[i]);
      buf := buf + sorted[i];
    }
    assert sorted[..|sorted|] == sorted;
  }

  lemma SortedIsInOrder(sorted: seq<Bytes>, list: seq<Bytes>)
    requires Hashes(Elements(list)) && Ordered(sorted, Val) && multiset(sorted) == multiset(list)
    ensures sorted == InOrder(list, Val)
  {
    hide Val, Ordered, InOrder;
    InOrderIsOrdered(list, Val);
    forall x, y | x in sorted && y in sorted && Val(x) == Val(y) ensures x == y {
      ListMember(sorted, list, x);
      ListMember(sorted, list, y);
      ValInjective(x, y);
    }
    OrderedUnique(sorted, InOrder(list, Val), Val);
  }

  lemma ListMember(a: seq<Bytes>, b: seq<Bytes>, x: Bytes)
    requires multiset(a) == multiset(b) && x in a
    ensures x in Elements(b)
  {
    assert x in multiset(a);
  }

  /** A hash list comes back in key order, each element as often as it was listed. */
  lemma ListRoundTrip(list: seq<Bytes>)
    requires |list| < Pow(4) && Hashes(Elements(list))
    ensures Untable(EncodeList(list), 32) == InOrder(list, Val)
    ensures multiset(InOrder(list, Val)) == multiset(list)
  {
    hide Val, InOrder, Pow;
    var sorted := InOrder(list, Val);
    assert |sorted| == |multiset(sorted)| == |list|;
    forall i | 0 <= i < |sorted| ensures |sorted[i]| == 32 { ListMember(sorted, list, sorted[i]); }
    UntableTable(sorted, 32);
  }

  // ---- Holder snapshots ---------------------------------------------------------------------

  function HolderBytes(h: Holder): Bytes
  {
    h.pubkey + h.bls + Put(h.selfStake, 8) + Put(h.delegated, 8)
    + [if h.jailed then 1 else 0] + Put(|h.addr|, 2) + h.addr
  }

  function HoldersBytes(hs: seq<Holder>): Bytes
  {
    if hs == [] then [] else HolderBytes(hs[0]) + HoldersBytes(hs[1..])
  }

  function EncodeHolders(hs: seq<Holder>): Bytes
  {
    Put(|hs|, 4) + HoldersBytes(hs)
  }

  const FIXED: nat := 32 + BLS_LEN + 8 + 8 + 1 + 2

  function ReadHolder(data: Bytes): Option<(Holder, Bytes)>
  {
    if |data| < FIXED then None
    else
      var n := Val(data[FIXED - 2..FIXED]);
      if |data| < FIXED + n then None
      else Some((Holder(data[..32], data[32..80], Val(data[80..88]), Val(data[88..96]), data[96] != 0,
                        data[FIXED..FIXED + n]), data[FIXED + n..]))
  }

  /** A truncated record ends the snapshot. */
  function ReadHolders(data: Bytes, count: nat): seq<Holder>
    decreases count
  {
    if count == 0 then []
    else
      var r := ReadHolder(data);
      if r.None? then [] else [r.value.0] + ReadHolders(r.value.1, count - 1)
  }

  function DecodeHolders(data: Bytes): seq<Holder>
  {
    if |data| < 4 then [] else ReadHolders(data[4..], Val(data[..4]))
  }

  ghost predicate SmallHolder(h: Holder)
  {
    |h.pubkey| == 32 && |h.bls| == BLS_LEN && h.selfStake < Pow(8) && h.delegated < Pow(8) && |h.addr| < Pow(2)
  }

  lemma HolderBack(h: Holder, tail: Bytes)
    requires SmallHolder(h)
    ensures ReadHolder(HolderBytes(h) + tail) == Some((h, tail))
  {
    hide Put, Val, Pow;
    var data := HolderBytes(h) + tail;
    HolderLayout(h, tail);
    ValPut(h.selfStake, 8);
    ValPut(h.delegated, 8);
    ValPut(|h.addr|, 2);
  }

  lemma HolderLayout(h: Holder, tail: Bytes)
    requires |h.pubkey| == 32 && |h.bls| == BLS_LEN
    ensures var data := HolderBytes(h) + tail;
            && |data| == FIXED + |h.addr| + |tail|
            && data[..32] == h.pubkey && data[32..80] == h.bls && data[80..88] == Put(h.selfStake, 8)
            && data[88..96] == Put(h.delegated, 8) && data[96] == (if h.jailed then 1 else 0)
            && data[FIXED - 2..FIXED] == Put(|h.addr|, 2)
            && data[FIXED..FIXED + |h.addr|] == h.addr && data[FIXED + |h.addr|..] == tail
  {
    hide Put;
  }

  lemma {:induction false} HoldersBack(hs: seq<Holder>)
    requires forall i :: 0 <= i < |hs| ==> SmallHolder(hs[i])
    ensures ReadHolders(HoldersBytes(hs), |hs|) == hs
  {
    if hs != [] {
      HolderBack(hs[0], HoldersBytes(hs[1..]));
      HoldersBack(hs[1..]);
    }
  }

  lemma HoldersRoundTrip(hs: seq<Holder>)
    requires |hs| < Pow(4) && forall i :: 0 <= i < |hs| ==> SmallHolder(hs[i])
    ensures DecodeHolders(EncodeHolders(hs)) == hs
  {
    ValPut(|hs|, 4);
    var data := EncodeHolders(hs);
    assert data[..4] == Put(|hs|, 4) && data[4..] == HoldersBytes(hs);
    HoldersBack(hs);
  }

  // ---- The whole regime ------------------------------------------------------------------------

  /** The length-prefixed blobs of a regime, in wire order. */
  ghost function Blobs(r: Regime): (bs: seq<Bytes>)
    ensures |bs| == 12
  {
    [EncodeHolders(r.holders), EncodeHolders(r.prev), EncodeHolders(r.next),
     EncodeMembers(r.produced), EncodeMembers(r.eligible), EncodeMembers(r.prevEligible), EncodeMembers(r.nextEligible),
     EncodeMembers(r.committed), EncodeFees(r.fees), EncodeRounds(r.rounds),
     EncodeList(r.additions), EncodeMembers(r.removals)]
  }

  function FramedAll(bs: seq<Bytes>): Bytes
  {
    if bs == [] then [] else Framed(bs[0]) + FramedAll(bs[1..])
  }

  ghost function EncodeRegime(r: Regime): Bytes
  {
    Put(r.epoch, 8) + [if r.latched then 1 else 0] + Put(r.strictStart, 8) + FramedAll(Blobs(r))
  }

  function UnframeAll(data: Bytes, count: nat): (bs: seq<Bytes>)
    ensures |bs| == count
    decreases count
  {
    if count == 0 then [] else var (b, rest) := Unframe(data); [b] + UnframeAll(rest, count - 1)
  }

  /** applyRegimeState over whatever regime the node had. Too short a blob is ignored, and an
      accumulator that decodes as empty keeps the bucket that was there. */
  function ApplyRegime(prior: Regime, blob: Bytes): Regime
  {
    if |blob| < 17 then prior
    else
      var bs := UnframeAll(blob[17..], 12);
      var fees, rounds := DecodeFees(bs[8]), DecodeRounds(bs[9]);
      var additions, removals := Untable(bs[10], 32), DecodeMembers(bs[11]);
      Regime(Val(blob[..8]), blob[8] != 0, Val(blob[9..17]),
             DecodeHolders(bs[0]), DecodeHolders(bs[1]), DecodeHolders(bs[2]),
             DecodeMembers(bs[3]), DecodeMembers(bs[4]), DecodeMembers(bs[5]), DecodeMembers(bs[6]),
             DecodeMembers(bs[7]),
             if fees == map[] then prior.fees else fees, if rounds == map[] then prior.rounds else rounds,
             if additions == [] then prior.additions else additions,
             if removals == {} then prior.removals else removals)
  }

  lemma {:induction false} UnframeAllBack(bs: seq<Bytes>)
    requires forall i :: 0 <= i < |bs| ==> |bs[i]| < Pow(4)
    ensures UnframeAll(FramedAll(bs), |bs|) == bs
  {
    if bs != [] {
      UnframeFramed(bs[0], FramedAll(bs[1..]));
      UnframeAllBack(bs[1..]);
    }
  }

  ghost predicate SmallHolders(hs: seq<Holder>)
  {
    |hs| < Pow(4) && forall i :: 0 <= i < |hs| ==> SmallHolder(hs[i])
  }

  /** Every field fits the width the format gives it. */
  ghost predicate Fits(r: Regime)
  {
    && r.epoch < Pow(8) && r.strictStart < Pow(8)
    && SmallHolders(r.holders) && SmallHolders(r.prev) && SmallHolders(r.next)
    && Keys(r.produced) && Keys(r.eligible) && Keys(r.prevEligible) && Keys(r.nextEligible) && Keys(r.committed)
    && SmallFees(r.fees) && SmallRounds(r.rounds)
    && |r.additions| < Pow(4) && Hashes(Elements(r.additions)) && Keys(r.removals)
    && forall i :: 0 <= i < 12 ==> |Blobs(r)[i]| < Pow(4)
  }

  lemma HeaderBack(r: Regime, tail: Bytes)
    requires r.epoch < Pow(8) && r.strictStart < Pow(8)
    ensures var data := Put(r.epoch, 8) + [if r.latched then 1 else 0] + Put(r.strictStart, 8) + tail;
            && |data| >= 17 && Val(data[..8]) == r.epoch && (data[8] != 0 <==> r.latched)
            && Val(data[9..17]) == r.strictStart && data[17..] == tail
  {
    var data := Put(r.epoch, 8) + [if r.latched then 1 else 0] + Put(r.strictStart, 8) + tail;
    ValPut(r.epoch, 8);
    ValPut(r.strictStart, 8);
    assert data[..8] == Put(r.epoch, 8) && data[9..17] == Put(r.strictStart, 8);
  }

  /** A regime as its bytes tell it: additions in key order, no epoch that counts nobody. */
  function Told(r: Regime): Regime
  {
    r.(rounds := NonEmpty(r.rounds), additions := InOrder(r.additions, Val))
  }

  /** Wherever the exporter's accumulator is empty the joiner's was empty too. */
  predicate NoStaleBucket(prior: Regime, r: Regime)
  {
    && (r.fees == map[] ==> prior.fees == map[])
    && (NonEmpty(r.rounds) == map[] ==> prior.rounds == map[])
    && (r.additions == [] ==> prior.additions == [])
    && (r.removals == {} ==> prior.removals == {})
  }

  /** A joiner that applies the exported bytes holds exactly the exporter's regime if and only
      if it kept no accumulator of its own where the exporter's was empty. */
  lemma RegimeRoundTrip(prior: Regime, r: Regime)
    requires Fits(r)
    ensures ApplyRegime(prior, EncodeRegime(r)) == Told(r) <==> NoStaleBucket(prior, r)
    ensures multiset(Told(r).additions) == multiset(r.additions)
  {
    hide NonEmpty, InOrder, Fits, EncodeRegime, ApplyRegime;
    RegimeApplied(prior, r);
    InOrderEmpty(r.additions);
  }

  lemma InOrderEmpty(list: seq<Bytes>)
    ensures InOrder(list, Val) == [] <==> list == []
  {
    hide InOrder;
    assert |InOrder(list, Val)| == |multiset(InOrder(list, Val))| == |list|;
  }

  lemma RegimeApplied(prior: Regime, r: Regime)
    requires Fits(r)
    ensures var told := Told(r);
            ApplyRegime(prior, EncodeRegime(r))
            == told.(fees := if told.fees == map[] then prior.fees else told.fees,
                     rounds := if told.rounds == map[] then prior.rounds else told.rounds,
                     additions := if told.additions == [] then prior.additions else told.additions,
                     removals := if told.removals == {} then prior.removals else told.removals)
  {
    hide EncodeHolders, EncodeMembers, EncodeFees, EncodeRounds, EncodeList, DecodeHolders, DecodeMembers, DecodeFees,
      DecodeRounds, Untable, Keys, Hashes, SmallHolders, SmallFees, SmallRounds, NonEmpty, InOrder, Elements,
      Put, Val, Pow, Unframe, Framed;
    var bs := Blobs(r);
    HeaderBack(r, FramedAll(bs));
    UnframeAllBack(bs);
    HolderBlobs(r);
    MembersRoundTrip(r.produced);
    MembersRoundTrip(r.eligible);
    MembersRoundTrip(r.prevEligible);
    MembersRoundTrip(r.nextEligible);
    MembersRoundTrip(r.committed);
    FeesRoundTrip(r.fees);
    RoundsRoundTrip(r.rounds);
    ListRoundTrip(r.additions);
    MembersRoundTrip(r.removals);
  }

  lemma HolderBlobs(r: Regime)
    requires SmallHolders(r.holders) && SmallHolders(r.prev) && SmallHolders(r.next)
    ensures DecodeHolders(EncodeHolders(r.holders)) == r.holders
    ensures DecodeHolders(EncodeHolders(r.prev)) == r.prev
    ensures DecodeHolders(EncodeHolders(r.next)) == r.next
  {
    HoldersRoundTrip(r.holders);
    HoldersRoundTrip(r.prev);
    HoldersRoundTrip(r.next);
  }

  // ---- Exporting ---------------------------------------------------------------------------

  /** encodeHolderSnapshot: the records one after the other. */
  method EncodeHolderSnapshot(hs: seq<Holder>) returns (buf: Bytes)
    ensures buf == EncodeHolders(hs)
  {
    hide Put, HolderBytes;
    buf := Put(|hs|, 4);
    for i := 0 to |hs|
      invariant buf == Put(|hs|, 4) + HoldersBytes(hs[..i])
    {
      assert hs[..i + 1] == hs[..i] + [hs[i]];
      HoldersPush(hs[..i], hs[i]);
      buf := buf + HolderBytes(hs[i]);
    }
    assert hs[..|hs|] == hs;
  }

  lemma {:induction false} HoldersPush(hs: seq<Holder>, h: Holder)
    ensures HoldersBytes(hs + [h]) == HoldersBytes(hs) + HolderBytes(h)
  {
    hide HolderBytes;
    if hs == [] {
      assert (hs + [h])[1..] == [];
    } else {
      assert (hs + [h])[1..] == hs[1..] + [h];
      HoldersPush(hs[1..], h);
    }
  }

  /** Keys are 32 bytes long, as their type says. */
  predicate HashKeyed(r: Regime)
  {
    && Hashes(r.produced) && Hashes(r.eligible) && Hashes(r.prevEligible) && Hashes(r.nextEligible)
    && Hashes(r.committed) && Hashes(r.removals) && Hashes(Elements(r.additions))
    && forall e :: e in r.rounds ==> Hashes(r.rounds[e].Keys)
  }

  /** The holder and member blobs of encodeRegimeState. */
  method EncodeCommittee(r: Regime) returns (bs: seq<Bytes>)
    requires HashKeyed(r)
    ensures bs == Blobs(r)[..8]
  {
    hide EncodeHolders, EncodeMembers, EncodeFees, EncodeRounds, EncodeList, Hashes;
    var holders := EncodeHolderSnapshot(r.holders);
    var prev := EncodeHolderSnapshot(r.prev);
    var next := EncodeHolderSnapshot(r.next);
    var produced := EncodeMemberSet(r.produced);
    var eligible := EncodeMemberSet(r.eligible);
    var prevEligible := EncodeMemberSet(r.prevEligible);
    var nextEligible := EncodeMemberSet(r.nextEligible);
    var committed := EncodeMemberSet(r.committed);
    bs := [holders, prev, next, produced, eligible, prevEligible, nextEligible, committed];
  }

  /** The blobs of appendEpochAccumulators. */
  method EncodeAccumulators(r: Regime) returns (bs: seq<Bytes>)
    requires HashKeyed(r)
    ensures bs == Blobs(r)[8..]
  {
    hide EncodeHolders, EncodeMembers, EncodeFees, EncodeRounds, EncodeList, Hashes;
    var fees := EncodeEpochFees(r.fees);
    var rounds := EncodePerEpochCounters(r.rounds);
    var additions := EncodeHashList(r.additions);
    var removals := EncodeMemberSet(r.removals);
    bs := [fees, rounds, additions, removals];
  }

  /** encodeRegimeState: whatever order the node's maps are iterated in and whatever order its
      additions were recorded in, the bytes are a function of the regime alone. */
  method EncodeRegimeState(r: Regime) returns (buf: Bytes)
    requires HashKeyed(r)
    ensures buf == EncodeRegime(r)
    ensures forall s: Regime :: s == r.(additions := s.additions) && multiset(s.additions) == multiset(r.additions) ==>
              buf == EncodeRegime(s)
  {
    hide Put, Framed, HashKeyed, Blobs;
    var committee := EncodeCommittee(r);
    var accumulators := EncodeAccumulators(r);
    var bs := committee + accumulators;
    assert bs == Blobs(r);
    buf := Put(r.epoch, 8) + [if r.latched then 1 else 0] + Put(r.strictStart, 8);
    ghost var header := buf;
    assert FramedAll([]) == [];
    for i := 0 to |bs|
      invariant buf == header + FramedAll(bs[..i])
    {
      assert bs[..i + 1] == bs[..i] + [bs[i]];
      FramedPush(bs[..i], bs[i]);
      buf := buf + Framed(bs[i]);
    }
    assert bs[..|bs|] == bs;
    forall s: Regime | s == r.(additions := s.additions) && multiset(s.additions) == multiset(r.additions)
      ensures EncodeRegime(s) == buf
    {
      OrderIsForgotten(r, s);
    }
  }

  lemma {:induction false} FramedPush(bs: seq<Bytes>, b: Bytes)
    ensures FramedAll(bs + [b]) == FramedAll(bs) + Framed(b)
  {
    hide Framed;
    if bs == [] {
      assert (bs + [b])[1..] == [];
    } else {
      assert (bs + [b])[1..] == bs[1..] + [b];
      FramedPush(bs[1..], b);
    }
  }

  /** Nodes that recorded the same additions in different orders export the same bytes. */
  lemma OrderIsForgotten(r: Regime, s: Regime)
    requires HashKeyed(r) && s == r.(additions := s.additions) && multiset(s.additions) == multiset(r.additions)
    ensures EncodeRegime(s) == EncodeRegime(r)
  {
    hide Put, Framed, FramedAll, EncodeHolders, EncodeMembers, EncodeFees, EncodeRounds, Hashes, InOrder, Val;
    InOrderIsOrdered(s.additions, Val);
    SortedIsInOrder(InOrder(s.additions, Val), r.additions);
  }

  // ---- A bucket that survives ----------------------------------------------------------------

  /** A validator with one staked unit and no address on record. */
  function Founder(key: Bytes): Holder
  {
    Holder(key, seq(BLS_LEN, _ => 0), 1, 0, false, [])
  }

  /** A one-validator chain with nothing left to settle. */
  function Idle(key: Bytes, epoch: nat): Regime
  {
    var hs := [Founder(key)];
    Regime(epoch, true, 1, hs, hs, hs, {key}, {key}, {key}, {key}, {key}, map[], map[], [], {})
  }

  /** A node stopped in epoch 4, with the fees and liveness of epoch 3 unsettled, keeps that
      bucket through a sync from a peer in epoch 9 whose last two epochs committed nothing. */
  lemma StaleBucketSurvives(key: Bytes)
    requires |key| == 32
    ensures var prior := Idle(key, 4).(fees := map[3 := 7], rounds := map[3 := map[key := 2]]);
            ApplyRegime(prior, EncodeRegime(Idle(key, 9)))
            == Idle(key, 9).(fees := map[3 := 7], rounds := map[3 := map[key := 2]])
  {
    hide EncodeRegime, ApplyRegime, Fits;
    IdleFits(key, 9);
    RegimeApplied(Idle(key, 4).(fees := map[3 := 7], rounds := map[3 := map[key := 2]]), Idle(key, 9));
    assert Told(Idle(key, 9)) == Idle(key, 9);
  }

  lemma IdleFits(key: Bytes, epoch: nat)
    requires |key| == 32 && epoch < 256
    ensures Fits(Idle(key, epoch))
  {
    hide Pow, EncodeHolders, EncodeMembers, EncodeFees, EncodeRounds, EncodeList, HolderBytes;
    Wide(2);
    Wide(4);
    Wide(8);
    FounderBlob(key);
    MemberBlob(key);
    EmptyBlobs();
  }

  lemma Wide(w: nat)
    requires w > 0
    ensures Pow(w) >= 256
  {
    if w > 1 { Wide(w - 1); }
  }

  lemma FounderBlob(key: Bytes)
    requires |key| == 32
    ensures |EncodeHolders([Founder(key)])| == 103
  {
    hide Put;
    var hs := [Founder(key)];
    assert |HolderBytes(hs[0])| == FIXED;
    assert hs[1..] == [] && HoldersBytes(hs[1..]) == [];
    assert HoldersBytes(hs) == HolderBytes(hs[0]) + HoldersBytes(hs[1..]);
  }

  lemma MemberBlob(key: Bytes)
    requires |key| == 32
    ensures |EncodeMembers({key})| == 36
  {
    hide Put, Val, Canonical;
    CanonicalLists({key}, Val);
    var ks := Canonical({key}, Val);
    assert ks[0] in Elements(ks);
    assert ks == [key] && ks[1..] == [];
    EmptyJoin();
    assert Join(ks) == ks[0] + Join(ks[1..]);
  }

  lemma EmptyBlobs()
    ensures |EncodeMembers({})| == 4 && |EncodeFees(map[])| == 4
    ensures |EncodeRounds(map[])| == 4 && |EncodeList([])| == 4
  {
    hide Put;
  }
}
