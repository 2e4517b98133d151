/** Types every module shares: identifiers, 64-bit integers and the saturating
    arithmetic the consensus code prices stakes, fees and leases with. */
module Common {

  /** A 32-byte identifier read as a big-endian number, so that comparing two of
      them byte by byte is comparing the numbers. `0` is the all-zero identifier. */
  type Hash = nat

  const ZERO_HASH: Hash := 0

  datatype Option<+T> = None | Some(value: T)

  const WORD: int := 0x1_0000_0000_0000_0000
  const MAX_U64: int := WORD - 1

  type u64 = x: int | 0 <= x < WORD

  /** The 128-bit product is split into its high and low words; a non-zero high
      word means overflow. */
  function SafeMul(a: u64, b: u64): (r: u64)
    ensures r == if a * b < WORD then a * b else MAX_U64
  {
    ProductWords(a * b);
    if a == 0 || b == 0 then 0
    else if (a * b) / WORD > 0 then MAX_U64
    else (a * b) % WORD
  }

  lemma ProductWords(p: int)
    ensures p >= WORD ==> p / WORD > 0
    ensures 0 <= p < WORD ==> p / WORD == 0 && p % WORD == p
  {
  }

  /** A wrapped sum is smaller than its first operand exactly when it wrapped. */
  function SafeAdd(a: u64, b: u64): (r: u64)
    ensures r == if a + b < WORD then a + b else MAX_U64
  {
    var sum := (a + b) % WORD;
    if sum < a then MAX_U64 else sum
  }

  lemma {:induction false} SubsetSize<T>(a: set<T>, b: set<T>)
    requires a <= b
    ensures |a| <= |b|
  {
    if a != {} {
      var x :| x in a;
      SubsetSize(a - {x}, b - {x});
    }
  }

  lemma ProperSubsetSize<T>(a: set<T>, b: set<T>)
    requires a < b
    ensures |a| < |b|
  {
    var x :| x in b && x !in a;
    SubsetSize(a, b - {x});
  }

  function Elements<T>(s: seq<T>): set<T>
  {
    set x | x in s
  }

  lemma NonEmptyElements<T>(s: seq<T>)
    ensures s != [] ==> Elements(s) != {}
  {
    if s != [] { assert s[0] in Elements(s); }
  }
}
