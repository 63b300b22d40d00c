/**
 * The deterministic per-member shuffle behind every bingo board: a Fisher–Yates pass over
 * the identity array, driven by a 32-bit integer mixer whose state is seeded from the
 * member id. JavaScript's `Math.imul` is `bv32` multiplication, `>>>` a logical shift,
 * `|` and `^` bitwise operations on the 32-bit pattern, and `s ^= s + t` a 32-bit add
 * followed by an exclusive or.
 */
module BingoShuffle {

  /** `[0, 1, ..., n - 1]`, the array `Array.from({ length }, (_, i) => i)`. */
  function Identity(n: nat): (r: seq<nat>)
    ensures |r| == n && forall k :: 0 <= k < n ==> r[k] == k
  {
    seq(n, k => k)
  }

  /** `s` lists each of `0..n-1` exactly once. */
  ghost predicate IsPermutation(s: seq<nat>, n: nat) {
    && |s| == n
    && multiset(s) == multiset(Identity(n))
    && (forall k :: 0 <= k < n ==> s[k] < n)
    && (forall a, b :: 0 <= a < b < n ==> s[a] != s[b])
  }

  /** `x | 0`: the low 32 bits of an integer (ToInt32 keeps the bit pattern modulo 2^32). */
  function Low32(x: int): bv32 {
    (x % 0x1_0000_0000) as bv32
  }

  /** Integers that differ by a multiple of 2^32 have the same low 32 bits. */
  lemma Low32Periodic(x: int, q: int)
    ensures Low32(x + q * 0x1_0000_0000) == Low32(x)
  {
    assert (x + q * 0x1_0000_0000) % 0x1_0000_0000 == x % 0x1_0000_0000;
  }

  /** `Math.imul(seed | 0, 1) || 1`: the seed's bit pattern, with 0 replaced by 1. */
  function InitialState(seed: int): (s: bv32)
    ensures s != 0
    ensures Low32(seed) != 0 ==> s == Low32(seed)
  {
    var s := Low32(seed) * 1;
    if s == 0 then 1 else s
  }

  /** The two state updates of `next()`: `s = Math.imul(s ^ (s >>> 15), s | 1); s ^= s + Math.imul(...)`. */
  function Mix(s: bv32): bv32 {
    var a := (s ^ (s >> 15)) * (s | 1);
    a ^ (a + (a ^ (a >> 7)) * (a | 61))
  }

  /** One call of `next()`: the new state and the unsigned output `(s ^ (s >>> 14)) >>> 0`. */
  function Next(s: bv32): (bv32, bv32) {
    var b := Mix(s);
    (b, b ^ (b >> 14))
  }

  /** The output `b ^ (b >>> 14)` determines the state `b`: xoring in its shifts by 14 and 28 undoes it. */
  lemma OutputDeterminesState(b: bv32)
    ensures var o := b ^ (b >> 14); b == o ^ (o >> 14) ^ (o >> 28)
  {
    ShiftTwice(b);
    HighBitsKept(b);
    XorCancel(b, b >> 28);
  }

  lemma ShiftTwice(b: bv32)
    ensures var o := b ^ (b >> 14); o ^ (o >> 14) == b ^ (b >> 28)
  {
  }

  lemma HighBitsKept(b: bv32)
    ensures (b ^ (b >> 14)) >> 28 == b >> 28
  {
  }

  lemma XorCancel(x: bv32, y: bv32)
    ensures (x ^ y) ^ y == x
  {
  }

  /** `j = next() % (i + 1)`: the partner index of step `i`; it lies in `[0, i]`. */
  function SwapIndex(output: bv32, i: nat): (j: nat)
    ensures j <= i
  {
    output as int % (i + 1)
  }

  /** `[arr[i], arr[j]] = [arr[j], arr[i]]`. */
  function Swap(arr: seq<nat>, i: nat, j: nat): (r: seq<nat>)
    requires i < |arr| && j < |arr|
    ensures |r| == |arr|
  {
    arr[i := arr[j]][j := arr[i]]
  }

  /** The rest of the loop `for (let i = ...; i > 0; i--)` from index `i` in state `s`. */
  function ShuffleFrom(arr: seq<nat>, i: int, s: bv32): (r: seq<nat>)
    requires i < |arr|
    ensures |r| == |arr|
    decreases i
  {
    if i <= 0 then arr
    else
      var (s', output) := Next(s);
      ShuffleFrom(Swap(arr, i, SwapIndex(output, i)), i - 1, s')
  }

  /** `seededShuffle(length, seed)` as a value. */
  function Shuffle(length: nat, seed: int): (r: seq<nat>)
    ensures |r| == length
  {
    ShuffleFrom(Identity(length), length - 1, InitialState(seed))
  }

  lemma SwapMultiset(arr: seq<nat>, i: nat, j: nat)
    requires i < |arr| && j < |arr|
    ensures multiset(Swap(arr, i, j)) == multiset(arr)
  {
    var r1 := arr[i := arr[j]];
    assert multiset(r1) == multiset(arr) - multiset{arr[i]} + multiset{arr[j]};
    if i != j {
      assert r1[j] == arr[j];
      assert multiset(r1[j := arr[i]]) == multiset(r1) - multiset{arr[j]} + multiset{arr[i]};
    }
  }

  lemma SwapPermutation(arr: seq<nat>, n: nat, i: nat, j: nat)
    requires IsPermutation(arr, n) && i < n && j < n
    ensures IsPermutation(Swap(arr, i, j), n)
  {
    SwapMultiset(arr, i, j);
    var r := Swap(arr, i, j);
    forall a, b | 0 <= a < b < n ensures r[a] != r[b] {
      var a' := if a == i then j else if a == j then i else a;
      var b' := if b == i then j else if b == j then i else b;
      assert r[a] == arr[a'] && r[b] == arr[b'];
      assert a' != b';
    }
  }

  lemma {:induction false} ShuffleFromPermutation(arr: seq<nat>, n: nat, i: int, s: bv32)
    requires IsPermutation(arr, n) && i < n
    ensures IsPermutation(ShuffleFrom(arr, i, s), n)
    decreases i
  {
    if i > 0 {
      var (s', output) := Next(s);
      SwapPermutation(arr, n, i, SwapIndex(output, i));
      ShuffleFromPermutation(Swap(arr, i, SwapIndex(output, i)), n, i - 1, s');
    }
  }

  /** For every length and seed the shuffle lists each of `0..length-1` exactly once. */
  lemma ShuffleIsPermutation(length: nat, seed: int)
    ensures IsPermutation(Shuffle(length, seed), length)
    ensures forall v :: 0 <= v < length ==> v in Shuffle(length, seed)
  {
    ShuffleFromPermutation(Identity(length), length, length - 1, InitialState(seed));
    var r := Shuffle(length, seed);
    forall v | 0 <= v < length ensures v in r {
      assert Identity(length)[v] == v;
      assert v in multiset(Identity(length));
      assert v in multiset(r);
    }
  }

  /** Seed 0 is replaced by 1, so members 0 and 1 get the same order. */
  lemma SeedZeroActsAsOne(length: nat)
    ensures Shuffle(length, 0) == Shuffle(length, 1)
  {
    assert InitialState(0) == 1 == InitialState(1);
  }

  /** Only the seed's low 32 bits matter: ids 2^32 apart get the same order. */
  lemma SeedModulo32(length: nat, seed: int)
    ensures Shuffle(length, seed) == Shuffle(length, seed + 0x1_0000_0000)
  {
    assert (seed + 0x1_0000_0000) % 0x1_0000_0000 == seed % 0x1_0000_0000;
    assert InitialState(seed) == InitialState(seed + 0x1_0000_0000);
  }

  /** One turn of the loop: swap index `i` with its drawn partner, then go on from `i - 1`. */
  lemma ShuffleStep(arr: seq<nat>, i: nat, s: bv32)
    requires 0 < i < |arr|
    ensures var (s', output) := Next(s);
      ShuffleFrom(arr, i, s) == ShuffleFrom(Swap(arr, i, SwapIndex(output, i)), i - 1, s')
  {
  }

  /**
   * `seededShuffle(length, seed)`: fills an array with the identity and swaps from the top
   * index down, drawing each partner index from the mixer.
   */
  method SeededShuffle(length: nat, seed: int) returns (order: seq<nat>)
    ensures order == Shuffle(length, seed)
    ensures IsPermutation(order, length)
  {
    var arr := new nat[length](k => k);
    assert arr[..] == Identity(length);
    var s := InitialState(seed);
    var i: int := length - 1;
    while i > 0
      invariant -1 <= i < length
      invariant ShuffleFrom(arr[..], i, s) == Shuffle(length, seed)
      invariant IsPermutation(arr[..], length)
      decreases i
    {
      var before := arr[..];
      var (s', output) := Next(s);
      var j := SwapIndex(output, i);
      ShuffleStep(before, i, s);
      SwapPermutation(before, length, i, j);
      arr[i], arr[j] := arr[j], arr[i];
      assert arr[..] == Swap(before, i, j);
      s := s';
      i := i - 1;
    }
    order := arr[..];
  }
}
