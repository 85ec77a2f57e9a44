/**
 * SimHash fingerprints and their split into LSH bands
 * (`_hash64`, `simhash64` and `band_buckets` in find_duplicate_wording.py).
 *
 * The token hash `_hash64` (the first eight bytes of a SHA-1 digest, read
 * big-endian) is a parameter `hash` of every member that needs it.
 */
module Fingerprint {
  import opened Wrappers
  import opened Text

  const TwoTo64: int := 0x1_0000_0000_0000_0000

  /** An unsigned 64-bit value, as a Python integer. */
  type U64 = x: int | 0 <= x < TwoTo64

  /** `_hash64`: a token's 64-bit hash. */
  type Hasher = String -> U64

  function Pow2(n: nat): (p: nat)
    ensures p > 0
  {
    if n == 0 then 1 else 2 * Pow2(n - 1)
  }

  /** Bit `i` of a non-negative integer: `(x >> i) & 1 == 1`. */
  predicate Bit(x: nat, i: nat) {
    if i == 0 then x % 2 == 1 else Bit(x / 2, i - 1)
  }

  /** `x | (1 << i)` on non-negative integers. */
  function OrBit(x: nat, i: nat): (r: nat)
    ensures x <= r <= x + Pow2(i)
  {
    if Bit(x, i) then x else x + Pow2(i)
  }

  /** `OrBit` sets bit `i` and leaves every other bit as it was. */
  lemma {:induction false} OrBitBit(x: nat, i: nat, j: nat)
    ensures Bit(OrBit(x, i), j) <==> Bit(x, j) || j == i
    decreases i
  {
    if !Bit(x, i) {
      if i == 0 {
        assert x % 2 == 0;
        assert (x + 1) / 2 == x / 2;
      } else {
        assert (x + Pow2(i)) % 2 == x % 2;
        assert (x + Pow2(i)) / 2 == x / 2 + Pow2(i - 1);
        assert OrBit(x / 2, i - 1) == x / 2 + Pow2(i - 1);
        if j > 0 {
          OrBitBit(x / 2, i - 1, j - 1);
        }
      }
    }
  }

  /** The vote one token casts on bit `i`: +1 when its hash has the bit, -1
      otherwise. */
  function Ballot(h: nat, i: nat): int {
    if Bit(h, i) then 1 else -1
  }

  /** `v[i]` once every token has voted: the sum of their ballots on bit `i`. */
  function Vote(tokens: seq<String>, hash: Hasher, i: nat): int {
    if tokens == [] then 0
    else Vote(tokens[..|tokens| - 1], hash, i) + Ballot(hash(tokens[|tokens| - 1]), i)
  }

  /** The fingerprint with its low `n` bits decided: bit `i < n` is set when
      the vote on it is positive. */
  function Bits(tokens: seq<String>, hash: Hasher, n: nat): (r: nat)
    ensures r < Pow2(n)
  {
    if n == 0 then 0
    else
      var low := Bits(tokens, hash, n - 1);
      if Vote(tokens, hash, n - 1) > 0 then OrBit(low, n - 1) else low
  }

  /** The SimHash of a token list: bit `i` is set when more tokens have bit
      `i` in their hash than do not. */
  function SimHash(tokens: seq<String>, hash: Hasher): U64 {
    assert Pow2(64) == TwoTo64 by { Pow2Of64(); }
    Bits(tokens, hash, 64)
  }

  lemma {:induction false} Pow2Of64()
    ensures Pow2(64) == TwoTo64
  {
    assert Pow2(2) == 4;
    assert Pow2(4) == 16 by { Pow2Add(2, 2); }
    assert Pow2(8) == 0x100 by { Pow2Add(4, 4); }
    assert Pow2(16) == 0x1_0000 by { Pow2Add(8, 8); }
    assert Pow2(32) == 0x1_0000_0000 by { Pow2Add(16, 16); }
    assert Pow2(64) == 0x1_0000_0000 * 0x1_0000_0000 by { Pow2Add(32, 32); }
  }

  /** `simhash64` (find_duplicate_wording.py:182-194): an accumulator of 64
      counters updated in place, token by token, then the positive
      counters become the set bits. */
  method SimHash64(tokens: seq<String>, hash: Hasher) returns (out: U64)
    ensures out == SimHash(tokens, hash)
    ensures forall i :: 0 <= i < 64 ==> (Bit(out, i) <==> Vote(tokens, hash, i) > 0)
  {
    if tokens == [] {
      SimHashOfNothing(hash);
      SimHashBits(tokens, hash);
      return 0;
    }
    var v := new int[64](_ => 0);
    for k := 0 to |tokens|
      invariant forall j :: 0 <= j < 64 ==> v[j] == Vote(tokens[..k], hash, j)
    {
      var t := tokens[k];
      var hv := hash(t);
      assert tokens[..k + 1][..k] == tokens[..k];
      for i := 0 to 64
        invariant forall j :: 0 <= j < i ==> v[j] == Vote(tokens[..k + 1], hash, j)
        invariant forall j :: i <= j < 64 ==> v[j] == Vote(tokens[..k], hash, j)
      {
        v[i] := v[i] + (if Bit(hv, i) then 1 else -1);
      }
    }
    assert tokens[..|tokens|] == tokens;
    var bits: nat := 0;
    for i := 0 to 64
      invariant bits == Bits(tokens, hash, i)
    {
      if v[i] > 0 {
        bits := OrBit(bits, i);
      }
    }
    Pow2Of64();
    out := bits;
    SimHashBits(tokens, hash);
  }

  /** Bit `i` of `Bits(.., n)` is set exactly when `i < n` and the vote on
      bit `i` is positive. */
  lemma {:induction false} BitsOf(tokens: seq<String>, hash: Hasher, n: nat, i: nat)
    ensures Bit(Bits(tokens, hash, n), i) <==> i < n && Vote(tokens, hash, i) > 0
  {
    if n == 0 {
      NoBitOfZero(i);
    } else {
      BitsOf(tokens, hash, n - 1, i);
      if Vote(tokens, hash, n - 1) > 0 {
        OrBitBit(Bits(tokens, hash, n - 1), n - 1, i);
      }
    }
  }

  lemma {:induction false} NoBitOfZero(i: nat)
    ensures !Bit(0, i)
  {
    if i > 0 {
      NoBitOfZero(i - 1);
    }
  }

  /** Bit `i` of the SimHash is set if and only if the majority of the
      tokens' hashes has bit `i` set. */
  lemma {:induction false} SimHashBits(tokens: seq<String>, hash: Hasher)
    ensures forall i :: 0 <= i < 64 ==> (Bit(SimHash(tokens, hash), i) <==> Vote(tokens, hash, i) > 0)
  {
    forall i | 0 <= i < 64
      ensures Bit(SimHash(tokens, hash), i) <==> Vote(tokens, hash, i) > 0
    {
      BitsOf(tokens, hash, 64, i);
    }
  }

  /** With no token no bit wins a vote. */
  lemma {:induction false} NoVotesNoBits(hash: Hasher, n: nat)
    ensures Bits([], hash, n) == 0
  {
    if n > 0 {
      NoVotesNoBits(hash, n - 1);
    }
  }

  /** No tokens give the fingerprint 0, as the early return of the source
      does. */
  lemma {:induction false} SimHashOfNothing(hash: Hasher)
    ensures SimHash([], hash) == 0
  {
    NoVotesNoBits(hash, 64);
  }

  /** The vote over a concatenation is the sum of the votes. */
  lemma {:induction false} VoteAppend(a: seq<String>, b: seq<String>, hash: Hasher, i: nat)
    ensures Vote(a + b, hash, i) == Vote(a, hash, i) + Vote(b, hash, i)
    decreases |b|
  {
    if b != [] {
      var b' := b[..|b| - 1];
      assert (a + b)[..|a + b| - 1] == a + b';
      VoteAppend(a, b', hash, i);
    } else {
      assert a + b == a;
    }
  }

  /** The votes depend only on how many times each token occurs. */
  lemma {:induction false} VotePermutation(a: seq<String>, b: seq<String>, hash: Hasher, i: nat)
    requires multiset(a) == multiset(b)
    ensures Vote(a, hash, i) == Vote(b, hash, i)
    decreases |a|
  {
    if a != [] {
      var x := a[|a| - 1];
      var a' := a[..|a| - 1];
      assert a == a' + [x];
      assert x in multiset(b);
      var k :| 0 <= k < |b| && b[k] == x;
      var b' := b[..k] + b[k + 1..];
      MultisetRemove(a, b, k);
      VotePermutation(a', b', hash, i);
      VoteAppend(a', [x], hash, i);
      VoteWithout(b, k, hash, i);
    }
  }

  /** Taking the last token of `a` and an equal token of `b` away leaves
      equal multisets. */
  lemma {:induction false} MultisetRemove(a: seq<String>, b: seq<String>, k: nat)
    requires a != [] && multiset(a) == multiset(b)
    requires k < |b| && b[k] == a[|a| - 1]
    ensures multiset(a[..|a| - 1]) == multiset(b[..k] + b[k + 1..])
  {
    var x := b[k];
    assert a == a[..|a| - 1] + [x];
    assert b == b[..k] + [x] + b[k + 1..];
    assert multiset(b) == multiset(b[..k]) + multiset([x]) + multiset(b[k + 1..]);
    assert multiset(b[..k] + b[k + 1..]) == multiset(b[..k]) + multiset(b[k + 1..]);
    assert multiset(a) == multiset(a[..|a| - 1]) + multiset([x]);
    assert multiset(a[..|a| - 1]) == multiset(a) - multiset([x]);
    assert multiset(b[..k] + b[k + 1..]) == multiset(b) - multiset([x]);
  }

  /** The vote of `b` is that of `b` without token `k`, plus token `k`'s. */
  lemma {:induction false} VoteWithout(b: seq<String>, k: nat, hash: Hasher, i: nat)
    requires k < |b|
    ensures Vote(b, hash, i) == Vote(b[..k] + b[k + 1..], hash, i) + Vote([b[k]], hash, i)
  {
    var x := b[k];
    assert b == b[..k] + [x] + b[k + 1..];
    VoteAppend(b[..k] + [x], b[k + 1..], hash, i);
    VoteAppend(b[..k], b[k + 1..], hash, i);
    VoteAppend(b[..k], [x], hash, i);
  }

  /** Reordering the tokens does not change the fingerprint. */
  lemma {:induction false} SimHashPermutation(a: seq<String>, b: seq<String>, hash: Hasher)
    requires multiset(a) == multiset(b)
    ensures SimHash(a, hash) == SimHash(b, hash)
  {
    BitsPermutation(a, b, hash, 64);
  }

  lemma {:induction false} BitsPermutation(a: seq<String>, b: seq<String>, hash: Hasher, n: nat)
    requires multiset(a) == multiset(b)
    ensures Bits(a, hash, n) == Bits(b, hash, n)
  {
    if n > 0 {
      BitsPermutation(a, b, hash, n - 1);
      VotePermutation(a, b, hash, n - 1);
    }
  }

  // ---------------------------------------------------------------------
  // band_buckets

  /** Why `band_buckets` raises: `64 % 0` divides by zero; a `bands` whose
      remainder is not 0 is refused; a negative divisor of 64 gives a
      negative width, and `1 << width` a negative shift count. */
  datatype BandError = ZeroDivision | BandsMustDivide64 | NegativeShiftCount

  /** A bucket key: the band number and the band's bits. */
  datatype BandKey = BandKey(band: int, value: int)

  /** Python's `%` on integers: the remainder takes the sign of the divisor. */
  function PyMod(a: int, d: int): int
    requires d != 0
  {
    if d > 0 then a % d else -((-a) % (-d))
  }

  /** Python's `//`: division rounding toward negative infinity. */
  function PyDiv(a: int, d: int): int
    requires d != 0
  {
    if d > 0 then a / d else (-a) / (-d)
  }

  /** `[(b, (h >> (b * width)) & mask) for b in range(from, bands)]`. */
  function BandsFrom(h: int, width: nat, from: nat, bands: nat): (keys: seq<BandKey>)
    requires from <= bands
    ensures |keys| == bands - from
    ensures forall b :: 0 <= b < |keys| ==> keys[b] == BandKey(from + b, (h / Pow2((from + b) * width)) % Pow2(width))
    decreases bands - from
  {
    if from == bands then []
    else [BandKey(from, (h / Pow2(from * width)) % Pow2(width))] + BandsFrom(h, width, from + 1, bands)
  }

  /** `band_buckets(h, bands)` (find_duplicate_wording.py:196-201). On
      integers, `h >> s` is `h // 2**s` and `& ((1 << w) - 1)` is `% 2**w`. */
  function BandBuckets(h: int, bands: int): (r: Result<seq<BandKey>, BandError>)
    ensures r.Success? <==> bands > 0 && 64 % bands == 0
    ensures r.Failure? ==> (r.error == ZeroDivision <==> bands == 0)
    ensures r.Success? ==> |r.value| == bands
    ensures r.Success? ==> forall b :: 0 <= b < bands ==>
      r.value[b].band == b && 0 <= r.value[b].value < Pow2(64 / bands)
  {
    if bands == 0 then Failure(ZeroDivision)
    else if PyMod(64, bands) != 0 then Failure(BandsMustDivide64)
    else
      var width := PyDiv(64, bands);
      if width < 0 then Failure(NegativeShiftCount)
      else
        NegativeBandsFail(bands);
        Success(BandsFrom(h, width, 0, bands))
  }

  /** A negative `bands` never gets past the width: it either leaves a
      remainder or yields a negative width. */
  lemma {:induction false} NegativeBandsFail(bands: int)
    requires bands != 0
    ensures bands < 0 && PyMod(64, bands) == 0 ==> PyDiv(64, bands) < 0
    ensures bands > 0 ==> PyMod(64, bands) == 64 % bands && PyDiv(64, bands) == 64 / bands
  {
  }

  lemma {:induction false} Pow2Add(a: nat, b: nat)
    ensures Pow2(a + b) == Pow2(a) * Pow2(b)
    decreases a
  {
    if a > 0 {
      Pow2Add(a - 1, b);
    }
  }

  /** Euclidean division is unique. */
  lemma {:induction false} DivModUnique(x: int, d: int, q: int, r: int)
    requires d > 0 && 0 <= r < d && x == q * d + r
    ensures x / d == q && x % d == r
  {
    var q' := x / d;
    var r' := x % d;
    assert x == q' * d + r';
    if q' > q {
      MulDiff(q', q, d);
    } else if q' < q {
      MulDiff(q, q', d);
    }
  }

  /** Different quotients are at least a divisor apart. */
  lemma {:induction false} MulDiff(q: int, q': int, d: int)
    requires q > q' && d > 0
    ensures q * d - q' * d >= d
  {
    var k := q - q' - 1;
    assert q * d - q' * d == k * d + d;
    MulNonNeg(k, d);
  }

  lemma {:induction false} MulNonNeg(a: int, b: int)
    requires a >= 0 && b >= 0
    ensures a * b >= 0
  {
  }

  /** Splitting a remainder modulo `a * b` into its low and high parts. */
  lemma {:induction false} ModProduct(x: int, a: nat, b: nat)
    requires a > 0 && b > 0
    ensures x % (a * b) == x % a + ((x / a) % b) * a
  {
    var q := x / a;
    var r := x % a;
    var s := q / b;
    var t := q % b;
    assert x == q * a + r;
    assert q == s * b + t;
    assert q * a == s * (a * b) + t * a by {
      MulDistrib(s * b, t, a);
      assert (s * b) * a == s * (a * b);
    }
    assert t * a + r < a * b by {
      MulLess(t, b, a);
    }
    MulNonNeg(t, a);
    DivModUnique(x, a * b, s, t * a + r);
  }

  lemma {:induction false} MulDistrib(u: int, v: int, a: int)
    ensures (u + v) * a == u * a + v * a
  {
  }

  /** `t < b` leaves room for a whole `a` below `b * a`. */
  lemma {:induction false} MulLess(t: int, b: int, a: int)
    requires 0 <= t < b && a > 0
    ensures t * a + a <= a * b
  {
    MulNonNeg(b - t - 1, a);
    assert a * b - (t * a + a) == (b - t - 1) * a;
  }

  /** The first `n` band values put back together, value `b` weighing
      `2 ** (b * width)`. */
  function Assemble(keys: seq<BandKey>, width: nat): int {
    if keys == [] then 0
    else Assemble(keys[..|keys| - 1], width) + keys[|keys| - 1].value * Pow2((|keys| - 1) * width)
  }

  /** The first `n` bands of `h` put back together give the low `n * width`
      bits of `h`. */
  lemma {:induction false} AssembleBands(h: int, width: nat, n: nat, bands: nat)
    requires n <= bands
    ensures Assemble(BandsFrom(h, width, 0, bands)[..n], width) == h % Pow2(n * width)
  {
    var keys := BandsFrom(h, width, 0, bands);
    if n == 0 {
      assert h % 1 == 0;
    } else {
      AssembleBands(h, width, n - 1, bands);
      var p, w := Pow2((n - 1) * width), Pow2(width);
      AssembleNextBand(h, width, n, bands);
      Pow2Step(n, width);
      ModProduct(h, p, w);
    }
  }

  /** One more band adds its value at its own weight. */
  lemma {:induction false} AssembleNextBand(h: int, width: nat, n: nat, bands: nat)
    requires 0 < n <= bands
    ensures var keys := BandsFrom(h, width, 0, bands);
      Assemble(keys[..n], width)
      == Assemble(keys[..n - 1], width) + ((h / Pow2((n - 1) * width)) % Pow2(width)) * Pow2((n - 1) * width)
  {
    var keys := BandsFrom(h, width, 0, bands);
    var prefix := keys[..n];
    assert prefix[..n - 1] == keys[..n - 1];
    assert prefix[n - 1] == keys[n - 1];
  }

  lemma {:induction false} Pow2Step(n: nat, width: nat)
    requires n > 0
    ensures Pow2(n * width) == Pow2((n - 1) * width) * Pow2(width)
  {
    Pow2Add((n - 1) * width, width);
    assert (n - 1) * width + width == n * width;
  }

  /** Reassembling the bands of a 64-bit fingerprint gives it back. */
  lemma {:induction false} BandsReassemble(h: int, bands: int)
    requires 0 <= h < Pow2(64)
    requires bands > 0 && 64 % bands == 0
    ensures BandBuckets(h, bands).Success?
    ensures Assemble(BandBuckets(h, bands).value, 64 / bands) == h
  {
    var width := 64 / bands;
    NegativeBandsFail(bands);
    assert BandBuckets(h, bands) == Success(BandsFrom(h, width, 0, bands));
    AssembleAllBands(h, width, bands);
    BandsTimesWidth(bands);
    DivModUnique(h, Pow2(64), 0, h);
  }

  lemma {:induction false} BandsTimesWidth(bands: int)
    requires bands > 0 && 64 % bands == 0
    ensures bands * (64 / bands) == 64
  {
  }

  /** All the bands of `h` put back together. */
  lemma {:induction false} AssembleAllBands(h: int, width: nat, bands: nat)
    ensures Assemble(BandsFrom(h, width, 0, bands), width) == h % Pow2(bands * width)
  {
    AssembleBands(h, width, bands, bands);
    assert BandsFrom(h, width, 0, bands)[..bands] == BandsFrom(h, width, 0, bands);
  }

  /** Two 64-bit fingerprints share every band key exactly when they are
      equal. */
  lemma {:induction false} SameBandsSameHash(h: int, h': int, bands: int)
    requires 0 <= h < Pow2(64) && 0 <= h' < Pow2(64)
    requires bands > 0 && 64 % bands == 0
    ensures BandBuckets(h', bands).value == BandBuckets(h, bands).value <==> h == h'
  {
    BandsReassemble(h, bands);
    BandsReassemble(h', bands);
  }
}
