/** The Internet checksum of RFC 1071 (src/checksum.rs): its definition by one's complement
    addition, the wide-lane production form, and three narrower forms. */
module Checksum {
  import opened SeqSpace
  import opened Wire

  const U64: int := 0x1_0000_0000_0000_0000
  const U128: int := 0x1_0000_0000_0000_0000_0000_0000_0000_0000
  const ISIZE_MAX: int := 0x7FFF_FFFF_FFFF_FFFF

  type u64 = x: int | 0 <= x < 0x1_0000_0000_0000_0000
  type u128 = x: int | 0 <= x < 0x1_0000_0000_0000_0000_0000_0000_0000_0000

  // ---------------------------------------------------------------------------------------------
  // Definition (section 1 of RFC 1071)

  function Word(hi: u8, lo: u8): u16 { hi * 0x100 + lo }

  /** One's complement addition of 16-bit words: the carry comes back in at the low end. */
  function OnesAdd(a: u16, b: u16): u16 {
    if a + b > 0xFFFF then a + b - 0xFFFF else a + b
  }

  /** The one's complement sum of the 16-bit words of `data`, an odd last byte padded with zero. */
  function OnesSum(data: Bytes): u16 {
    if data == [] then 0
    else if |data| == 1 then Word(data[0], 0)
    else OnesAdd(Word(data[0], data[1]), OnesSum(data[2..]))
  }

  function InternetChecksum(data: Bytes): u16 {
    0xFFFF - OnesSum(data)
  }

  // ---------------------------------------------------------------------------------------------
  // The production form: 64-bit addends in a 128-bit accumulator

  /** `u128::wrapping_add`. */
  function WrappingAdd128(a: u128, b: u128): u128 {
    if a + b < U128 then a + b else a + b - U128
  }

  function Fold(y: u128): u128 {
    WrappingAdd128(y % 0x1_0000, y / 0x1_0000)
  }

  /** `fold_and_flip`. */
  function FoldAndFlip(x: u128): u16
    decreases x
  {
    if x > 0xFFFF then FoldAndFlip(Fold(x)) else 0xFFFF - x
  }

  /** The byte at `i`, or zero past the end. */
  function At(b: Bytes, i: nat): u8 {
    if i < |b| then b[i] else 0
  }

  /** A `u64` made of four 16-bit lanes. */
  function Lanes(w0: u16, w1: u16, w2: u16, w3: u16): u64 {
    w0 * 0x1_0000_0000_0000 + w1 * 0x1_0000_0000 + w2 * 0x1_0000 + w3
  }

  /** `u64::from_be_bytes`, reading missing bytes as zero. */
  function Be64(b: Bytes): u64
    requires |b| <= 8
  {
    Lanes(Word(At(b, 0), At(b, 1)), Word(At(b, 2), At(b, 3)), Word(At(b, 4), At(b, 5)), Word(At(b, 6), At(b, 7)))
  }

  /** The full 8-byte chunks of `data`, each as a big-endian number. */
  function Chunks(data: Bytes): seq<u64> {
    if |data| < 8 then [] else [Be64(data[..8])] + Chunks(data[8..])
  }

  /** The bytes that do not fill a chunk. */
  function Remainder(data: Bytes): (r: Bytes)
    ensures |r| < 8
  {
    if |data| < 8 then data else Remainder(data[8..])
  }

  function AddAll(acc: u128, chunks: seq<u64>): u128
    decreases |chunks|
  {
    if chunks == [] then acc else AddAll(WrappingAdd128(acc, chunks[0]), chunks[1..])
  }

  function Calculate(data: Bytes): u16 {
    FoldAndFlip(AddAll(Be64(Remainder(data)), Chunks(data)))
  }

  // ---------------------------------------------------------------------------------------------
  // The alternatives

  /** The odd byte that pairs leave over, as the high byte of a word. */
  function OddByte(data: Bytes): u16 {
    if |data| % 2 == 1 then Word(data[|data| - 1], 0) else 0
  }

  function AddFolded(sum: u16, data: Bytes): u16
    decreases |data|
  {
    if |data| < 2 then sum
    else
      var raw := sum + Word(data[0], data[1]);
      var carry := if raw > 0xFFFF then 1 else 0;
      AddFolded((raw % 0x1_0000 + carry) % 0x1_0000, data[2..])
  }

  function AlwaysFoldedCksum(data: Bytes): u16 {
    0xFFFF - AddFolded(OddByte(data), data)
  }

  function OneCarryFold(x: u32): u32 {
    WrappingAdd(x % 0x1_0000, x / 0x1_0000)
  }

  function AddWrapping(sum: u32, data: Bytes): u32
    decreases |data|
  {
    if |data| < 2 then sum else AddWrapping(WrappingAdd(sum, Word(data[0], data[1])), data[2..])
  }

  function NaiveWrappingCksum(data: Bytes): u16 {
    0xFFFF - OneCarryFold(OneCarryFold(AddWrapping(OddByte(data), data))) % 0x1_0000
  }

  const WOULD_OVERFLOW: u32 := MODULUS - 1 - 0xFFFF + 1

  function AddRangeChecked(sum: u32, data: Bytes): u32
    decreases |data|
  {
    if |data| < 2 then sum
    else
      var next := WrappingAdd(sum, Word(data[0], data[1]));
      AddRangeChecked(if next < WOULD_OVERFLOW then next else OneCarryFold(next), data[2..])
  }

  function RangeCheckedCksum(data: Bytes): u16 {
    0xFFFF - OneCarryFold(OneCarryFold(AddRangeChecked(OddByte(data), data))) % 0x1_0000
  }

  const DEFERRED_CARRIES_MAX_BYTES: nat := 0xFFFF_FFFF / 0xFFFF * 2
}

/** The four forms against the definition, and what inserting and verifying a checksum gives. */
module ChecksumProofs {
  import opened SeqSpace
  import opened Wire
  import opened Checksum

  /** The plain sum of the 16-bit words. */
  function Total(data: Bytes): nat {
    if data == [] then 0
    else if |data| == 1 then Word(data[0], 0)
    else Word(data[0], data[1]) + Total(data[2..])
  }

  /** The 16-bit word that represents `n` in one's complement. */
  function Canon(n: nat): (r: u16)
    ensures r == 0 <==> n == 0
  {
    if n <= 0xFFFF then n else Canon(n - 0xFFFF)
  }

  /** Positive multiples of 65535 may be cast out, as long as something is left. */
  lemma {:induction false} CastOut(a: nat, k: nat)
    requires a > 0
    ensures Canon(a + 0xFFFF * k) == Canon(a)
  {
    if k > 0 {
      CastOut(a, k - 1);
    }
  }

  lemma {:induction false} CanonSum(a: nat, b: nat)
    ensures Canon(a + b) == Canon(Canon(a) + b)
    decreases a
  {
    if a > 0xFFFF {
      CanonSum(a - 0xFFFF, b);
      assert Canon(a + b) == Canon(a + b - 0xFFFF);
    }
  }

  lemma CanonReplace(a: nat, b: nat, c: nat)
    requires Canon(a) == Canon(b)
    ensures Canon(a + c) == Canon(b + c)
  {
    CanonSum(a, c);
    CanonSum(b, c);
  }

  lemma {:induction false} CanonIsOnesIff(n: nat)
    ensures Canon(n) == 0xFFFF <==> n > 0 && n % 0xFFFF == 0
  {
    if n > 0xFFFF {
      CanonIsOnesIff(n - 0xFFFF);
    }
  }

  lemma OnesAddCanon(a: u16, n: nat)
    ensures OnesAdd(a, Canon(n)) == Canon(n + a)
  {
    CanonSum(n, a);
    assert Canon(Canon(n) + a) == OnesAdd(a, Canon(n));
  }

  /** The one's complement sum is the plain sum, reduced. */
  lemma {:induction false} OnesSumIsCanon(data: Bytes)
    ensures OnesSum(data) == Canon(Total(data))
  {
    if |data| >= 2 {
      OnesSumIsCanon(data[2..]);
      OnesAddCanon(Word(data[0], data[1]), Total(data[2..]));
    }
  }

  /** Data verifies exactly when its words add up to a positive multiple of 65535. */
  lemma VerifiesIff(data: Bytes)
    ensures InternetChecksum(data) == 0 <==> Total(data) > 0 && Total(data) % 0xFFFF == 0
  {
    OnesSumIsCanon(data);
    CanonIsOnesIff(Total(data));
  }

  // ---------------------------------------------------------------------------------------------
  // Folding

  lemma FoldKeepsValue(y: u128)
    ensures Canon(Fold(y)) == Canon(y)
  {
    var q, r := y / 0x1_0000, y % 0x1_0000;
    assert y == (q + r) + 0xFFFF * q;
    assert Fold(y) == q + r;
    if q + r > 0 {
      CastOut(q + r, q);
    }
  }

  lemma {:induction false} FoldAndFlipIsCanon(x: u128)
    ensures FoldAndFlip(x) == 0xFFFF - Canon(x)
    decreases x
  {
    if x > 0xFFFF {
      FoldKeepsValue(x);
      FoldAndFlipIsCanon(Fold(x));
    }
  }

  function FoldTimes(x: u128, n: nat): u128 {
    if n == 0 then x else Fold(FoldTimes(x, n - 1))
  }

  lemma FoldShrinks(y: u128, bound: nat)
    requires y <= bound * 0x1_0000 + 0xFFFE && bound <= 0x1_0000_0000_0000_0000_0000_0000_0000
    ensures Fold(y) <= bound + 0xFFFE
  {
    var q, r := y / 0x1_0000, y % 0x1_0000;
    assert y == q * 0x1_0000 + r;
    assert q <= bound;
  }

  /** Eight folds bring every 128-bit value into 16 bits. */
  lemma EightFoldsSuffice(x: u128)
    ensures FoldTimes(x, 8) <= 0xFFFF
  {
    FoldShrinks(x, 0x1_0000_0000_0000_0000_0000_0000_0000);
    FoldShrinks(FoldTimes(x, 1), 0x1_0000_0000_0000_0000_0000_0000);
    FoldShrinks(FoldTimes(x, 2), 0x1_0000_0000_0000_0000_0000);
    FoldShrinks(FoldTimes(x, 3), 0x1_0000_0000_0000_0000);
    FoldShrinks(FoldTimes(x, 4), 0x1_0000_0000_0000);
    FoldShrinks(FoldTimes(x, 5), 0x1_0000_0000);
    FoldShrinks(FoldTimes(x, 6), 0x1_0000);
    FoldShrinks(FoldTimes(x, 7), 1);
  }

  // ---------------------------------------------------------------------------------------------
  // The production form

  lemma {:induction false} TotalSplits(a: Bytes, b: Bytes)
    requires |a| % 2 == 0
    ensures Total(a + b) == Total(a) + Total(b)
  {
    if a == [] {
      assert a + b == b;
    } else {
      TotalSplits(a[2..], b);
      assert (a + b)[2..] == a[2..] + b;
    }
  }

  /** A group of four lanes has the one's complement value of the sum of its words. */
  lemma LanesKeepValue(w0: u16, w1: u16, w2: u16, w3: u16, sum: nat)
    requires sum == w0 + w1 + w2 + w3
    ensures Canon(Lanes(w0, w1, w2, w3)) == Canon(sum)
  {
    var k := w0 * 0x1_0001_0001 + w1 * 0x1_0001 + w2;
    assert Lanes(w0, w1, w2, w3) == sum + 0xFFFF * k;
    if sum > 0 {
      CastOut(sum, k);
    }
  }

  /** The sum of the four words that eight bytes, or fewer, make. */
  function FourWords(b: Bytes): nat {
    Word(At(b, 0), At(b, 1)) + Word(At(b, 2), At(b, 3)) + Word(At(b, 4), At(b, 5)) + Word(At(b, 6), At(b, 7))
  }

  lemma TotalOfAtMostEight(b: Bytes)
    requires |b| <= 8
    ensures Total(b) == FourWords(b)
  {
    if |b| >= 2 {
      var c := b[2..];
      if |c| >= 2 {
        var d := c[2..];
        if |d| >= 2 {
          var e := d[2..];
          assert |e| >= 2 ==> Total(e[2..]) == 0;
        }
      }
    }
  }

  lemma Be64OfWords(b: Bytes)
    requires |b| <= 8
    ensures Canon(Be64(b)) == Canon(FourWords(b))
  {
    LanesKeepValue(Word(At(b, 0), At(b, 1)), Word(At(b, 2), At(b, 3)), Word(At(b, 4), At(b, 5)), Word(At(b, 6), At(b, 7)), FourWords(b));
  }

  lemma Be64KeepsValue(b: Bytes)
    requires |b| <= 8
    ensures Canon(Be64(b)) == Canon(Total(b))
  {
    TotalOfAtMostEight(b);
    Be64OfWords(b);
  }

  /** The sum of the chunks in unbounded integers. */
  function Sum(chunks: seq<u64>): nat {
    if chunks == [] then 0 else chunks[0] + Sum(chunks[1..])
  }

  lemma {:induction false} SumBound(chunks: seq<u64>)
    ensures Sum(chunks) <= |chunks| * (U64 - 1)
  {
    if chunks != [] {
      SumBound(chunks[1..]);
    }
  }

  lemma {:induction false} ChunkCount(data: Bytes)
    ensures 8 * |Chunks(data)| <= |data|
  {
    if |data| >= 8 {
      ChunkCount(data[8..]);
    }
  }

  lemma {:induction false} AddAllIsExact(acc: u128, chunks: seq<u64>)
    requires acc + Sum(chunks) < U128
    ensures AddAll(acc, chunks) == acc + Sum(chunks)
    decreases |chunks|
  {
    if chunks != [] {
      AddAllIsExact(acc + chunks[0], chunks[1..]);
    }
  }

  lemma FewChunksFit(acc: u64, chunks: seq<u64>)
    requires 8 * |chunks| <= ISIZE_MAX
    ensures acc + Sum(chunks) < U128
  {
    SumBound(chunks);
    assert |chunks| * (U64 - 1) <= ISIZE_MAX / 8 * (U64 - 1);
  }

  /** No input that fits in memory overflows the 128-bit accumulator. */
  lemma AccumulatorNeverOverflows(data: Bytes)
    requires |data| <= ISIZE_MAX
    ensures AddAll(Be64(Remainder(data)), Chunks(data)) == Be64(Remainder(data)) + Sum(Chunks(data))
  {
    ChunkCount(data);
    FewChunksFit(Be64(Remainder(data)), Chunks(data));
    AddAllIsExact(Be64(Remainder(data)), Chunks(data));
  }

  lemma CanonAddBoth(a: nat, b: nat, c: nat, d: nat)
    requires Canon(a) == Canon(b) && Canon(c) == Canon(d)
    ensures Canon(a + c) == Canon(b + d)
  {
    CanonReplace(a, b, c);
    CanonReplace(c, d, b);
  }

  lemma {:induction false} SumKeepsValue(data: Bytes)
    ensures Canon(Be64(Remainder(data)) + Sum(Chunks(data))) == Canon(Total(data))
  {
    if |data| < 8 {
      Be64KeepsValue(data);
    } else {
      var head, tail := data[..8], data[8..];
      SumKeepsValue(tail);
      Be64KeepsValue(head);
      assert head + tail == data;
      TotalSplits(head, tail);
      assert Chunks(data)[1..] == Chunks(tail) && Chunks(data)[0] == Be64(head);
      CanonAddBoth(Be64(Remainder(tail)) + Sum(Chunks(tail)), Total(tail), Be64(head), Total(head));
    }
  }

  lemma FoldedSumIsChecksum(sum: u128, data: Bytes)
    requires Canon(sum) == Canon(Total(data))
    ensures FoldAndFlip(sum) == InternetChecksum(data)
  {
    FoldAndFlipIsCanon(sum);
    OnesSumIsCanon(data);
  }

  /** The production checksum is the Internet checksum, for every input that fits in memory. */
  lemma CalculateIsInternetChecksum(data: Bytes)
    requires |data| <= ISIZE_MAX
    ensures Calculate(data) == InternetChecksum(data)
  {
    AccumulatorNeverOverflows(data);
    SumKeepsValue(data);
    FoldedSumIsChecksum(AddAll(Be64(Remainder(data)), Chunks(data)), data);
  }

  // ---------------------------------------------------------------------------------------------
  // The alternatives

  function PairSum(data: Bytes): nat {
    if |data| < 2 then 0 else Word(data[0], data[1]) + PairSum(data[2..])
  }

  lemma {:induction false} TotalIsPairsAndOdd(data: Bytes)
    ensures Total(data) == OddByte(data) + PairSum(data)
    ensures PairSum(data) <= |data| / 2 * 0xFFFF
  {
    if |data| >= 2 {
      TotalIsPairsAndOdd(data[2..]);
      assert |data[2..]| / 2 == |data| / 2 - 1;
    }
  }

  lemma CarryComesBack(sum: u16, w: u16)
    ensures ((sum + w) % 0x1_0000 + (if sum + w > 0xFFFF then 1 else 0)) % 0x1_0000 == OnesAdd(w, sum)
  {
  }

  lemma {:induction false} AddFoldedIsCanon(n: nat, data: Bytes)
    ensures AddFolded(Canon(n), data) == Canon(n + PairSum(data))
    decreases |data|
  {
    if |data| >= 2 {
      var w := Word(data[0], data[1]);
      OnesAddCanon(w, n);
      CarryComesBack(Canon(n), w);
      AddFoldedIsCanon(n + w, data[2..]);
    }
  }

  lemma AlwaysFoldedIsInternetChecksum(data: Bytes)
    ensures AlwaysFoldedCksum(data) == InternetChecksum(data)
  {
    AddFoldedIsCanon(OddByte(data), data);
    TotalIsPairsAndOdd(data);
    OnesSumIsCanon(data);
  }

  lemma OneFoldKeepsValue(x: u32)
    ensures Canon(OneCarryFold(x)) == Canon(x)
    ensures OneCarryFold(x) <= 0x1_FFFE
    ensures x <= 0x1_FFFE ==> OneCarryFold(x) <= 0xFFFF
  {
    var q, r := x / 0x1_0000, x % 0x1_0000;
    assert x == (q + r) + 0xFFFF * q;
    assert OneCarryFold(x) == q + r;
    if q + r > 0 {
      CastOut(q + r, q);
    }
  }

  /** Two folds reduce a 32-bit accumulator. */
  lemma TwoFoldsAreCanon(x: u32)
    ensures OneCarryFold(OneCarryFold(x)) % 0x1_0000 == Canon(x)
  {
    OneFoldKeepsValue(x);
    var y := OneCarryFold(x);
    OneFoldKeepsValue(y);
    CanonOfWord(OneCarryFold(y));
  }

  lemma CanonOfWord(z: u16)
    ensures z % 0x1_0000 == Canon(z)
  {
  }

  lemma WrapThenAdd(sum: u32, w: u32, n: nat)
    ensures (WrappingAdd(sum, w) + n) % MODULUS == (sum + (w + n)) % MODULUS
  {
  }

  lemma {:induction false} AddWrappingIsModular(sum: u32, data: Bytes)
    ensures AddWrapping(sum, data) == (sum + PairSum(data)) % MODULUS
    decreases |data|
  {
    if |data| >= 2 {
      var w := Word(data[0], data[1]);
      AddWrappingIsModular(WrappingAdd(sum, w), data[2..]);
      WrapThenAdd(sum, w, PairSum(data[2..]));
    }
  }

  lemma {:induction false} CanonIsCongruent(n: nat)
    ensures Canon(n) % 0xFFFF == n % 0xFFFF
  {
    if n > 0xFFFF {
      CanonIsCongruent(n - 0xFFFF);
    }
  }

  /** One's complement tells zero from the multiples of 65535, and nothing else congruent apart. */
  lemma CanonEqualIff(a: nat, b: nat)
    ensures Canon(a) == Canon(b) <==> (a == 0 <==> b == 0) && a % 0xFFFF == b % 0xFFFF
  {
    CanonIsCongruent(a);
    CanonIsCongruent(b);
  }

  lemma SameResidue(q: nat, x: nat)
    ensures (q * 0xFFFF + x) % 0xFFFF == x % 0xFFFF
  {
  }

  lemma ResidueOfSum(k: nat, r: nat)
    ensures r % 0xFFFF == (k + r) % 0xFFFF <==> k % 0xFFFF == 0
  {
  }

  /** Dropping `k` times 2^32 changes the residue by `k`. */
  lemma DroppedOverflows(t: nat, k: nat, r: nat)
    requires t == k * MODULUS + r
    ensures r % 0xFFFF == t % 0xFFFF <==> k % 0xFFFF == 0
  {
    assert t == k * 65537 * 0xFFFF + (k + r);
    SameResidue(k * 65537, k + r);
    ResidueOfSum(k, r);
  }

  lemma DroppedValueIff(t: nat, k: nat, r: nat)
    requires t == k * MODULUS + r
    ensures Canon(r) == Canon(t) <==> k % 0xFFFF == 0 && (r == 0 ==> t == 0)
  {
    CanonEqualIff(r, t);
    DroppedOverflows(t, k, r);
  }

  lemma NaiveDropsOverflows(data: Bytes)
    ensures NaiveWrappingCksum(data) == 0xFFFF - Canon(Total(data) % MODULUS)
  {
    AddWrappingIsModular(OddByte(data), data);
    TotalIsPairsAndOdd(data);
    TwoFoldsAreCanon(Total(data) % MODULUS);
  }

  lemma DivisionOf(t: nat)
    ensures t == t / MODULUS * MODULUS + t % MODULUS
  {
  }

  /** The naive form is right exactly when the number of times its accumulator overflows is a multiple
      of 65535 and a sum that is not zero does not wrap around to zero. */
  lemma NaiveIsRightIff(data: Bytes)
    ensures NaiveWrappingCksum(data) == InternetChecksum(data)
       <==> && Total(data) / MODULUS % 0xFFFF == 0
            && (Total(data) % MODULUS == 0 ==> Total(data) == 0)
  {
    var t := Total(data);
    NaiveDropsOverflows(data);
    OnesSumIsCanon(data);
    DivisionOf(t);
    DroppedValueIff(t, t / MODULUS, t % MODULUS);
  }

  lemma NoOverflowUpToTheLimit(data: Bytes)
    requires |data| <= DEFERRED_CARRIES_MAX_BYTES
    ensures Total(data) < MODULUS
  {
    TotalIsPairsAndOdd(data);
    var n := |data| / 2;
    assert n == 65537 ==> OddByte(data) == 0;
  }

  /** It is right up to `DEFERRED_CARRIES_MAX_BYTES`. */
  lemma NaiveIsRightUpToTheLimit(data: Bytes)
    requires |data| <= DEFERRED_CARRIES_MAX_BYTES
    ensures NaiveWrappingCksum(data) == InternetChecksum(data)
  {
    NoOverflowUpToTheLimit(data);
    NaiveIsRightIff(data);
  }

  lemma {:induction false} TotalOfOnes(data: Bytes)
    requires |data| % 2 == 0 && forall i :: 0 <= i < |data| ==> data[i] == 0xFF
    ensures Total(data) == |data| / 2 * 0xFFFF
  {
    if data != [] {
      TotalOfOnes(data[2..]);
    }
  }

  /** The limit is sharp: one more word of ones and it is wrong. */
  lemma NaiveIsWrongBeyondTheLimit(data: Bytes)
    requires |data| == DEFERRED_CARRIES_MAX_BYTES + 2 && forall i :: 0 <= i < |data| ==> data[i] == 0xFF
    ensures NaiveWrappingCksum(data) != InternetChecksum(data)
  {
    TotalOfOnes(data);
    assert Total(data) / MODULUS == 1;
    NaiveIsRightIff(data);
  }

  /** The range-checked fold over unbounded integers. */
  function AddUnbounded(sum: nat, data: Bytes): nat
    decreases |data|
  {
    if |data| < 2 then sum
    else
      var next := sum + Word(data[0], data[1]);
      AddUnbounded(if next < WOULD_OVERFLOW then next else next % 0x1_0000 + next / 0x1_0000, data[2..])
  }

  lemma FoldIsUnbounded(x: u32)
    ensures OneCarryFold(x) == x % 0x1_0000 + x / 0x1_0000 < WOULD_OVERFLOW
  {
  }

  /** The range check does its work: starting below the limit the 32-bit accumulator never wraps, and
      stays below the limit, for inputs of any length. */
  lemma {:induction false} RangeCheckedNeverOverflows(sum: u32, data: Bytes)
    requires sum < WOULD_OVERFLOW
    ensures AddRangeChecked(sum, data) == AddUnbounded(sum, data) < WOULD_OVERFLOW
    decreases |data|
  {
    if |data| >= 2 {
      var next := sum + Word(data[0], data[1]);
      if next < WOULD_OVERFLOW {
        RangeCheckedNeverOverflows(next, data[2..]);
      } else {
        FoldIsUnbounded(next);
        RangeCheckedNeverOverflows(OneCarryFold(next), data[2..]);
      }
    }
  }

  lemma {:induction false} AddUnboundedKeepsValue(sum: nat, data: Bytes)
    requires sum < WOULD_OVERFLOW
    ensures Canon(AddUnbounded(sum, data)) == Canon(sum + PairSum(data))
    decreases |data|
  {
    if |data| >= 2 {
      var next: u32 := sum + Word(data[0], data[1]);
      if next < WOULD_OVERFLOW {
        AddUnboundedKeepsValue(next, data[2..]);
      } else {
        OneFoldKeepsValue(next);
        FoldIsUnbounded(next);
        AddUnboundedKeepsValue(OneCarryFold(next), data[2..]);
        CanonReplace(OneCarryFold(next), next, PairSum(data[2..]));
      }
    }
  }

  lemma RangeCheckedIsInternetChecksum(data: Bytes)
    ensures RangeCheckedCksum(data) == InternetChecksum(data)
  {
    RangeCheckedNeverOverflows(OddByte(data), data);
    AddUnboundedKeepsValue(OddByte(data), data);
    TotalIsPairsAndOdd(data);
    TwoFoldsAreCanon(AddRangeChecked(OddByte(data), data));
    OnesSumIsCanon(data);
  }

  // ---------------------------------------------------------------------------------------------
  // Inserting and verifying

  /** `data` with the word `w` written at position `p`. */
  function WithWord(data: Bytes, p: nat, w: u16): (r: Bytes)
    requires p + 1 < |data|
    ensures |r| == |data|
  {
    data[p := w / 0x100][p + 1 := w % 0x100]
  }

  lemma {:induction false} TotalWithWord(data: Bytes, p: nat, w: u16)
    requires p % 2 == 0 && p + 1 < |data|
    ensures Total(WithWord(data, p, w)) + Word(data[p], data[p + 1]) == Total(data) + w
  {
    var r := WithWord(data, p, w);
    if p == 0 {
      assert r[2..] == data[2..];
    } else {
      assert r[2..] == WithWord(data[2..], p - 2, w);
      TotalWithWord(data[2..], p - 2, w);
    }
  }

  /** A word and its complement add up to a positive multiple of 65535. */
  lemma {:induction false} ComplementCompletes(n: nat)
    ensures n + (0xFFFF - Canon(n)) > 0 && (n + (0xFFFF - Canon(n))) % 0xFFFF == 0
  {
    if n > 0xFFFF {
      ComplementCompletes(n - 0xFFFF);
    }
  }

  /** Writing the checksum into its zeroed field makes the data verify. */
  lemma InsertedChecksumVerifies(data: Bytes, p: nat)
    requires p % 2 == 0 && p + 1 < |data| && data[p] == 0 && data[p + 1] == 0
    ensures InternetChecksum(WithWord(data, p, InternetChecksum(data))) == 0
  {
    var c := InternetChecksum(data);
    TotalWithWord(data, p, c);
    OnesSumIsCanon(data);
    ComplementCompletes(Total(data));
    VerifiesIff(WithWord(data, p, c));
  }

  /** UDP's substitute for a zero checksum verifies as well. */
  lemma OnesForZeroVerifies(data: Bytes, p: nat)
    requires p % 2 == 0 && p + 1 < |data| && data[p] == 0 && data[p + 1] == 0
    requires InternetChecksum(data) == 0
    ensures InternetChecksum(WithWord(data, p, 0xFFFF)) == 0
  {
    TotalWithWord(data, p, 0xFFFF);
    VerifiesIff(data);
    VerifiesIff(WithWord(data, p, 0xFFFF));
  }

  lemma WordChange(before: nat, oldWord: u16, after: nat, newWord: u16)
    requires before % 0xFFFF == 0 && after + oldWord == before + newWord
    ensures after % 0xFFFF == 0 <==> (newWord - oldWord) % 0xFFFF == 0
  {
  }

  /** Error detection: from verifying data, replacing one aligned word still verifies exactly when
      the new word is congruent to the old one modulo 65535 and the words are not all zero. */
  lemma OneWordChangeVerifiesIff(data: Bytes, p: nat, w: u16)
    requires p % 2 == 0 && p + 1 < |data| && InternetChecksum(data) == 0
    ensures InternetChecksum(WithWord(data, p, w)) == 0
       <==> (w - Word(data[p], data[p + 1])) % 0xFFFF == 0 && Total(WithWord(data, p, w)) > 0
  {
    TotalWithWord(data, p, w);
    VerifiesIff(data);
    WordChange(Total(data), Word(data[p], data[p + 1]), Total(WithWord(data, p, w)), w);
    VerifiesIff(WithWord(data, p, w));
  }
}
