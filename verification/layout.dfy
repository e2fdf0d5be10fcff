/** Sizes and addresses of one chunk inside one block of the underlying allocator. */
module Layout {
  import opened Words
  import opened Redzones

  const HEADER := 16          // kChunkHeaderSize
  const HEADER2 := 8          // kChunkHeader2Size
  const LARGE_HEADER := 16    // sizeof(LargeChunkHeader)
  const MAX_ALLOWED := 0x100_0000_0000   // kMaxAllowedMallocSize
  const PRIMARY_MAX := 0x2_0000          // SizeClassMap::kMaxSize

  predicate CanAllocate(size: int, alignment: int) {
    size <= PRIMARY_MAX && alignment <= PRIMARY_MAX
  }

  /** Redzones and slack for the alignment on top of the rounded size. */
  function WithRedzones(rounded: nat, alignment: nat, rz: nat): nat {
    var needed := rounded + rz + (if alignment > GRANULE then alignment else 0);
    if CanAllocate(needed, alignment) then needed else needed + rz
  }

  /** The bytes to ask of the underlying allocator, in unbounded arithmetic. */
  function NeededSize(size: nat, alignment: nat, rz: nat): nat
    requires alignment > 0
  {
    WithRedzones(RoundUpTo(Max(size, HEADER2), alignment), alignment, rz)
  }

  function WrappedWithRedzones(rounded: nat, alignment: nat, rz: nat): nat {
    var sum := (rounded + rz) % WORD;
    var needed := if alignment > GRANULE then (sum + alignment) % WORD else sum;
    if CanAllocate(needed, alignment) then needed else (needed + rz) % WORD
  }

  /** The same computation in 64-bit words that wrap around. */
  function WrappedNeededSize(size: nat, alignment: nat, rz: nat): nat
    requires alignment > 0
  {
    WrappedWithRedzones(RoundDownTo((Max(size, HEADER2) + alignment - 1) % WORD, alignment), alignment, rz)
  }

  /** The test that turns a request down. */
  predicate TooBig(size: nat, needed: nat, maxUser: nat) {
    size > MAX_ALLOWED || needed > MAX_ALLOWED || size > maxUser
  }

  const HALF_WORD: nat := 0x8000_0000_0000_0000

  lemma WrappedIsExact(size: nat, alignment: nat, rz: nat)
    requires size <= MAX_ALLOWED && 8 <= alignment <= 0x4000_0000_0000_0000 && rz <= 2048
    ensures WrappedNeededSize(size, alignment, rz) == NeededSize(size, alignment, rz)
  {
    var m := Max(size, HEADER2);
    RoundUpToLeast(m, alignment);
    assert (m + alignment - 1) % WORD == m + alignment - 1;
    RoundUpByRoundDown(m, alignment);
    NoWrap(RoundUpTo(m, alignment), alignment, rz);
  }

  lemma {:induction false} RoundUpByRoundDown(p: nat, b: nat)
    requires b > 0
    ensures RoundDownTo(p + b - 1, b) == RoundUpTo(p, b)
  {
    if p >= b {
      RoundUpByRoundDown(p - b, b);
      assert Rem(p + b - 1, b) == Rem(p - b + b - 1, b);
      assert Rem(p, b) == Rem(p - b, b);
    } else if p > 0 {
      assert Rem(p + b - 1, b) == Rem(p - 1, b) == p - 1;
    }
  }

  lemma NoWrap(rounded: nat, alignment: nat, rz: nat)
    requires rounded <= MAX_ALLOWED + 0x4000_0000_0000_0000
    requires alignment <= 0x4000_0000_0000_0000 && rz <= 2048
    ensures WrappedWithRedzones(rounded, alignment, rz) == WithRedzones(rounded, alignment, rz)
  {
    Small(rounded + rz);
    Small(rounded + rz + rz);
    Small(rounded + rz + alignment);
    Small(rounded + rz + alignment + rz);
  }

  lemma Small(x: nat)
    requires x < WORD
    ensures x % WORD == x
  {
    QuotientUnique(x, WORD, 0, x);
  }

  /** With alignment 2^63 the word arithmetic forgets the alignment altogether. */
  lemma HalfWordAlignment(size: nat, rz: nat)
    requires size <= MAX_ALLOWED && rz <= 2048
    ensures WrappedNeededSize(size, HALF_WORD, rz) == 2 * rz
    ensures NeededSize(size, HALF_WORD, rz) > MAX_ALLOWED
  {
    var m := Max(size, HEADER2);
    assert (m + HALF_WORD - 1) % WORD == m + HALF_WORD - 1;
    assert Rem(m + HALF_WORD - 1, HALF_WORD) == Rem(m - 1, HALF_WORD) == m - 1;
    assert Rem(m, HALF_WORD) == m;
    HalfWordSum(rz);
  }

  lemma HalfWordSum(rz: nat)
    requires rz <= 2048
    ensures WrappedWithRedzones(HALF_WORD, HALF_WORD, rz) == 2 * rz
    ensures WithRedzones(HALF_WORD, HALF_WORD, rz) > MAX_ALLOWED
  {
  }

  /**
   * The size guard in 64-bit words decides as the exact guard does if and only if the
   * alignment is at most 2^62 or the size alone is refused.
   */
  lemma SizeGuardExact(size: nat, alignment: nat, rz: nat, maxUser: nat)
    requires 1 <= size < WORD && IsPowerOfTwo(alignment) && 8 <= alignment < WORD && IsRedzoneSize(rz)
    ensures (TooBig(size, WrappedNeededSize(size, alignment, rz), maxUser)
             <==> TooBig(size, NeededSize(size, alignment, rz), maxUser))
            <==> (alignment <= 0x4000_0000_0000_0000 || size > MAX_ALLOWED || size > maxUser)
  {
    if size <= MAX_ALLOWED {
      if alignment <= 0x4000_0000_0000_0000 {
        WrappedIsExact(size, alignment, rz);
      } else {
        PowersOfTwoNearTheTop(alignment);
        HalfWordAlignment(size, rz);
      }
    }
  }

  lemma PowersOfTwoNearTheTop(alignment: nat)
    requires IsPowerOfTwo(alignment) && 0x4000_0000_0000_0000 < alignment < WORD
    ensures alignment == HALF_WORD
  {
    Pow2OfWord();
    Pow2IsPowerOfTwo(62);
    Pow2IsPowerOfTwo(63);
    PowerOfTwoGap(0x4000_0000_0000_0000, alignment);
    if alignment > HALF_WORD { PowerOfTwoGap(HALF_WORD, alignment); }
  }

  lemma Pow2Plus8(k: nat)
    ensures Pow2(k + 8) == 256 * Pow2(k)
  {
    assert Pow2(k + 4) == 16 * Pow2(k) by { assert Pow2(k + 2) == 4 * Pow2(k); }
    assert Pow2(k + 6) == 4 * Pow2(k + 4);
  }

  lemma Pow2OfWord()
    ensures Pow2(62) == 0x4000_0000_0000_0000 && Pow2(63) == HALF_WORD
  {
    Pow2Small();
    Pow2Plus8(6); Pow2Plus8(14); Pow2Plus8(22); Pow2Plus8(30); Pow2Plus8(38); Pow2Plus8(46); Pow2Plus8(54);
  }

  lemma WithRedzonesAligned(rounded: nat, alignment: nat, rz: nat)
    requires rounded % 8 == 0 && alignment % 8 == 0 && rz % 8 == 0
    ensures WithRedzones(rounded, alignment, rz) % 8 == 0
    ensures WithRedzones(rounded, alignment, rz) >= rounded + rz + (if alignment > 8 then alignment else 0)
  {
    SumOf8s(rounded, rz);
    SumOf8s(rounded + rz, rz);
    SumOf8s(rounded + rz, alignment);
    SumOf8s(rounded + rz + alignment, rz);
  }

  /** Where the user memory starts in a block at `allocBeg`. */
  function UserBeg(allocBeg: nat, alignment: nat, rz: nat): nat
    requires alignment > 0
  {
    var u := allocBeg + rz;
    if !IsAligned(u, alignment) then RoundUpTo(u, alignment) else u
  }

  lemma UserBegFacts(allocBeg: nat, alignment: nat, rz: nat)
    requires allocBeg % 16 == 0 && rz % 16 == 0
    requires alignment == 8 || (alignment >= 16 && alignment % 16 == 0)
    ensures var u := UserBeg(allocBeg, alignment, rz);
            && IsAligned(u, alignment)
            && u % 16 == 0
            && allocBeg + rz <= u <= allocBeg + rz + (if alignment > 8 then alignment - 16 else 0)
            && (u == allocBeg + rz <==> IsAligned(allocBeg + rz, alignment))
  {
    UserBegRounds(allocBeg + rz, alignment);
  }

  lemma UserBegRounds(x: nat, alignment: nat)
    requires x % 16 == 0 && (alignment == 8 || (alignment >= 16 && alignment % 16 == 0))
    ensures var u := RoundUpTo(x, alignment);
            && IsAligned(u, alignment)
            && u % 16 == 0
            && x <= u <= x + (if alignment > 8 then alignment - 16 else 0)
            && (u == x <==> IsAligned(x, alignment))
  {
    var u := RoundUpTo(x, alignment);
    RoundUpToLeast(x, alignment);
    if alignment == 8 {
      SixteensAre8s(x);
      RemIsModulo(x, 8);
    } else {
      AlignedBy16(u, alignment);
      StepBy16(x, u, alignment);
    }
  }

  lemma StepBy16(x: nat, u: nat, alignment: nat)
    requires x % 16 == 0 && x <= u < x + alignment && alignment % 16 == 0 && u % 16 == 0
    ensures u <= x + alignment - 16
  {
    assert x == 16 * (x / 16) && u == 16 * (u / 16) && alignment == 16 * (alignment / 16);
  }

  /** The exact needed size is a whole number of granules and has room for everything. */
  lemma NeededSizeFacts(size: nat, alignment: nat, rz: nat)
    requires alignment >= 8 && alignment % 8 == 0 && rz % 8 == 0
    ensures NeededSize(size, alignment, rz) % GRANULE == 0
    ensures NeededSize(size, alignment, rz) >=
            rz + GranulesUp(Max(size, HEADER2)) + (if alignment > 8 then alignment else 0)
  {
    var m := Max(size, HEADER2);
    var rounded := RoundUpTo(m, alignment);
    RoundUpToLeast(m, alignment);
    AlignedBy8(rounded, alignment);
    WithRedzonesAligned(rounded, alignment, rz);
    LeastGranules(m, rounded);
  }

  /** The CHECK on the needed size passes for every size, also where the sum wraps around. */
  lemma WrappedIsAligned(size: nat, alignment: nat, rz: nat)
    requires IsPowerOfTwo(alignment) && alignment >= 8 && rz % 8 == 0
    ensures WrappedNeededSize(size, alignment, rz) % 8 == 0
  {
    PowerOfTwoMultiple(alignment);
    var x := (Max(size, HEADER2) + alignment - 1) % WORD;
    RoundDownToGreatest(x, alignment);
    AlignedBy8(RoundDownTo(x, alignment), alignment);
    WrappedSum(RoundDownTo(x, alignment), alignment, rz);
  }

  lemma WrappedSum(rounded: nat, alignment: nat, rz: nat)
    requires rounded % 8 == 0 && alignment % 8 == 0 && rz % 8 == 0
    ensures WrappedWithRedzones(rounded, alignment, rz) % 8 == 0
  {
    var sum := (rounded + rz) % WORD;
    SumOf8s(rounded, rz);
    WrapOf8s(rounded + rz);
    SumOf8s(sum, alignment);
    WrapOf8s(sum + alignment);
    SumOf8s(sum, rz);
    WrapOf8s(sum + rz);
    SumOf8s((sum + alignment) % WORD, rz);
    WrapOf8s((sum + alignment) % WORD + rz);
  }

  lemma WrapOf8s(x: nat)
    requires x % 8 == 0
    ensures x % WORD % 8 == 0
  {
    var q := x / WORD;
    assert x % WORD == 8 * (x / 8 - q * (WORD / 8));
    QuotientUnique(x % WORD, 8, x / 8 - q * (WORD / 8), 0);
  }

  lemma LeastGranules(m: nat, rounded: nat)
    requires m <= rounded && rounded % 8 == 0
    ensures GranulesUp(m) <= rounded
  {
  }

  lemma SixteenApart(a: nat, u: nat)
    requires a % 16 == 0 && u % 16 == 0 && a + 16 <= u
    ensures u - 16 == a || a + 16 <= u - 16
  {
  }

  /**
   * In every 16-aligned block of the needed size the user memory is aligned as asked, the
   * header, the free context and the granule-rounded user bytes stay inside the block, and the
   * header is at the block start or leaves room for the large header: the CHECKs on `user_end`
   * and on the large header never fire.
   */
  lemma ChunkFits(size: nat, alignment: nat, rz: nat, allocBeg: nat)
    requires IsPowerOfTwo(alignment) && alignment >= 8 && IsRedzoneSize(rz) && allocBeg % 16 == 0
    ensures var userBeg := UserBeg(allocBeg, alignment, rz);
            var allocEnd := allocBeg + NeededSize(size, alignment, rz);
            && IsAligned(userBeg, alignment)
            && userBeg % 16 == 0
            && allocBeg <= userBeg - HEADER
            && userBeg + GranulesUp(Max(size, HEADER2)) <= allocEnd
            && (userBeg - HEADER == allocBeg || allocBeg + LARGE_HEADER <= userBeg - HEADER)
            && (userBeg - HEADER == allocBeg <==> rz == 16 && IsAligned(allocBeg + 16, alignment))
  {
    PowerOfTwoMultiple(alignment);
    PowerOfTwoMultiple(rz);
    UserBegFacts(allocBeg, alignment, rz);
    NeededSizeFacts(size, alignment, rz);
    SixteenApart(allocBeg, UserBeg(allocBeg, alignment, rz));
  }

  /**
   * The underlying allocator is only asked for 8-aligned blocks. On those the CHECK on the large
   * header fires if and only if the redzone is 16 and the aligned user memory starts 24 bytes
   * into the block.
   */
  lemma LargeHeaderCheckFires(alignment: nat, rz: nat, allocBeg: nat)
    requires IsPowerOfTwo(alignment) && alignment >= 8 && IsRedzoneSize(rz) && allocBeg % 8 == 0
    ensures var chunkBeg := UserBeg(allocBeg, alignment, rz) - HEADER;
            !(chunkBeg == allocBeg || allocBeg + LARGE_HEADER <= chunkBeg)
            <==> rz == 16 && alignment > 8 && IsAligned(allocBeg + 24, alignment)
  {
    PowerOfTwoMultiple(alignment);
    PowerOfTwoMultiple(rz);
    LargeHeaderCase(alignment, rz, allocBeg);
  }

  lemma LargeHeaderCase(alignment: nat, rz: nat, allocBeg: nat)
    requires rz >= 16 && rz % 16 == 0 && allocBeg % 8 == 0
    requires alignment == 8 || (alignment >= 16 && alignment % 16 == 0)
    ensures var chunkBeg := UserBeg(allocBeg, alignment, rz) - HEADER;
            !(chunkBeg == allocBeg || allocBeg + LARGE_HEADER <= chunkBeg)
            <==> rz == 16 && alignment > 8 && IsAligned(allocBeg + 24, alignment)
  {
    var u := RoundUpTo(allocBeg + rz, alignment);
    SixteensAre8s(rz);
    SumOf8s(allocBeg, rz);
    MovedByEight(allocBeg + rz, alignment);
    EightApart(allocBeg, rz, u);
  }

  lemma EightApart(a: nat, rz: nat, u: nat)
    requires a % 8 == 0 && u % 8 == 0 && rz >= 16 && rz % 16 == 0 && a + rz <= u
    ensures !(u - 16 == a || a + 16 <= u - 16) <==> rz == 16 && u == a + rz + 8
  {
  }

  /** Rounding moves the start of user memory by exactly 8 only when 8 more is aligned. */
  lemma MovedByEight(x: nat, alignment: nat)
    requires x % 8 == 0 && (alignment == 8 || (alignment >= 16 && alignment % 16 == 0))
    ensures RoundUpTo(x, alignment) >= x && RoundUpTo(x, alignment) % 8 == 0
    ensures RoundUpTo(x, alignment) == x + 8 <==> alignment > 8 && IsAligned(x + 8, alignment)
  {
    RoundUpToLeast(x, alignment);
    if alignment == 8 {
      RemIsModulo(x, 8);
    } else {
      SixteensAre8s(alignment);
      AlignedBy8(RoundUpTo(x, alignment), alignment);
      RoundedByEight(x, alignment);
    }
  }

  lemma RoundedByEight(x: nat, b: nat)
    requires b > 8
    ensures RoundUpTo(x, b) == x + 8 <==> IsAligned(x + 8, b)
  {
    RoundUpToLeast(x, b);
    if IsAligned(x + 8, b) { RemBefore(x + 8, b, 8); }
  }

  lemma {:induction false} RemBefore(p: nat, b: nat, d: nat)
    requires b > 0 && IsAligned(p, b) && 0 < d < b && d <= p
    ensures Rem(p - d, b) == b - d
  {
    if p <= b {
    } else {
      RemBefore(p - b, b, d);
    }
  }

  /** Alignment 16 and redzone 16 in a block at 8 modulo 16 is such a case. */
  lemma LargeHeaderCheckExample()
    ensures var chunkBeg := UserBeg(0x1008, 16, 16) - HEADER;
            chunkBeg == 0x1010 && 0x1008 + LARGE_HEADER > chunkBeg
  {
    RemIsModulo(0x1018, 16);
  }
}
