/** Redzone sizes and requested alignments, packed into three bits each. */
module Redzones {
  import opened Words

  /** Allocator::CheckOptions. */
  predicate CheckOptions(minRedzone: nat, maxRedzone: nat) {
    && minRedzone >= 16
    && maxRedzone >= minRedzone
    && maxRedzone <= 2048
    && IsPowerOfTwo(minRedzone)
    && IsPowerOfTwo(maxRedzone)
  }

  predicate IsRedzoneSize(rz: nat) { 16 <= rz <= 2048 && IsPowerOfTwo(rz) }

  function RZLog2Size(rzLog: nat): nat
    requires rzLog < 8
  {
    16 * Pow2(rzLog)
  }

  function RZSize2Log(rzSize: nat): (r: int)
    requires IsRedzoneSize(rzSize)
  {
    Log2(rzSize) - 4
  }

  lemma Pow2Small()
    ensures Pow2(0) == 1 && Pow2(1) == 2 && Pow2(2) == 4 && Pow2(3) == 8 && Pow2(4) == 16
    ensures Pow2(5) == 32 && Pow2(6) == 64 && Pow2(7) == 128 && Pow2(10) == 1024 && Pow2(12) == 4096
  {
    assert Pow2(3) == 8;
    assert Pow2(5) == 32;
    assert Pow2(8) == 256;
  }

  lemma LogOfSize(rzLog: nat)
    requires rzLog < 8
    ensures IsRedzoneSize(RZLog2Size(rzLog)) && RZSize2Log(RZLog2Size(rzLog)) == rzLog
  {
    Pow2IsPowerOfTwo(rzLog + 4);
    assert Pow2(rzLog + 4) == 16 * Pow2(rzLog) by { assert Pow2(rzLog + 2) == 4 * Pow2(rzLog); }
    Pow2Monotone(rzLog, 7);
    Pow2Small();
  }

  lemma SizeOfLog(rzSize: nat)
    requires IsRedzoneSize(rzSize)
    ensures 0 <= RZSize2Log(rzSize) < 8 && RZLog2Size(RZSize2Log(rzSize)) == rzSize
  {
    var k := Log2(rzSize);
    Pow2Small();
    Pow2Monotone(Min(k, 3), 3);
    Pow2Monotone(12, Max(k, 12));
    assert Pow2(k) == 16 * Pow2(k - 4) by { assert Pow2(k - 2) == 4 * Pow2(k - 4); }
  }

  /** The two conversions undo each other, so the CHECK_EQ in RZSize2Log never fires. */
  lemma RedzoneLogRoundTrip(rzLog: nat, rzSize: nat)
    requires rzLog < 8 && IsRedzoneSize(rzSize)
    ensures IsRedzoneSize(RZLog2Size(rzLog)) && RZSize2Log(RZLog2Size(rzLog)) == rzLog
    ensures 0 <= RZSize2Log(rzSize) < 8 && RZLog2Size(RZSize2Log(rzSize)) == rzSize
  {
    LogOfSize(rzLog);
    SizeOfLog(rzSize);
  }

  /** The adaptive part of ComputeRZLog: larger requests get larger redzones. */
  function NaturalRZLog(size: nat): (r: nat)
    ensures r < 8
  {
    if size <= 64 - 16 then 0
    else if size <= 128 - 32 then 1
    else if size <= 512 - 64 then 2
    else if size <= 4096 - 128 then 3
    else if size <= 0x4000 - 256 then 4
    else if size <= 0x8000 - 512 then 5
    else if size <= 0x1_0000 - 1024 then 6
    else 7
  }

  /** ComputeRZLog: the clamp is done on logarithms, with the header size as a floor. */
  function ComputeRZLog(size: nat, minRedzone: nat, maxRedzone: nat): (r: int)
    requires CheckOptions(minRedzone, maxRedzone)
  {
    var hdrLog := RZSize2Log(16);
    var minLog := RZSize2Log(minRedzone);
    var maxLog := RZSize2Log(maxRedzone);
    Min(Max(NaturalRZLog(size), Max(minLog, hdrLog)), Max(maxLog, hdrLog))
  }

  /** Redzone logs and redzone sizes are ordered alike. */
  lemma RZLogOrder(a: nat, b: nat)
    requires a < 8 && b < 8
    ensures a <= b <==> RZLog2Size(a) <= RZLog2Size(b)
  {
    if a <= b { Pow2Monotone(a, b); } else { Pow2Monotone(b, a); }
  }

  /** The redzone in bytes. */
  function RedzoneSize(size: nat, minRedzone: nat, maxRedzone: nat): (rz: nat)
    requires CheckOptions(minRedzone, maxRedzone)
    ensures IsRedzoneSize(rz)
    ensures rz == Min(Max(RZLog2Size(NaturalRZLog(size)), minRedzone), maxRedzone)
    ensures minRedzone <= rz <= maxRedzone
  {
    RedzoneLogRoundTrip(NaturalRZLog(size), 16);
    RedzoneLogRoundTrip(0, minRedzone);
    RedzoneLogRoundTrip(0, maxRedzone);
    Pow2Small();
    RZLogOrder(NaturalRZLog(size), RZSize2Log(minRedzone));
    RZLogOrder(NaturalRZLog(size), RZSize2Log(maxRedzone));
    RZLogOrder(RZSize2Log(minRedzone), RZSize2Log(maxRedzone));
    RZLog2Size(ComputeRZLog(size, minRedzone, maxRedzone))
  }

  /** The chosen redzone never shrinks as the request grows. */
  lemma RedzoneMonotone(small: nat, large: nat, minRedzone: nat, maxRedzone: nat)
    requires CheckOptions(minRedzone, maxRedzone) && small <= large
    ensures RedzoneSize(small, minRedzone, maxRedzone) <= RedzoneSize(large, minRedzone, maxRedzone)
  {
    RZLogOrder(NaturalRZLog(small), NaturalRZLog(large));
  }

  /** A redzone of 16 bytes on a request above 65536 bytes needs max_redzone == 16. */
  lemma LargeRedzone(size: nat, minRedzone: nat, maxRedzone: nat)
    requires CheckOptions(minRedzone, maxRedzone) && size > 0x1_0000
    ensures RedzoneSize(size, minRedzone, maxRedzone) == maxRedzone
  {
    Pow2Small();
  }

  /** The CHECK in Log2 passes: the alignment is below 8, above 512, or a power of two. */
  predicate LogIsDefined(alignment: nat) { alignment < 8 || alignment > 512 || IsPowerOfTwo(alignment) }

  function UserRequestedAlignmentLog(alignment: nat): (r: nat)
    requires LogIsDefined(alignment)
    ensures r < 8
  {
    if alignment < 8 then 0 else
      var a := if alignment > 512 then 512 else alignment;
      assert IsPowerOfTwo(512);
      AlignmentLogRange(a);
      Log2(a) - 2
  }

  lemma AlignmentLogOf8()
    ensures IsPowerOfTwo(8) && UserRequestedAlignmentLog(8) == 1
  {
    assert Log2(8) == 1 + Log2(4) == 2 + Log2(2) == 3;
  }

  lemma AlignmentLogRange(a: nat)
    requires 8 <= a <= 512 && IsPowerOfTwo(a)
    ensures 3 <= Log2(a) <= 9
  {
    var k := Log2(a);
    Pow2Small();
    Pow2Monotone(Min(k, 2), 2);
    Pow2Monotone(10, Max(k, 10));
  }

  function UserAlignment(alignmentLog: nat): nat {
    if alignmentLog == 0 then 0 else Pow2(alignmentLog + 2)
  }

  /** The three-bit alignment field reads back as the alignment clamped to 512, or 0 below 8. */
  lemma AlignmentLogRoundTrip(alignment: nat)
    requires LogIsDefined(alignment)
    ensures UserAlignment(UserRequestedAlignmentLog(alignment)) ==
            if alignment < 8 then 0 else Min(alignment, 512)
  {
    if alignment >= 8 {
      var a := if alignment > 512 then 512 else alignment;
      assert IsPowerOfTwo(512);
      AlignmentLogRange(a);
    }
  }
}
