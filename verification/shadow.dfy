/** Shadow memory: one byte for each granule of eight application bytes. */
module Shadow {
  import opened Words
  import opened Memory

  const LEFT_REDZONE: Byte := 0xfa   // kAsanHeapLeftRedzoneMagic
  const HEAP_FREE: Byte := 0xfd      // kAsanHeapFreeMagic

  /** A shadow byte is a signed count of addressable leading bytes, with 0 for all eight. */
  predicate Addressable(shadow: Bytes, a: int) {
    var s := shadow(a / GRANULE);
    s == 0 || (s < 128 && a % GRANULE < s)
  }

  /** The shadow bytes of the granules that start in [from, to) get `value`. */
  function FillShadow(shadow: Bytes, from: int, to: int, value: Byte): Bytes {
    g => if from <= GRANULE * g < to then value else shadow(g)
  }

  ghost predicate Filled(shadow: Bytes, from: int, to: int, value: Byte) {
    forall g :: from <= GRANULE * g < to ==> shadow(g) == value
  }

  ghost predicate SameShadowOutside(s: Bytes, s': Bytes, from: int, to: int) {
    forall g :: !(from <= GRANULE * g < to) ==> s(g) == s'(g)
  }

  /**
   * PoisonShadow on `granules` granules from granule `first`: the CHECKs that address and size are
   * granule-aligned hold by construction. A non-zero value needs poisoning to be on.
   */
  function PoisonShadow(shadow: Bytes, canPoison: bool, first: int, granules: int, value: Byte): Bytes {
    if value != 0 && !canPoison then shadow
    else FillShadow(shadow, GRANULE * first, GRANULE * (first + granules), value)
  }

  /** The granule of a granule-aligned address. */
  function GranuleAt(a: int): (g: int)
    ensures forall k :: a == GRANULE * k ==> g == k
  {
    a / GRANULE
  }

  /** The number of granules that `size` bytes from a granule boundary reach into. */
  function GranuleCount(size: nat): nat { (size + 7) / GRANULE }

  /** What FastPoisonShadowPartialRightRedzone writes `i` bytes after its address. */
  function PartialByte(i: int, size: int, value: Byte, poisonPartial: bool): Byte {
    if i + GRANULE <= size then 0
    else if i >= size then value
    else if poisonPartial then size - i else 0
  }

  method FastPoisonShadowPartialRightRedzone(shadow: Bytes, first: int, size: int, granules: nat,
                                             value: Byte, poisonPartial: bool)
    returns (r: Bytes)
    ensures SameShadowOutside(shadow, r, GRANULE * first, GRANULE * (first + granules))
    ensures forall g :: first <= g < first + granules ==>
              r(g) == PartialByte(GRANULE * (g - first), size, value, poisonPartial)
  {
    r := shadow;
    var k := 0;
    while k < granules
      invariant 0 <= k <= granules
      invariant SameShadowOutside(shadow, r, GRANULE * first, GRANULE * (first + k))
      invariant forall g :: first <= g < first + k ==>
                  r(g) == PartialByte(GRANULE * (g - first), size, value, poisonPartial)
    {
      var i := GRANULE * k;
      if i + GRANULE <= size {
        r := Store(r, first + k, 0);
      } else if i >= size {
        r := Store(r, first + k, value);
      } else {
        r := Store(r, first + k, if poisonPartial then size - i else 0);
      }
      k := k + 1;
    }
  }

  /** Granule `g` holds user bytes of a chunk whose user memory starts at granule `first`. */
  ghost predicate UserGranule(first: int, size: nat, g: int) {
    first <= g && GRANULE * (g - first) < size
  }

  /** The shadow byte that makes exactly the user bytes of granule `g` addressable. */
  ghost function UserShadow(first: int, size: nat, poisonPartial: bool, g: int): Byte {
    var left := size - GRANULE * (g - first);
    if left >= GRANULE || left <= 0 || !poisonPartial then 0 else left
  }

  /** Without partial poisoning the last granule is wholly addressable. */
  ghost function AddressableSize(size: nat, poisonPartial: bool): nat {
    if poisonPartial then size else GRANULE * GranuleCount(size)
  }

  lemma UserShadowMeaning(shadow: Bytes, first: int, size: nat, poisonPartial: bool, a: int)
    requires UserGranule(first, size, a / GRANULE)
    requires shadow(a / GRANULE) == UserShadow(first, size, poisonPartial, a / GRANULE)
    ensures Addressable(shadow, a) <==> GRANULE * first <= a < GRANULE * first + AddressableSize(size, poisonPartial)
  {
  }

  /** Bytes outside the user granules are outside the user memory. */
  lemma OutsideUserGranules(first: int, size: nat, poisonPartial: bool, a: int)
    requires !UserGranule(first, size, a / GRANULE)
    ensures !(GRANULE * first <= a < GRANULE * first + AddressableSize(size, poisonPartial))
  {
  }
}
