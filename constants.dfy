/**
 * The major-type tags of CBOR (RFC 7049, section 2.1) as the library defines
 * them: each tag is the major-type number already shifted left by 5 bits, so
 * that an initial byte is formed by OR-ing the tag with the 5-bit
 * "additional information" value.
 */
module Constants {

  /** An octet as written to the output stream. */
  type byte = x: int | 0 <= x < 256

  const TYPE_UNSIGNED_INT: byte := 0x00
  const TYPE_NEGATIVE_INT: byte := 0x20
  /** Defined by the library but never emitted by the encoder. */
  const TYPE_BYTE_STRING: byte := 0x40
  const TYPE_TEXT_STRING: byte := 0x60
  const TYPE_ARRAY: byte := 0x80
  const TYPE_MAP: byte := 0xa0
  /** Defined by the library but never emitted by the encoder. */
  const TYPE_TAG: byte := 0xc0
  const TYPE_MISC: byte := 0xe0

  /** The eight tags, indexed by their RFC 7049 major-type number. */
  const Tags: seq<byte> := [TYPE_UNSIGNED_INT, TYPE_NEGATIVE_INT, TYPE_BYTE_STRING,
    TYPE_TEXT_STRING, TYPE_ARRAY, TYPE_MAP, TYPE_TAG, TYPE_MISC]

  predicate IsTag(t: byte) {
    t in Tags
  }

  function Pow2(k: nat): (p: nat)
    ensures p >= 1
  {
    if k == 0 then 1 else 2 * Pow2(k - 1)
  }

  /** Bitwise OR of the low `k` bits of `a` and `b` (PHP's `|` on small non-negative ints). */
  function BitOr(a: nat, b: nat, k: nat): (r: nat)
    ensures r < Pow2(k)
  {
    if k == 0 then 0
    else (if a % 2 == 1 || b % 2 == 1 then 1 else 0) + 2 * BitOr(a / 2, b / 2, k - 1)
  }

  /** `a | b` on two octets. */
  function Or(a: byte, b: byte): byte {
    BitOr(a, b, 8)
  }

  /** The low `j` bits of `a` are all zero. */
  predicate LowBitsClear(a: nat, j: nat) {
    j == 0 || (a % 2 == 0 && LowBitsClear(a / 2, j - 1))
  }

  /** Each tag is its major-type number times 32, i.e. shifted left by 5 bits. */
  lemma TagValues()
    ensures |Tags| == 8
    ensures forall m :: 0 <= m < 8 ==> Tags[m] == m * 32
  {
  }

  /** The tags are pairwise distinct. */
  lemma TagsDistinct()
    ensures forall i, j :: 0 <= i < j < |Tags| ==> Tags[i] != Tags[j]
  {
  }

  /** No tag has any of its low 5 bits set. */
  lemma TagLowBitsClear(t: byte)
    requires IsTag(t)
    ensures LowBitsClear(t, 5)
  {
  }

  lemma {:induction false} OrWithZero(a: nat, k: nat)
    requires a < Pow2(k)
    ensures BitOr(a, 0, k) == a
  {
    if k > 0 {
      OrWithZero(a / 2, k - 1);
    }
  }

  /** OR-ing `b` into the clear low `j` bits of `a` is addition. */
  lemma {:induction false} OrIntoClearBits(a: nat, b: nat, j: nat, k: nat)
    requires j <= k && b < Pow2(j) && a < Pow2(k) && LowBitsClear(a, j)
    ensures BitOr(a, b, k) == a + b
  {
    if j == 0 {
      OrWithZero(a, k);
    } else {
      OrIntoClearBits(a / 2, b / 2, j - 1, k - 1);
    }
  }

  /**
   * `tag | ai` for an additional-information value below 32 keeps the
   * major-type bits of the tag and puts `ai` in the low 5 bits.
   */
  lemma OrTag(t: byte, ai: nat)
    requires IsTag(t) && ai < 32
    ensures Or(t, ai) == t + ai
    ensures Or(t, ai) / 32 == t / 32 && Or(t, ai) % 32 == ai
  {
    TagLowBitsClear(t);
    assert Pow2(5) == 32 && Pow2(8) == 256;
    OrIntoClearBits(t, ai, 5, 8);
    assert t % 32 == 0;
    SplitAt32(t, ai);
  }

  lemma SplitAt32(t: nat, ai: nat)
    requires t % 32 == 0 && ai < 32
    ensures (t + ai) / 32 == t / 32 && (t + ai) % 32 == ai
  {
  }

  /** The simple values the encoder writes for false, true and null. */
  lemma SimpleValues()
    ensures Or(TYPE_MISC, 20) == 0xf4
    ensures Or(TYPE_MISC, 21) == 0xf5
    ensures Or(TYPE_MISC, 22) == 0xf6
  {
    OrTag(TYPE_MISC, 20);
    OrTag(TYPE_MISC, 21);
    OrTag(TYPE_MISC, 22);
  }
}
