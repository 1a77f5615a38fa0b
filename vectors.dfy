/**
 * The library's encoding examples (most of them from RFC 7049, appendix A),
 * each stated as what `encode` writes for that PHP value, and a few more
 * that show the array/map choice, the float exception and the silent
 * resource case. A PHP array is written with its keys: `[1, 2]` is
 * `[(IntKey(0), Int(1)), (IntKey(1), Int(2))]`.
 */
module Vectors {
  import opened Constants
  import opened DataValue
  import opened Values
  import opened Encoding
  import opened Decoder
  import opened Layout

  /** 0, 1, 10 and 23 each fit in the initial byte. */
  lemma TinyInt(x: nat)
    requires x <= 23
    ensures Enc(Int(x)) == Written([x])
  {
    OrTag(TYPE_UNSIGNED_INT, x);
  }

  /** 24 and 100 each take one argument byte. */
  lemma ByteInt(x: nat)
    requires 24 <= x <= 255
    ensures Enc(Int(x)) == Written([0x18, x])
  {
    OrTag(TYPE_UNSIGNED_INT, 24);
  }

  /** An integer of the 2-byte class: `0x19`, then the value big-endian. */
  lemma TwoByteInt(x: nat)
    requires 256 <= x <= 65534
    ensures Enc(Int(x)) == Written([0x19] + Packn(x))
  {
    OrTag(TYPE_UNSIGNED_INT, 25);
  }

  lemma Pack1000()
    ensures Packn(1000) == [0x03, 0xe8]
  {
  }

  lemma Int1000()
    ensures Enc(Int(1000)) == Written([0x19, 0x03, 0xe8])
  {
    TwoByteInt(1000);
    Pack1000();
  }

  /** An integer of the 4-byte class: `0x1a`, then the value big-endian. */
  lemma FourByteInt(x: nat)
    requires 65535 <= x < TWO_32
    ensures Enc(Int(x)) == Written([0x1a] + PackN(x))
  {
    OrTag(TYPE_UNSIGNED_INT, 26);
  }

  lemma Pack1000000()
    ensures PackN(1000000) == [0x00, 0x0f, 0x42, 0x40]
  {
  }

  lemma Int1000000()
    ensures Enc(Int(1000000)) == Written([0x1a, 0x00, 0x0f, 0x42, 0x40])
  {
    FourByteInt(1000000);
    Pack1000000();
  }

  /** An integer of the 8-byte class: the high 32 bits, then the low 32 bits. */
  lemma EightByteInt(x: nat, top: nat, bottom: nat)
    requires TWO_32 <= x <= PHP_INT_MAX && x / TWO_32 == top && x % TWO_32 == bottom
    ensures Enc(Int(x)) == Written([0x1b] + PackN(top) + PackN(bottom))
  {
    OrTag(TYPE_UNSIGNED_INT, 27);
  }

  lemma PackHalves()
    ensures PackN(0xe8) == [0x00, 0x00, 0x00, 0xe8]
    ensures PackN(0xd4a5_1000) == [0xd4, 0xa5, 0x10, 0x00]
  {
  }

  /** 10^12 needs the 8-byte class: high half 0xe8, low half 0xd4a51000. */
  lemma Int1000000000000()
    ensures Enc(Int(1000000000000)) == Written([0x1b, 0x00, 0x00, 0x00, 0xe8, 0xd4, 0xa5, 0x10, 0x00])
  {
    EightByteInt(1000000000000, 0xe8, 0xd4a5_1000);
    PackHalves();
  }

  /** -1 and -10 each fit in the initial byte, as -1 - v. */
  lemma NegativeTiny(x: int)
    requires -24 <= x <= -1
    ensures Enc(Int(x)) == Written([0x1f - x])
  {
    OrTag(TYPE_NEGATIVE_INT, -1 - x);
  }

  /** -100 takes one argument byte, -1 - v. */
  lemma NegativeByte(x: int)
    requires -256 <= x <= -25
    ensures Enc(Int(x)) == Written([0x38, -1 - x])
  {
    OrTag(TYPE_NEGATIVE_INT, 24);
  }

  /** A negative integer whose argument -1 - x is in the 2-byte class. */
  lemma NegativeTwoByte(x: int)
    requires -65535 <= x <= -257
    ensures Enc(Int(x)) == Written([0x39] + Packn(-1 - x))
  {
    OrTag(TYPE_NEGATIVE_INT, 25);
  }

  lemma Pack999()
    ensures Packn(999) == [0x03, 0xe7]
  {
  }

  lemma NegativeInt1000()
    ensures Enc(Int(-1000)) == Written([0x39, 0x03, 0xe7])
  {
    NegativeTwoByte(-1000);
    Pack999();
  }

  lemma Simple()
    ensures Enc(Bool(false)) == Written([0xf4])
    ensures Enc(Bool(true)) == Written([0xf5])
    ensures Enc(Null) == Written([0xf6])
  {
    SimpleValues();
  }

  /**
   * A string of fewer than 24 bytes, whatever its bytes: one header byte
   * holding the byte count, then the bytes as they are ("" is 0x60, "IETF"
   * is 0x64 'I' 'E' 'T' 'F', the two-byte "\u00fc" is 0x62 0xc3 0xbc).
   */
  lemma ShortText(s: seq<byte>)
    requires |s| <= 23
    ensures Enc(Str(s)) == Written([0x60 + |s|] + s)
  {
    OrTag(TYPE_TEXT_STRING, |s|);
  }

  /** The array headers of the small lists below. */
  lemma SmallArrayHeaders()
    ensures Header(TYPE_ARRAY, 2) == [0x82] && Header(TYPE_ARRAY, 3) == [0x83]
  {
    OrTag(TYPE_ARRAY, 2);
    OrTag(TYPE_ARRAY, 3);
  }

  lemma EmptyArray()
    ensures Enc(PhpArray([])) == Written([0x80])
  {
    OrTag(TYPE_ARRAY, 0);
  }

  /** A list of two integers below 24: one byte for the header, one per element. */
  lemma TinyPair(x: nat, y: nat)
    requires x <= 23 && y <= 23
    ensures Enc(PhpArray([(IntKey(0), Int(x)), (IntKey(1), Int(y))])) == Written([0x82, x, y])
  {
    TinyInt(x);
    TinyInt(y);
    TwoElements(Int(x), Int(y), [x], [y]);
    OrTag(TYPE_ARRAY, 2);
  }

  lemma SmallTriple()
    ensures Enc(PhpArray([(IntKey(0), Int(1)), (IntKey(1), Int(2)), (IntKey(2), Int(3))]))
      == Written([0x83, 0x01, 0x02, 0x03])
  {
    TinyInt(1);
    TinyInt(2);
    TinyInt(3);
    ThreeElements(Int(1), Int(2), Int(3), [0x01], [0x02], [0x03]);
    OrTag(TYPE_ARRAY, 3);
  }

  /** `[a, [b, c], [d, e]]` for integers below 24, such as `[1, [2, 3], [4, 5]]`. */
  lemma NestedArrays(a: nat, b: nat, c: nat, d: nat, e: nat)
    requires a <= 23 && b <= 23 && c <= 23 && d <= 23 && e <= 23
    ensures Enc(PhpArray([(IntKey(0), Int(a)),
                          (IntKey(1), PhpArray([(IntKey(0), Int(b)), (IntKey(1), Int(c))])),
                          (IntKey(2), PhpArray([(IntKey(0), Int(d)), (IntKey(1), Int(e))]))]))
      == Written([0x83, a, 0x82, b, c, 0x82, d, e])
  {
    TinyInt(a);
    ListOfTwo(Int(b), Int(c));
    ListOfTwo(Int(d), Int(e));
    TinyPair(b, c);
    TinyPair(d, e);
    ThreeElements(Int(a), PhpArray([(IntKey(0), Int(b)), (IntKey(1), Int(c))]),
      PhpArray([(IntKey(0), Int(d)), (IntKey(1), Int(e))]),
      [a], [0x82, b, c], [0x82, d, e]);
    SmallArrayHeaders();
  }

  /** The PHP list `[1, 2, ..., n]`. */
  function Counting(n: nat): (p: seq<(Key, Value)>)
    requires n <= 255
    ensures |p| == n && ValidEntries(p) && IsList(p)
  {
    var p := seq(n, i => (IntKey(i), Int(i + 1)));
    assert forall i :: 0 <= i < n ==> p[i] == (IntKey(i), Int(i + 1));
    assert IsList(p);
    assert forall i :: 0 <= i < n ==> ValidKey(p[i].0) && Valid(p[i].1);
    assert ValidEntries(p);
    p
  }

  /** The encodings of 1, 2, ..., n, one per element. */
  function CountingParts(n: nat): (xs: seq<seq<byte>>)
    requires n <= 255
    ensures |xs| == n
  {
    seq(n, i => if 0 <= i < 255 then EncInt(i + 1) else [])
  }

  lemma CountingWrites(n: nat)
    requires n <= 255
    ensures ElementsWrite(Counting(n), CountingParts(n))
  {
  }

  /** Each of 1..n below 24 is one byte, so together they are the bytes 1..n. */
  lemma {:induction false} FlattenSingletons(n: nat)
    requires n <= 23
    ensures Flatten(CountingParts(n)) == seq(n, i => if 0 <= i < 23 then (i + 1) as byte else 0)
  {
    if n > 0 {
      assert CountingParts(n)[..n - 1] == CountingParts(n - 1);
      FlattenSingletons(n - 1);
      TinyInt(n);
    }
  }

  lemma FlattenTwentyFive()
    ensures Flatten(CountingParts(25)) == Flatten(CountingParts(23)) + [0x18, 0x18] + [0x18, 0x19]
  {
    var xs := CountingParts(25);
    assert xs[..24] == CountingParts(24);
    assert CountingParts(24)[..23] == CountingParts(23);
    ByteInt(24);
    ByteInt(25);
  }

  /** `[1, 2, ..., n]` is the array header with count n and the integers in order. */
  lemma CountingLayout(n: nat)
    requires n <= 255
    ensures Enc(PhpArray(Counting(n))) == Written(Header(TYPE_ARRAY, n) + Flatten(CountingParts(n)))
  {
    CountingWrites(n);
    ListLayout(Counting(n), CountingParts(n));
  }

  lemma TwentyFiveBytes(h: seq<byte>, f: seq<byte>)
    requires h == [0x98, 0x19] && f == seq(23, i => if 0 <= i < 23 then (i + 1) as byte else 0)
    ensures h + (f + [0x18, 0x18] + [0x18, 0x19]) == [0x98, 0x19, 0x01, 0x02, 0x03, 0x04, 0x05, 0x06, 0x07, 0x08, 0x09,
      0x0a, 0x0b, 0x0c, 0x0d, 0x0e, 0x0f, 0x10, 0x11, 0x12, 0x13, 0x14, 0x15, 0x16, 0x17, 0x18, 0x18, 0x18, 0x19]
  {
  }

  /** `[1, 2, ..., 25]`: the count 25 needs an argument byte, and so do 24 and 25. */
  lemma CountToTwentyFive()
    ensures Enc(PhpArray(Counting(25))) == Written([0x98, 0x19, 0x01, 0x02, 0x03, 0x04, 0x05, 0x06, 0x07, 0x08, 0x09,
      0x0a, 0x0b, 0x0c, 0x0d, 0x0e, 0x0f, 0x10, 0x11, 0x12, 0x13, 0x14, 0x15, 0x16, 0x17, 0x18, 0x18, 0x18, 0x19])
  {
    CountingLayout(25);
    FlattenTwentyFive();
    FlattenSingletons(23);
    OrTag(TYPE_ARRAY, 24);
    TwentyFiveBytes(Header(TYPE_ARRAY, 25), Flatten(CountingParts(23)));
  }

  /** `(object)[]`: an object is a map even when it has no properties. */
  lemma EmptyObject()
    ensures Enc(Obj([])) == Written([0xa0])
  {
    OrTag(TYPE_MAP, 0);
  }

  /**
   * A PHP array whose keys skip an index is written as a map, key before
   * value: `[0 => "a", 2 => "b"]`.
   */
  lemma SparseArray()
    ensures Enc(PhpArray([(IntKey(0), Str([0x61])), (IntKey(2), Str([0x62]))]))
      == Written([0xa2, 0x00, 0x61, 0x61, 0x02, 0x61, 0x62])
  {
    TinyInt(0);
    TinyInt(2);
    ShortText([0x61]);
    ShortText([0x62]);
    TwoPairs(IntKey(0), Str([0x61]), IntKey(2), Str([0x62]), [0x00], [0x61, 0x61], [0x02], [0x61, 0x62]);
    OrTag(TYPE_MAP, 2);
  }

  /** A float throws before anything is written. */
  lemma FloatThrows()
    ensures Enc(Float) == Emission([], true)
  {
  }

  /** `[x, 1.5, c]` for an integer x below 24: the header and x stay written. */
  lemma FloatSecond(x: nat, c: Value)
    requires x <= 23 && Valid(c)
    ensures Enc(PhpArray([(IntKey(0), Int(x)), (IntKey(1), Float), (IntKey(2), c)])) == Emission([0x83, x], true)
  {
    TinyInt(x);
    ThrowAtSecond(Int(x), Float, c, [x]);
    SmallArrayHeaders();
  }

  /** Inside an array, what was written before the float stays written: `[1, 1.5, 3]`. */
  lemma FloatInArray()
    ensures Enc(PhpArray([(IntKey(0), Int(1)), (IntKey(1), Float), (IntKey(2), Int(3))]))
      == Emission([0x83, 0x01], true)
  {
    FloatSecond(1, Int(3));
  }

  /**
   * A value of no supported category (a resource) writes nothing, yet the
   * array around it has already announced one element.
   */
  lemma ResourceInArray()
    ensures Enc(PhpArray([(IntKey(0), Resource)])) == Written([0x81])
  {
    var p := [(IntKey(0), Resource)];
    assert IsList(p);
    assert Header(TYPE_ARRAY, 1) == [0x81] by { OrTag(TYPE_ARRAY, 1); }
    assert p[..1][..0] == [] && p[..1] == p;
  }

  /** That output is not a complete data item: the announced element is missing. */
  lemma ResourceBreaksFraming()
    ensures Enc(PhpArray([(IntKey(0), Resource)])).bytes == [0x81]
    ensures Decode([0x81]) == None
  {
    ResourceInArray();
  }
}
