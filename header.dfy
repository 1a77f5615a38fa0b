/**
 * The header writer (`writeDataValue`): a major-type tag and a non-negative
 * argument become an initial byte followed by 0, 1, 2, 4 or 8 big-endian
 * bytes. The size classes are the library's own, which put 65535 in the
 * 4-byte class where RFC 7049 would use 2 bytes.
 */
module DataValue {
  import opened Constants

  /** The largest PHP integer on a 64-bit host. */
  const PHP_INT_MAX: nat := 0x7fff_ffff_ffff_ffff

  const TWO_32: nat := 0x1_0000_0000

  function Pow256(n: nat): (p: nat)
    ensures p >= 1
  {
    if n == 0 then 1 else 256 * Pow256(n - 1)
  }

  /**
   * The low `n` octets of `x`, most significant first; higher octets are
   * dropped, as PHP's `pack` drops them.
   */
  function BigEndian(x: nat, n: nat): (s: seq<byte>)
    ensures |s| == n
  {
    if n == 0 then [] else BigEndian(x / 256, n - 1) + [x % 256]
  }

  /** `pack("N", x)`: 32 bits, big-endian. */
  function PackN(x: nat): (s: seq<byte>)
    ensures |s| == 4
  {
    BigEndian(x, 4)
  }

  /** `pack("n", x)`: 16 bits, big-endian. */
  function Packn(x: nat): (s: seq<byte>)
    ensures |s| == 2
  {
    BigEndian(x, 2)
  }

  /** Reads octets as an unsigned big-endian number. */
  function FromBigEndian(s: seq<byte>): (x: nat)
    ensures x < Pow256(|s|)
  {
    if s == [] then 0 else FromBigEndian(s[..|s| - 1]) * 256 + s[|s| - 1]
  }

  /**
   * The bytes `writeDataValue(tag, v)` writes, branch for branch: the
   * 8-byte class is written as two 32-bit halves, high half first.
   */
  function Header(tag: byte, v: nat): (h: seq<byte>)
    requires v <= PHP_INT_MAX
  {
    if v >= TWO_32 then [Or(tag, 27)] + PackN(v / TWO_32) + PackN(v % TWO_32)
    else if v >= 65535 then [Or(tag, 26)] + PackN(v)
    else if v > 255 then [Or(tag, 25)] + Packn(v)
    else if v > 23 then [Or(tag, 24), v]
    else [Or(tag, v)]
  }

  /**
   * The number of argument bytes RFC 7049 needs for `v` when the shortest
   * form is chosen (canonical CBOR, section 3.9 of RFC 7049).
   */
  function ShortestWidth(v: nat): nat {
    if v < 24 then 0
    else if v < 256 then 1
    else if v < 0x1_0000 then 2
    else if v < TWO_32 then 4
    else 8
  }

  lemma {:induction false} BigEndianRoundTrip(x: nat, n: nat)
    requires x < Pow256(n)
    ensures FromBigEndian(BigEndian(x, n)) == x
  {
    if n > 0 {
      var s, q := BigEndian(x, n), x / 256;
      assert s[..n - 1] == BigEndian(q, n - 1) && s[n - 1] == x % 256;
      QuotientBound(x, Pow256(n - 1));
      BigEndianRoundTrip(q, n - 1);
      assert FromBigEndian(s) == q * 256 + x % 256;
    }
  }

  lemma QuotientBound(x: nat, p: nat)
    requires x < 256 * p
    ensures x / 256 < p
  {
  }

  lemma {:induction false} FromBigEndianAppend(a: seq<byte>, b: seq<byte>)
    ensures FromBigEndian(a + b) == FromBigEndian(a) * Pow256(|b|) + FromBigEndian(b)
  {
    if b == [] {
      assert a + b == a;
    } else {
      var b' := b[..|b| - 1];
      assert (a + b)[..|a + b| - 1] == a + b';
      FromBigEndianAppend(a, b');
      var x, p, y, c := FromBigEndian(a), Pow256(|b'|), FromBigEndian(b'), b[|b| - 1];
      assert FromBigEndian(a + b) == (x * p + y) * 256 + c;
      assert FromBigEndian(b) == y * 256 + c;
      assert Pow256(|b|) == 256 * p;
      Regroup(x, p, y, c);
    }
  }

  lemma Regroup(x: int, p: int, y: int, c: int)
    ensures (x * p + y) * 256 + c == x * (256 * p) + (y * 256 + c)
  {
  }

  /** The length of every header is 1, 2, 3, 5 or 9 bytes. */
  lemma HeaderLength(tag: byte, v: nat)
    requires v <= PHP_INT_MAX
    ensures |Header(tag, v)| in {1, 2, 3, 5, 9}
  {
  }

  /**
   * The five size classes, with the code's boundaries: the trailing bytes,
   * read big-endian, give back `v`; in the 8-byte class they are the high
   * and then the low 32 bits.
   */
  lemma HeaderSizeClasses(tag: byte, v: nat)
    requires v <= PHP_INT_MAX
    ensures var h := Header(tag, v);
      && (v <= 23 ==> h == [Or(tag, v)])
      && (24 <= v <= 255 ==> h == [Or(tag, 24), v])
      && (256 <= v <= 65534 ==> |h| == 3 && h[0] == Or(tag, 25) && FromBigEndian(h[1..]) == v)
      && (65535 <= v < TWO_32 ==> |h| == 5 && h[0] == Or(tag, 26) && FromBigEndian(h[1..]) == v)
      && (TWO_32 <= v ==>
            |h| == 9 && h[0] == Or(tag, 27)
            && FromBigEndian(h[1..5]) == v / TWO_32 && FromBigEndian(h[5..]) == v % TWO_32
            && FromBigEndian(h[1..]) == v)
  {
    var h := Header(tag, v);
    if TWO_32 <= v {
      assert Pow256(4) == TWO_32;
      assert h[1..5] == PackN(v / TWO_32) && h[5..] == PackN(v % TWO_32);
      BigEndianRoundTrip(v / TWO_32, 4);
      BigEndianRoundTrip(v % TWO_32, 4);
      assert h[1..] == h[1..5] + h[5..];
      FromBigEndianAppend(h[1..5], h[5..]);
    } else if 65535 <= v {
      assert Pow256(4) == TWO_32;
      assert h[1..] == PackN(v);
      BigEndianRoundTrip(v, 4);
    } else if 256 <= v {
      assert Pow256(2) == 0x1_0000;
      assert h[1..] == Packn(v);
      BigEndianRoundTrip(v, 2);
    }
  }

  /** 65535 is written in the 4-byte class; 65534 is the last 2-byte argument. */
  lemma Boundary65535(tag: byte)
    ensures Header(tag, 65535) == [Or(tag, 26), 0x00, 0x00, 0xff, 0xff]
    ensures Header(tag, 65534) == [Or(tag, 25), 0xff, 0xfe]
  {
  }

  /**
   * The header is as short as RFC 7049 allows for every argument except
   * 65535, which takes two bytes more than it needs.
   */
  lemma HeaderVersusShortest(tag: byte, v: nat)
    requires v <= PHP_INT_MAX
    ensures |Header(tag, v)| == 1 + ShortestWidth(v) <==> v != 65535
    ensures v == 65535 ==> |Header(tag, v)| == 1 + ShortestWidth(v) + 2
  {
  }
}
