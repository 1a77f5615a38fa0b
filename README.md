# sabre-cbor encoder, modelled in Dafny

This project models the CBOR encoder of the `sabre-cbor` PHP library
(RFC 7049, Concise Binary Object Representation). An `Encoder` writes a
PHP value to an output stream:

- integers become major type 0, or major type 1 with argument `-1 - v`;
- strings become major type 3 with their byte length, then their bytes;
- PHP arrays become major type 4 when their keys are exactly `0, 1, ..., n-1`
  in order, and a major-type-5 map of the same pairs otherwise;
- objects become major-type-5 maps, each key followed by its value;
- `false`, `true` and `null` become the simple values 20, 21 and 22;
- a float throws `InvalidArgumentException`;
- a value of any other category (a resource, say) writes nothing.

Every header goes through `writeDataValue`. It writes the tag OR-ed with an
"additional information" value, followed by 0, 1, 2, 4 or 8 big-endian
argument bytes.

Modules, in dependency order:

- `Constants` (`constants.dfy`): the eight `TYPE_*` tags, and PHP's `|` on
  octets (`Or`) defined bit by bit.
- `DataValue` (`header.dfy`): `Header(tag, v)`, the bytes `writeDataValue`
  writes, with the big-endian packing of PHP's `pack("N")` and `pack("n")`.
- `Values` (`values.dfy`): the PHP values the encoder dispatches on. An array
  or object is its sequence of key/value pairs in iteration order.
- `Encoding` (`encoding.dfy`): `Enc(v)`, the bytes `encode` writes together
  with whether it threw. A PHP exception does not take back bytes already
  written.
- `Decoder` (`decoder.dfy`): an independent reader of RFC 7049 items, and
  `Meaning(v)`, the CBOR item a PHP value stands for. It is the reference the
  round-trip lemmas are stated against.
- `RoundTrip` (`roundtrip.dfy`): what the encoder writes reads back as the
  value's item, whatever bytes follow it.
- `CBOR` (`encoder.dfy`): the `Encoder` class. Its stream is the field
  `out: seq<byte>`. Each method appends to `out`, and its postcondition gives
  the appended bytes by the functions of `Encoding`. The loops of
  `encodeArray` and `encodeObject` are loops here, with invariants.
- `Layout` (`layout.dfy`): arrays and maps as the header followed by the
  encodings of their parts, concatenated in order.
- `Vectors` (`vectors.dfy`): the library's test vectors, plus a few that show
  the array/map choice, the float exception and the resource case.

The code and its own comment disagree on one point. The comment at
`lib/Sabre/CBOR/Encoder.php:185-186` sends only values larger than a 16-bit
unsigned int to the 4-byte class, so the 2-byte class would run from 256 to
65535. The guard at `lib/Sabre/CBOR/Encoder.php:187` is `$val >= 65535`,
however, so 65535 is written in the 4-byte class. That is two bytes longer
than canonical CBOR (section 3.9 of RFC 7049) requires. The model follows the
code, and `DataValue.Boundary65535` and `DataValue.HeaderVersusShortest`
state the consequence.

## Model

| member | source | states |
|---|---|---|
| Constants.Or | lib/Sabre/CBOR/Encoder.php:177-203 | defines PHP's `OR` on two octets bit by bit; `Constants.OrTag` proves it is addition when the tag's low bits are clear |
| Constants.TagValues | lib/Sabre/CBOR/constants.php:18-54 | the eight tags are the major-type numbers 0..7 shifted left by 5 bits, i.e. times 32 |
| Constants.TagsDistinct | lib/Sabre/CBOR/constants.php:18-54 | the eight tags are pairwise distinct |
| Constants.TagLowBitsClear | lib/Sabre/CBOR/constants.php:5-13 | every tag has its low 5 bits clear |
| Constants.OrTag | lib/Sabre/CBOR/Encoder.php:177-203 | `tag OR ai` for ai < 32 is tag + ai: the top 3 bits stay the major type and the low 5 bits are ai |
| Constants.SimpleValues | lib/Sabre/CBOR/Encoder.php:139-157 | `TYPE_MISC` OR 20, 21 and 22 are 0xf4, 0xf5 and 0xf6 |
| DataValue.PackN | lib/Sabre/CBOR/Encoder.php:183-189 | defines `pack("N")`: the value as four big-endian bytes |
| DataValue.Packn | lib/Sabre/CBOR/Encoder.php:194 | defines `pack("n")`: the value as two big-endian bytes |
| DataValue.Header | lib/Sabre/CBOR/Encoder.php:168-206 | defines the bytes `writeDataValue` writes, branch for branch with the code's guards; `CBOR.Encoder.WriteDataValue` is proved to write exactly these, and the `DataValue` and `RoundTrip` lemmas state its properties |
| DataValue.BigEndianRoundTrip | lib/Sabre/CBOR/Encoder.php:183-194 | the big-endian packing of `pack("N")`/`pack("n")` reads back as the packed number |
| DataValue.HeaderLength | lib/Sabre/CBOR/Encoder.php:168-206 | every header is 1, 2, 3, 5 or 9 bytes long |
| DataValue.HeaderSizeClasses | lib/Sabre/CBOR/Encoder.php:175-204 | the five size classes with the code's boundaries (23, 255, 65534, 2^32-1): the initial byte is `tag OR ai`, and the trailing bytes read big-endian give back v; in the 8-byte class the high 32 bits come first, then the low 32 bits |
| DataValue.Boundary65535 | lib/Sabre/CBOR/Encoder.php:187-194 | 65535 is written as `tag OR 26` then `00 00 ff ff`, and 65534 as `tag OR 25` then `ff fe` |
| DataValue.HeaderVersusShortest | lib/Sabre/CBOR/Encoder.php:187-194 | the header is as short as RFC 7049 allows if and only if v is not 65535; for 65535 it is two bytes longer |
| Encoding.Enc | lib/Sabre/CBOR/Encoder.php:28-56 | defines what `encode` writes and whether it throws, by runtime category: a float throws having written nothing, and an unrecognised category writes nothing |
| Encoding.EncInt | lib/Sabre/CBOR/Encoder.php:61-71 | defines `encodeInt`: the unsigned header for v >= 0, otherwise the negative header with argument -1 - v |
| Encoding.EncString | lib/Sabre/CBOR/Encoder.php:79-85 | defines `encodeString`: the text header with the byte length, then the bytes |
| Encoding.EncArray | lib/Sabre/CBOR/Encoder.php:94-113 | defines `encodeArray`: the array header and the elements when the keys are 0..n-1 in order, otherwise `EncObject` of the same pairs |
| Encoding.EncObject | lib/Sabre/CBOR/Encoder.php:121-131 | defines `encodeObject`: the map header with the count, then the pairs |
| Encoding.EncElems | lib/Sabre/CBOR/Encoder.php:109-111 | defines the element loop: each element in order, nothing after one that throws |
| Encoding.EncProps | lib/Sabre/CBOR/Encoder.php:126-129 | defines the property loop: each pair in order, nothing after one that throws |
| Encoding.EncPair | lib/Sabre/CBOR/Encoder.php:127-128 | defines one property: the key's encoding, then the value's |
| Encoding.EncBool | lib/Sabre/CBOR/Encoder.php:139-147 | defines `encodeBool`: simple value 21 for true, 20 for false |
| Encoding.EncNull | lib/Sabre/CBOR/Encoder.php:154-158 | defines `encodeNull`: simple value 22 |
| Encoding.KeyNeverThrows | lib/Sabre/CBOR/Encoder.php:126-128 | a key is encoded as the integer or string it is, and never throws |
| Encoding.ThrownIffFloat | lib/Sabre/CBOR/Encoder.php:28-56 | `encode` throws if and only if a float occurs somewhere in the value |
| Encoding.ElemsStep | lib/Sabre/CBOR/Encoder.php:109-111 | after elements that did not throw, element i's bytes follow; if it throws, no later element writes anything |
| Encoding.PropsStep | lib/Sabre/CBOR/Encoder.php:126-129 | after pairs that did not throw, pair i writes its key's bytes and then its value's; if the value throws, no later pair writes anything |
| Encoding.ElemsStopAtThrow | lib/Sabre/CBOR/Encoder.php:109-111 | once an element has thrown, the array writes nothing more |
| Encoding.PropsStopAtThrow | lib/Sabre/CBOR/Encoder.php:126-129 | once a value has thrown, the map writes nothing more |
| RoundTrip.HeaderRoundTrip | lib/Sabre/CBOR/Encoder.php:168-206 | a header read back gives the tag's major type and the argument v, leaving the following bytes untouched |
| RoundTrip.IntRoundTrip | lib/Sabre/CBOR/Encoder.php:61-71 | an integer reads back as unsigned v, or as negative with argument -1 - v, and that item denotes the integer itself |
| RoundTrip.TextRoundTrip | lib/Sabre/CBOR/Encoder.php:79-85 | a string reads back as a text item with exactly its bytes, its length counted in bytes |
| RoundTrip.SimpleRoundTrip | lib/Sabre/CBOR/Encoder.php:139-157 | the one-byte simple values read back as simple values 20, 21 and 22 |
| RoundTrip.ElemsRoundTrip | lib/Sabre/CBOR/Encoder.php:108-111 | the elements of a list read back as their items in order |
| RoundTrip.PropsRoundTrip | lib/Sabre/CBOR/Encoder.php:125-129 | the pairs of a map read back as their key and value items in order |
| RoundTrip.ObjectRoundTrip | lib/Sabre/CBOR/Encoder.php:121-131 | an object reads back as a map of its pairs in order |
| RoundTrip.ValueRoundTrip | lib/Sabre/CBOR/Encoder.php:28-131 | every value without floats or other categories is encoded without throwing and reads back as its item (an array exactly when the keys are 0..n-1 in order, otherwise a map of the same pairs), whatever bytes follow |
| CBOR.Encoder.constructor | lib/Sabre/CBOR/Encoder.php:22-26 | the encoder writes after whatever the stream already holds |
| CBOR.Encoder.Encode | lib/Sabre/CBOR/Encoder.php:28-56 | dispatch on the category: appends exactly `Enc(v)` and throws exactly when `Enc(v)` does (a float throws and appends nothing; another category appends nothing) |
| CBOR.Encoder.EncodeInt | lib/Sabre/CBOR/Encoder.php:61-71 | appends the unsigned header for v >= 0, otherwise the negative header with argument -1 - v |
| CBOR.Encoder.EncodeString | lib/Sabre/CBOR/Encoder.php:79-85 | appends the text header with the byte length, then the bytes |
| CBOR.Encoder.EncodeArray | lib/Sabre/CBOR/Encoder.php:94-113 | the key loop stops at the first key other than its index and hands over to the map encoder; otherwise the method appends the array header and each element in order, stopping at a throw |
| CBOR.Encoder.EncodeObject | lib/Sabre/CBOR/Encoder.php:121-131 | appends the map header and, pair by pair, the key and then the value, stopping at a throw |
| CBOR.Encoder.EncodeProperty | lib/Sabre/CBOR/Encoder.php:126-129 | one round of the property loop: the key and then the value of pair i are appended after the pairs before it, and if the value throws nothing after it is written |
| CBOR.Encoder.EncodeBool | lib/Sabre/CBOR/Encoder.php:139-147 | appends simple value 21 for true and 20 for false |
| CBOR.Encoder.EncodeNull | lib/Sabre/CBOR/Encoder.php:154-158 | appends simple value 22 |
| CBOR.Encoder.WriteDataValue | lib/Sabre/CBOR/Encoder.php:168-206 | appends exactly `Header(tag, v)`, branch for branch, with `>> 32` and `& 0xffffffff` as quotient and remainder by 2^32 |
| CBOR.Encoder.WriteByte | lib/Sabre/CBOR/Encoder.php:216-220 | appends one byte |
| CBOR.Encoder.WriteString | lib/Sabre/CBOR/Encoder.php:228-232 | appends the bytes as they are |
| Layout.ElemsFlatten | lib/Sabre/CBOR/Encoder.php:109-111 | if no element throws, the elements write their encodings concatenated in order |
| Layout.PropsInterleave | lib/Sabre/CBOR/Encoder.php:126-129 | if no value throws, the pairs write key, value, key, value, ... in order |
| Layout.ListLayout | lib/Sabre/CBOR/Encoder.php:96-111 | a list with keys 0..n-1 in order is the array header with count n, followed by its elements' encodings in order |
| Layout.MapLayout | lib/Sabre/CBOR/Encoder.php:99-131 | an object is the map header with its count, then each key's and value's encoding in order; an array whose keys are not 0..n-1 in order is encoded exactly as the object of the same pairs |
| Layout.ListStopsAtThrow | lib/Sabre/CBOR/Encoder.php:108-111 | if element n throws, the output is the header, the elements before n and what element n wrote, and the exception propagates |
| Vectors.TinyInt | tests/Sabre/CBOR/EncoderTest.php:24-27 | 0, 1, 10 and 23 (any x <= 23) are the single byte x |
| Vectors.ByteInt | tests/Sabre/CBOR/EncoderTest.php:28-29 | 24 and 100 (any 24 <= x <= 255) are `0x18, x` |
| Vectors.TwoByteInt | lib/Sabre/CBOR/Encoder.php:192-194 | an integer from 256 to 65534 is `0x19` followed by its two big-endian bytes |
| Vectors.Int1000 | tests/Sabre/CBOR/EncoderTest.php:30 | 1000 is `19 03 e8` |
| Vectors.FourByteInt | lib/Sabre/CBOR/Encoder.php:187-189 | an integer from 65535 to 2^32-1 is `0x1a` followed by its four big-endian bytes |
| Vectors.Int1000000 | tests/Sabre/CBOR/EncoderTest.php:32 | 1000000 is `1a 00 0f 42 40` |
| Vectors.EightByteInt | lib/Sabre/CBOR/Encoder.php:175-183 | an integer of at least 2^32 is `0x1b`, then its high 32 bits and its low 32 bits, each as four big-endian bytes |
| Vectors.Int1000000000000 | tests/Sabre/CBOR/EncoderTest.php:33 | 10^12 is `1b 00 00 00 e8 d4 a5 10 00` |
| Vectors.NegativeTiny | tests/Sabre/CBOR/EncoderTest.php:43-44 | -1 and -10 (any -24 <= x <= -1) are the single byte `0x1f - x` |
| Vectors.NegativeByte | tests/Sabre/CBOR/EncoderTest.php:45 | -100 (any -256 <= x <= -25) is `0x38, -1 - x` |
| Vectors.NegativeTwoByte | lib/Sabre/CBOR/Encoder.php:66-69 | a negative integer whose argument -1 - x is from 256 to 65534 is `0x39` followed by that argument in two big-endian bytes |
| Vectors.NegativeInt1000 | tests/Sabre/CBOR/EncoderTest.php:46 | -1000 is `39 03 e7` |
| Vectors.Simple | tests/Sabre/CBOR/EncoderTest.php:67-69 | false, true and null are f4, f5 and f6 |
| Vectors.ShortText | tests/Sabre/CBOR/EncoderTest.php:91-103 | a string of at most 23 bytes is `0x60 + length` followed by its bytes, as for "", "a", "IETF" and the multi-byte UTF-8 strings |
| Vectors.EmptyArray | tests/Sabre/CBOR/EncoderTest.php:106 | `[]` is `80` |
| Vectors.SmallTriple | tests/Sabre/CBOR/EncoderTest.php:107 | `[1, 2, 3]` is `83 01 02 03` |
| Vectors.NestedArrays | tests/Sabre/CBOR/EncoderTest.php:108 | `[a, [b, c], [d, e]]` for integers below 24 is `83 a 82 b c 82 d e`, as for `[1, [2, 3], [4, 5]]` |
| Vectors.CountToTwentyFive | tests/Sabre/CBOR/EncoderTest.php:109-112 | `[1, ..., 25]` is `98 19 01 ... 17 18 18 18 19` |
| Vectors.EmptyObject | tests/Sabre/CBOR/EncoderTest.php:115 | an empty object is `a0` |
| Vectors.SparseArray | lib/Sabre/CBOR/Encoder.php:99-104 | `[0 => "a", 2 => "b"]` is the map `a2 00 61 61 02 61 62` |
| Vectors.FloatThrows | lib/Sabre/CBOR/Encoder.php:52-53 | a float throws and writes nothing |
| Layout.ThrowAtSecond | lib/Sabre/CBOR/Encoder.php:108-111 | in a three-element list whose second element throws, the header, the first element and what the second wrote are output, and the third is never written |
| Vectors.FloatSecond | lib/Sabre/CBOR/Encoder.php:52-53 | `[x, 1.5, c]` for x below 24 writes `83 x` and then throws |
| Vectors.FloatInArray | lib/Sabre/CBOR/Encoder.php:108-111 | `[1, 1.5, 3]` writes `83 01` and then throws |
| Vectors.ResourceInArray | lib/Sabre/CBOR/Encoder.php:34-54 | a resource inside an array writes nothing and raises nothing: `[resource]` is just `81` |
| Vectors.ResourceBreaksFraming | lib/Sabre/CBOR/Encoder.php:108-111 | that output does not read back as a complete item, because the announced element is missing |

## Left out

- The stream itself. `fwrite` is modelled as appending to a byte sequence. The code ignores `fwrite`'s result, so there is no write failure to model.
- The 32-bit platform branch. The `PHP_INT_SIZE >= 8` test is taken to hold: the host is 64-bit, and integers and lengths fit a PHP int (`Values.Valid`).
- The `Closure` branch of `encode`. Inside the `Sabre\CBOR` namespace the name resolves to `Sabre\CBOR\Closure`, not to PHP closures, so no ordinary value takes it.
- Float encoding. The code has none; a float is only the exception case.
- PHP's conversions `(object)$val` and `get_object_vars`. They are modelled only as "the same pairs in the same order". The model does not capture PHP's key normalisation (numeric-string keys, property visibility). It assumes PHP 7.2 or later, where the integer keys of an array stay integer keys through `(object)` and `get_object_vars`. `Vectors.SparseArray` relies on this. Earlier PHP versions handled integer property names differently.
- Cyclic values. A `Value` is a finite tree, so an object is a record and an array a sequence. PHP objects are handles and can form a cycle (`$o->self = $o`), and an array can hold a reference to itself (`$a[0] = &$a`). On such input `encodeObject` and `encodeArray` recurse through `encode` without end, after writing a partial prefix, until PHP runs out of stack or memory. The model does not represent such values.
- `TYPE_BYTE_STRING` and `TYPE_TAG`. They are declared with their values but never emitted.
- The top-level `encode()` helper that the tests call. It is not part of this model. The test vectors are stated against `Enc`, which the `Encoder` methods are proved to write.
- CBOR.Encoder.Encode: a resource, or any other category the dispatcher does not recognise, is one `Resource` value. Which such category it is does not matter, because none of them writes anything.
- The commented-out test vectors (floats, tags, byte strings, bignums, undefined, other simple values). The library does not implement them.
