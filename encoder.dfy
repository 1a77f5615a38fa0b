/**
 * The `Encoder` class. Its stream is modelled as the sequence of every byte
 * written to it so far; each method appends to it, and its postcondition
 * gives the appended bytes by the functions of module Encoding. A PHP
 * exception is the `thrown` result: the method returns at once and what it
 * had already written stays in the stream.
 */
module CBOR {
  import opened Constants
  import opened DataValue
  import opened Values
  import opened Encoding


  /** A stream holding `start` and then the elements before `i`, extended by element `i`. */
  lemma ElemsStreamStep(p: seq<(Key, Value)>, i: nat, start: seq<byte>)
    requires ValidEntries(p) && i < |p| && !EncElems(p[..i]).thrown
    ensures Valid(p[i].1)
    ensures start + EncElems(p[..i + 1]).bytes == start + EncElems(p[..i]).bytes + Enc(p[i].1).bytes
    ensures EncElems(p[..i + 1]).thrown == Enc(p[i].1).thrown
    ensures Enc(p[i].1).thrown ==> EncElems(p) == EncElems(p[..i + 1])
  {
    ElemsStep(p, i);
    AppendAssoc(start, EncElems(p[..i]).bytes, Enc(p[i].1).bytes);
  }

  /** Pair `i` of a valid object: its key and value can be encoded, and the key does not throw. */
  lemma EntryValid(p: seq<(Key, Value)>, i: nat)
    requires ValidEntries(p) && i < |p|
    ensures Valid(KeyValue(p[i].0)) && !Enc(KeyValue(p[i].0)).thrown && Valid(p[i].1)
  {
    KeyNeverThrows(p[i].0);
  }

  /**
   * A stream holding `start` and then the pairs before `i`, to which the key
   * and then the value of pair `i` were appended, holds the pairs up to `i`.
   */
  lemma PairAppended(p: seq<(Key, Value)>, i: nat, start: seq<byte>, before: seq<byte>, mid: seq<byte>, after: seq<byte>)
    requires ValidEntries(p) && i < |p| && !EncProps(p[..i]).thrown
    requires Valid(KeyValue(p[i].0)) && Valid(p[i].1)
    requires before == start + EncProps(p[..i]).bytes
    requires mid == before + Enc(KeyValue(p[i].0)).bytes && after == mid + Enc(p[i].1).bytes
    ensures after == start + EncProps(p[..i + 1]).bytes
    ensures EncProps(p[..i + 1]).thrown == Enc(p[i].1).thrown
    ensures Enc(p[i].1).thrown ==> EncProps(p) == EncProps(p[..i + 1])
  {
    PropsStep(p, i);
    var a, k, v := EncProps(p[..i]).bytes, Enc(KeyValue(p[i].0)).bytes, Enc(p[i].1).bytes;
    AppendAssoc(start, a + k, v);
    AppendAssoc(start, a, k);
  }

  /** An array written after `before`: its header, then its elements. */
  lemma ArrayStream(p: seq<(Key, Value)>, before: seq<byte>)
    requires ValidEntries(p) && IsList(p)
    ensures before + EncArray(p).bytes == before + Header(TYPE_ARRAY, |p|) + EncElems(p).bytes
    ensures EncArray(p).thrown == EncElems(p).thrown
  {
    AppendAssoc(before, Header(TYPE_ARRAY, |p|), EncElems(p).bytes);
  }

  /** An object written after `before`: its header, then its pairs. */
  lemma ObjectStream(p: seq<(Key, Value)>, before: seq<byte>)
    requires ValidEntries(p)
    ensures before + EncObject(p).bytes == before + Header(TYPE_MAP, |p|) + EncProps(p).bytes
    ensures EncObject(p).thrown == EncProps(p).thrown
  {
    AppendAssoc(before, Header(TYPE_MAP, |p|), EncProps(p).bytes);
  }

  class Encoder {
    /** The output stream: every byte written to it so far. */
    var out: seq<byte>

    /** The encoder writes to `stream`, after whatever it already holds. */
    constructor (stream: seq<byte>)
      ensures out == stream
    {
      out := stream;
    }

    /** Dispatches on the runtime category; a float throws and writes nothing. */
    method Encode(v: Value) returns (thrown: bool)
      requires Valid(v)
      modifies this
      ensures out == old(out) + Enc(v).bytes
      ensures thrown == Enc(v).thrown
      decreases Nesting(v), v, 2
    {
      match v {
        case Int(i) =>
          EncodeInt(i);
          thrown := false;
        case Str(s) =>
          EncodeString(s);
          thrown := false;
        case PhpArray(p) =>
          thrown := EncodeArray(p);
        case Obj(p) =>
          thrown := EncodeObject(p);
        case Bool(b) =>
          EncodeBool(b);
          thrown := false;
        case Null =>
          EncodeNull();
          thrown := false;
        case Float =>
          // InvalidArgumentException: floats are not supported
          thrown := true;
        case Resource =>
          // no branch of `encode` matches: nothing is written
          thrown := false;
      }
    }

    method EncodeInt(i: int)
      requires IsInt64(i)
      modifies this
      ensures out == old(out) + EncInt(i)
    {
      if i >= 0 {
        WriteDataValue(TYPE_UNSIGNED_INT, i);
      } else {
        WriteDataValue(TYPE_NEGATIVE_INT, -1 - i);
      }
    }

    method EncodeString(s: seq<byte>)
      requires |s| <= PHP_INT_MAX
      modifies this
      ensures out == old(out) + EncString(s)
    {
      WriteDataValue(TYPE_TEXT_STRING, |s|);
      WriteString(s);
    }

    /** A CBOR array if the keys are 0, 1, ..., n-1 in order, otherwise a map. */
    method EncodeArray(p: seq<(Key, Value)>) returns (thrown: bool)
      requires ValidEntries(p)
      modifies this
      ensures out == old(out) + EncArray(p).bytes
      ensures thrown == EncArray(p).thrown
      decreases 1, p, 2
    {
      var index := 0;
      while index < |p|
        invariant 0 <= index <= |p|
        invariant forall j :: 0 <= j < index ==> p[j].0 == IntKey(j)
      {
        if p[index].0 != IntKey(index) {
          thrown := EncodeObject(p);
          return;
        }
        index := index + 1;
      }

      ArrayStream(p, out);
      WriteDataValue(TYPE_ARRAY, |p|);
      ghost var start := out;
      var i := 0;
      while i < |p|
        invariant 0 <= i <= |p|
        invariant out == start + EncElems(p[..i]).bytes
        invariant !EncElems(p[..i]).thrown
      {
        ElemsStreamStep(p, i, start);
        assert p[i] in p && p[i].1 < p[i];
        thrown := Encode(p[i].1);
        if thrown {
          return;
        }
        i := i + 1;
      }
      assert p[..i] == p;
      thrown := false;
    }

    /** A CBOR map: the pair count, then each key followed by its value. */
    method EncodeObject(p: seq<(Key, Value)>) returns (thrown: bool)
      requires ValidEntries(p)
      modifies this
      ensures out == old(out) + EncObject(p).bytes
      ensures thrown == EncObject(p).thrown
      decreases 1, p, 1
    {
      ObjectStream(p, out);
      WriteDataValue(TYPE_MAP, |p|);
      ghost var start := out;
      var i := 0;
      while i < |p|
        invariant 0 <= i <= |p|
        invariant out == start + EncProps(p[..i]).bytes
        invariant !EncProps(p[..i]).thrown
      {
        thrown := EncodeProperty(p, i, start);
        if thrown {
          return;
        }
        i := i + 1;
      }
      assert p[..i] == p;
      thrown := false;
    }

    /**
     * One round of `encodeObject`'s loop: the key of pair `i`, then its value,
     * appended after the pairs before it.
     */
    method EncodeProperty(p: seq<(Key, Value)>, i: nat, ghost start: seq<byte>) returns (thrown: bool)
      requires ValidEntries(p) && i < |p| && !EncProps(p[..i]).thrown
      requires out == start + EncProps(p[..i]).bytes
      modifies this
      ensures out == start + EncProps(p[..i + 1]).bytes
      ensures thrown == EncProps(p[..i + 1]).thrown
      ensures thrown ==> EncProps(p) == EncProps(p[..i + 1])
      decreases 1, p, 0
    {
      EntryValid(p, i);
      assert p[i] in p && p[i].1 < p[i];
      ghost var before := out;
      var keyThrown := Encode(KeyValue(p[i].0));
      assert !keyThrown;
      ghost var mid := out;
      thrown := Encode(p[i].1);
      PairAppended(p, i, start, before, mid, out);
    }

    method EncodeBool(b: bool)
      modifies this
      ensures out == old(out) + EncBool(b)
    {
      if b {
        WriteDataValue(TYPE_MISC, 21);
      } else {
        WriteDataValue(TYPE_MISC, 20);
      }
    }

    method EncodeNull()
      modifies this
      ensures out == old(out) + EncNull()
    {
      WriteDataValue(TYPE_MISC, 22);
    }

    /**
     * `writeDataValue` on a 64-bit host: the initial byte, then the
     * argument in 0, 1, 2, 4 or 8 bytes.
     */
    method WriteDataValue(majorType: byte, v: nat)
      requires v <= PHP_INT_MAX
      modifies this
      ensures out == old(out) + Header(majorType, v)
    {
      if v >= TWO_32 {
        WriteByte(Or(majorType, 27));
        var top := v / TWO_32;      // $val >> 32
        var bottom := v % TWO_32;   // $val & 0xffffffff
        WriteString(PackN(top) + PackN(bottom));
      } else if v >= 65535 {
        WriteByte(Or(majorType, 26));
        WriteString(PackN(v));
      } else if v > 255 {
        WriteByte(Or(majorType, 25));
        WriteString(Packn(v));
      } else if v > 23 {
        WriteByte(Or(majorType, 24));
        WriteByte(v);
      } else {
        WriteByte(Or(majorType, v));
      }
    }

    method WriteByte(b: byte)
      modifies this
      ensures out == old(out) + [b]
    {
      out := out + [b];
    }

    method WriteString(s: seq<byte>)
      modifies this
      ensures out == old(out) + s
    {
      out := out + s;
    }
  }
}
