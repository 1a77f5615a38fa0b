/**
 * The byte layout of arrays and maps in terms of their parts: once the
 * encoding of each element (and key) is known, the whole is the header
 * followed by those encodings concatenated in order.
 */
module Layout {
  import opened Constants
  import opened DataValue
  import opened Values
  import opened Encoding

  /** The byte strings of `xs`, one after another. */
  function Flatten(xs: seq<seq<byte>>): seq<byte> {
    if xs == [] then [] else Flatten(xs[..|xs| - 1]) + xs[|xs| - 1]
  }

  /** `ks[0] + xs[0] + ks[1] + xs[1] + ...`: keys and values alternating. */
  function Interleave(ks: seq<seq<byte>>, xs: seq<seq<byte>>): seq<byte>
    requires |ks| == |xs|
  {
    if ks == [] then []
    else Interleave(ks[..|ks| - 1], xs[..|xs| - 1]) + ks[|ks| - 1] + xs[|xs| - 1]
  }

  /** Element `i` of `p` encodes, without throwing, to `xs[i]`. */
  predicate ElementsWrite(p: seq<(Key, Value)>, xs: seq<seq<byte>>)
    requires ValidEntries(p)
  {
    |xs| == |p| && forall i :: 0 <= i < |p| ==> Enc(p[i].1) == Written(xs[i])
  }

  /** Key `i` of `p` encodes to `ks[i]` and value `i` to `xs[i]`, neither throwing. */
  predicate PairsWrite(p: seq<(Key, Value)>, ks: seq<seq<byte>>, xs: seq<seq<byte>>)
    requires ValidEntries(p)
  {
    && |ks| == |p| && |xs| == |p|
    && (forall i :: 0 <= i < |p| ==> Enc(KeyValue(p[i].0)) == Written(ks[i]))
    && (forall i :: 0 <= i < |p| ==> Enc(p[i].1) == Written(xs[i]))
  }

  lemma {:induction false} ElemsFlatten(p: seq<(Key, Value)>, xs: seq<seq<byte>>)
    requires ValidEntries(p) && ElementsWrite(p, xs)
    ensures EncElems(p) == Written(Flatten(xs))
  {
    if p != [] {
      var n := |p| - 1;
      ElemsLast(p);
      assert ElementsWrite(p[..n], xs[..n]) by {
        assert forall i :: 0 <= i < n ==> p[..n][i] == p[i] && xs[..n][i] == xs[i];
      }
      ElemsFlatten(p[..n], xs[..n]);
    }
  }

  lemma {:induction false} PropsInterleave(p: seq<(Key, Value)>, ks: seq<seq<byte>>, xs: seq<seq<byte>>)
    requires ValidEntries(p) && PairsWrite(p, ks, xs)
    ensures EncProps(p) == Written(Interleave(ks, xs))
  {
    if p != [] {
      var n := |p| - 1;
      PropsLast(p);
      assert PairsWrite(p[..n], ks[..n], xs[..n]) by {
        assert forall i :: 0 <= i < n ==> p[..n][i] == p[i] && ks[..n][i] == ks[i] && xs[..n][i] == xs[i];
      }
      PropsInterleave(p[..n], ks[..n], xs[..n]);
      ThenThree(EncProps(p[..n]), Enc(KeyValue(p[n].0)), Enc(p[n].1));
    }
  }

  /**
   * An array with keys 0..n-1 in order: the array header with count n, then
   * each element's encoding in order.
   */
  lemma ListLayout(p: seq<(Key, Value)>, xs: seq<seq<byte>>)
    requires ValidEntries(p) && IsList(p) && ElementsWrite(p, xs)
    ensures Enc(PhpArray(p)) == Written(Header(TYPE_ARRAY, |p|) + Flatten(xs))
  {
    ElemsFlatten(p, xs);
  }

  /**
   * An object, or an array whose keys are not 0..n-1 in order: the map
   * header with the pair count, then each key's and value's encoding in order.
   */
  lemma MapLayout(p: seq<(Key, Value)>, ks: seq<seq<byte>>, xs: seq<seq<byte>>)
    requires ValidEntries(p) && PairsWrite(p, ks, xs)
    ensures Enc(Obj(p)) == Written(Header(TYPE_MAP, |p|) + Interleave(ks, xs))
    ensures !IsList(p) ==> Enc(PhpArray(p)) == Enc(Obj(p))
  {
    PropsInterleave(p, ks, xs);
  }


  lemma FlattenTwo(x: seq<byte>, y: seq<byte>)
    ensures Flatten([x, y]) == x + y
  {
    assert [x, y][..1] == [x] && [x][..0] == [];
    assert Flatten([x]) == x;
  }

  lemma FlattenThree(x: seq<byte>, y: seq<byte>, z: seq<byte>)
    ensures Flatten([x, y, z]) == x + y + z
  {
    assert [x, y, z][..2] == [x, y];
    FlattenTwo(x, y);
  }

  /** The PHP list `[a, b]` is valid and has keys 0, 1 in order. */
  lemma ListOfTwo(a: Value, b: Value)
    requires Valid(a) && Valid(b)
    ensures var p := [(IntKey(0), a), (IntKey(1), b)];
      ValidEntries(p) && IsList(p)
  {
  }

  /** The PHP list `[a, b]`. */
  lemma TwoElements(a: Value, b: Value, x: seq<byte>, y: seq<byte>)
    requires Valid(a) && Valid(b) && Enc(a) == Written(x) && Enc(b) == Written(y)
    ensures Enc(PhpArray([(IntKey(0), a), (IntKey(1), b)])) == Written(Header(TYPE_ARRAY, 2) + x + y)
  {
    var p := [(IntKey(0), a), (IntKey(1), b)];
    ListOfTwo(a, b);
    assert ElementsWrite(p, [x, y]);
    ListLayout(p, [x, y]);
    FlattenTwo(x, y);
    AppendAssoc(Header(TYPE_ARRAY, 2), x, y);
  }

  /** The PHP list `[a, b, c]` is valid and has keys 0, 1, 2 in order. */
  lemma ListOfThree(a: Value, b: Value, c: Value)
    requires Valid(a) && Valid(b) && Valid(c)
    ensures var p := [(IntKey(0), a), (IntKey(1), b), (IntKey(2), c)];
      ValidEntries(p) && IsList(p)
  {
  }

  /** The PHP list `[a, b, c]`. */
  lemma ThreeElements(a: Value, b: Value, c: Value, x: seq<byte>, y: seq<byte>, z: seq<byte>)
    requires Valid(a) && Valid(b) && Valid(c)
    requires Enc(a) == Written(x) && Enc(b) == Written(y) && Enc(c) == Written(z)
    ensures Enc(PhpArray([(IntKey(0), a), (IntKey(1), b), (IntKey(2), c)]))
      == Written(Header(TYPE_ARRAY, 3) + x + y + z)
  {
    var p := [(IntKey(0), a), (IntKey(1), b), (IntKey(2), c)];
    ListOfThree(a, b, c);
    assert ElementsWrite(p, [x, y, z]);
    ListLayout(p, [x, y, z]);
    FlattenThree(x, y, z);
    AppendAssoc(Header(TYPE_ARRAY, 3), x + y, z);
    AppendAssoc(Header(TYPE_ARRAY, 3), x, y);
  }

  /**
   * A list whose element `n` throws: the header, the elements before `n`,
   * whatever element `n` wrote, and nothing after it.
   */
  lemma ListStopsAtThrow(p: seq<(Key, Value)>, n: nat, xs: seq<seq<byte>>)
    requires ValidEntries(p) && IsList(p) && n < |p|
    requires ValidEntries(p[..n]) && ElementsWrite(p[..n], xs) && Enc(p[n].1).thrown
    ensures Enc(PhpArray(p)) == Emission(Header(TYPE_ARRAY, |p|) + Flatten(xs) + Enc(p[n].1).bytes, true)
  {
    ElemsFlatten(p[..n], xs);
    ElemsStep(p, n);
    AppendAssoc(Header(TYPE_ARRAY, |p|), Flatten(xs), Enc(p[n].1).bytes);
  }

  lemma InterleaveTwo(x0: seq<byte>, y0: seq<byte>, x1: seq<byte>, y1: seq<byte>)
    ensures Interleave([x0, x1], [y0, y1]) == x0 + y0 + x1 + y1
  {
    assert [x0, x1][..1] == [x0] && [y0, y1][..1] == [y0];
    assert [x0][..0] == [] && [y0][..0] == [];
    assert Interleave([x0], [y0]) == x0 + y0;
  }

  lemma Regroup(h: seq<byte>, a: seq<byte>, b: seq<byte>, c: seq<byte>, d: seq<byte>)
    ensures h + (a + b + c + d) == h + a + b + c + d
  {
  }

  /** Two pairs make a valid array or object; they are not a list unless the keys are 0, 1. */
  lemma PairsOfTwo(k0: Key, a: Value, k1: Key, b: Value)
    requires ValidKey(k0) && ValidKey(k1) && Valid(a) && Valid(b)
    ensures var p := [(k0, a), (k1, b)];
      ValidEntries(p) && (IsList(p) <==> k0 == IntKey(0) && k1 == IntKey(1))
  {
    var p := [(k0, a), (k1, b)];
    if IsList(p) {
      assert p[0].0 == IntKey(0) && p[1].0 == IntKey(1);
    }
  }

  /** The PHP array or object with the two pairs `k0 => a` and `k1 => b`. */
  lemma TwoPairs(k0: Key, a: Value, k1: Key, b: Value, x0: seq<byte>, y0: seq<byte>, x1: seq<byte>, y1: seq<byte>)
    requires ValidKey(k0) && ValidKey(k1) && Valid(a) && Valid(b)
    requires Enc(KeyValue(k0)) == Written(x0) && Enc(a) == Written(y0)
    requires Enc(KeyValue(k1)) == Written(x1) && Enc(b) == Written(y1)
    ensures Enc(Obj([(k0, a), (k1, b)])) == Written(Header(TYPE_MAP, 2) + x0 + y0 + x1 + y1)
    ensures k0 != IntKey(0) || k1 != IntKey(1) ==>
      Enc(PhpArray([(k0, a), (k1, b)])) == Enc(Obj([(k0, a), (k1, b)]))
  {
    var p := [(k0, a), (k1, b)];
    PairsOfTwo(k0, a, k1, b);
    assert PairsWrite(p, [x0, x1], [y0, y1]);
    MapLayout(p, [x0, x1], [y0, y1]);
    InterleaveTwo(x0, y0, x1, y1);
    Regroup(Header(TYPE_MAP, 2), x0, y0, x1, y1);
  }

  /** The PHP list `[a, b, c]` whose second element throws: `c` is never written. */
  lemma ThrowAtSecond(a: Value, b: Value, c: Value, x: seq<byte>)
    requires Valid(a) && Valid(b) && Valid(c)
    requires Enc(a) == Written(x) && Enc(b).thrown
    ensures Enc(PhpArray([(IntKey(0), a), (IntKey(1), b), (IntKey(2), c)]))
      == Emission(Header(TYPE_ARRAY, 3) + x + Enc(b).bytes, true)
  {
    var p := [(IntKey(0), a), (IntKey(1), b), (IntKey(2), c)];
    ListOfThree(a, b, c);
    assert p[..1] == [(IntKey(0), a)];
    assert ElementsWrite(p[..1], [x]);
    ListStopsAtThrow(p, 1, [x]);
    assert Flatten([x]) == x by {
      assert [x][..0] == [];
    }
  }
}
