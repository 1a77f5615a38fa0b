/**
 * Reading the encoder's output back. Every header decodes to its tag's major
 * type and its argument, and every value without floats or unrecognised
 * categories decodes to the item it stands for, whatever bytes follow it.
 */
module RoundTrip {
  import opened Constants
  import opened DataValue
  import opened Values
  import opened Encoding
  import opened Decoder

  lemma HeaderRoundTrip(tag: byte, v: nat, rest: seq<byte>)
    requires IsTag(tag) && v <= PHP_INT_MAX
    ensures DecodeHeader(Header(tag, v) + rest) == Some((tag / 32, v, rest))
  {
    var h := Header(tag, v);
    var s := h + rest;
    HeaderSizeClasses(tag, v);
    assert s[0] == h[0] && s[|h|..] == rest;
    if v <= 23 {
      OrTag(tag, v);
    } else {
      var ai := if v <= 255 then 24 else if v <= 65534 then 25 else if v < TWO_32 then 26 else 27;
      OrTag(tag, ai);
      assert s[1..|h|] == h[1..];
      if v <= 255 {
        assert h[1..] == [v] && [v][..0] == [];
      }
    }
  }

  /** Reading one more item after `n` items extends the list at its end. */
  lemma {:induction false} DecodeItemsSnoc(s: seq<byte>, n: nat, xs: seq<Item>, s1: seq<byte>,
                                            x: Item, s2: seq<byte>)
    requires DecodeItems(s, n) == Some((xs, s1)) && Decode(s1) == Some((x, s2))
    ensures DecodeItems(s, n + 1) == Some((xs + [x], s2))
    decreases n
  {
    if n == 0 {
      assert xs + [x] == [x] + [];
    } else {
      var Some((y, t)) := Decode(s);
      var Some((ys, t1)) := DecodeItems(t, n - 1);
      assert xs == [y] + ys && t1 == s1;
      DecodeItemsSnoc(t, n - 1, ys, s1, x, s2);
      assert [y] + (ys + [x]) == xs + [x];
    }
  }

  /** Reading one more pair after `n` pairs extends the list at its end. */
  lemma {:induction false} DecodeEntriesSnoc(s: seq<byte>, n: nat, es: seq<(Item, Item)>, s1: seq<byte>,
                                              k: Item, s2: seq<byte>, x: Item, s3: seq<byte>)
    requires DecodeEntries(s, n) == Some((es, s1))
    requires Decode(s1) == Some((k, s2)) && Decode(s2) == Some((x, s3))
    ensures DecodeEntries(s, n + 1) == Some((es + [(k, x)], s3))
    decreases n
  {
    if n == 0 {
      EntriesCons(s, 0, k, s2, x, s3);
      assert es + [(k, x)] == [(k, x)] + [];
    } else {
      var k0, t, x0, t1 := EntriesUncons(s, n);
      var fs := DecodeEntries(t1, n - 1).value.0;
      assert es == [(k0, x0)] + fs;
      DecodeEntriesSnoc(t1, n - 1, fs, s1, k, s2, x, s3);
      EntriesCons(s, n, k0, t, x0, t1);
      assert [(k0, x0)] + (fs + [(k, x)]) == es + [(k, x)];
    }
  }

  /** A first pair read from `s`, followed by `n` more. */
  lemma EntriesCons(s: seq<byte>, n: nat, k: Item, t: seq<byte>, x: Item, t1: seq<byte>)
    requires Decode(s) == Some((k, t)) && Decode(t) == Some((x, t1))
    ensures DecodeEntries(s, n + 1) == (match DecodeEntries(t1, n)
                                         case None => None
                                         case Some((es, r)) => Some(([(k, x)] + es, r)))
  {
  }

  /** `n > 0` pairs read from `s` are a first pair and `n - 1` more. */
  lemma EntriesUncons(s: seq<byte>, n: nat) returns (k: Item, t: seq<byte>, x: Item, t1: seq<byte>)
    requires n > 0 && DecodeEntries(s, n).Some?
    ensures Decode(s) == Some((k, t)) && Decode(t) == Some((x, t1))
    ensures DecodeEntries(t1, n - 1).Some?
    ensures DecodeEntries(s, n).value.0 == [(k, x)] + DecodeEntries(t1, n - 1).value.0
    ensures DecodeEntries(s, n).value.1 == DecodeEntries(t1, n - 1).value.1
  {
    var Some((k0, t0)) := Decode(s);
    var Some((x0, t2)) := Decode(t0);
    k, t, x, t1 := k0, t0, x0, t2;
  }

  /** How `Decode` continues once the header has been read. */
  lemma DecodeAfterHeader(s: seq<byte>, major: nat, arg: nat, rest: seq<byte>)
    requires DecodeHeader(s) == Some((major, arg, rest))
    ensures major == 0 ==> Decode(s) == Some((UInt(arg), rest))
    ensures major == 1 ==> Decode(s) == Some((NInt(arg), rest))
    ensures major == 3 && arg <= |rest| ==> Decode(s) == Some((Text(rest[..arg]), rest[arg..]))
    ensures major == 4 ==> Decode(s) == (match DecodeItems(rest, arg)
                                           case None => None
                                           case Some((xs, r)) => Some((Array(xs), r)))
    ensures major == 5 ==> Decode(s) == (match DecodeEntries(rest, arg)
                                           case None => None
                                           case Some((es, r)) => Some((Map(es), r)))
    ensures major == 7 && arg < 24 ==> Decode(s) == Some((Simple(arg), rest))
  {
  }

  /**
   * The encoding of a value without floats or unrecognised categories
   * returns normally and reads back as the value's item, leaving `rest`.
   */
  lemma {:induction false} ValueRoundTrip(v: Value, rest: seq<byte>)
    requires Valid(v) && Encodable(v)
    ensures !Enc(v).thrown
    ensures Decode(Enc(v).bytes + rest) == Some((Meaning(v), rest))
    decreases Nesting(v), v, 3
  {
    match v
    case Int(i) =>
      IntRoundTrip(i, rest);
    case Str(s) =>
      TextRoundTrip(s, rest);
    case PhpArray(p) =>
      if IsList(p) {
        var e := EncElems(p);
        ElemsRoundTrip(p, rest);
        ArrayFrame(|p|, MeaningElems(p), e.bytes, rest);
      } else {
        ObjectRoundTrip(p, rest);
      }
    case Obj(p) =>
      ObjectRoundTrip(p, rest);
    case Bool(b) =>
      SimpleRoundTrip(if b then 21 else 20, rest);
    case Null =>
      SimpleRoundTrip(22, rest);
  }

  /** An integer reads back as itself: unsigned, or negative with argument -1 - i. */
  lemma IntRoundTrip(i: int, rest: seq<byte>)
    requires IsInt64(i)
    ensures Decode(EncInt(i) + rest) == Some((if i >= 0 then UInt(i) else NInt(-1 - i), rest))
    ensures IntegerOf(if i >= 0 then UInt(i) else NInt(-1 - i)) == i
  {
    if i >= 0 {
      HeaderRoundTrip(TYPE_UNSIGNED_INT, i, rest);
      DecodeAfterHeader(EncInt(i) + rest, 0, i, rest);
    } else {
      HeaderRoundTrip(TYPE_NEGATIVE_INT, -1 - i, rest);
      DecodeAfterHeader(EncInt(i) + rest, 1, -1 - i, rest);
    }
  }

  /** A string reads back as a text item holding exactly its bytes. */
  lemma TextRoundTrip(s: seq<byte>, rest: seq<byte>)
    requires |s| <= PHP_INT_MAX
    ensures Decode(EncString(s) + rest) == Some((Text(s), rest))
  {
    HeaderRoundTrip(TYPE_TEXT_STRING, |s|, s + rest);
    assert EncString(s) + rest == Header(TYPE_TEXT_STRING, |s|) + (s + rest);
    assert (s + rest)[..|s|] == s && (s + rest)[|s|..] == rest;
    DecodeAfterHeader(EncString(s) + rest, 3, |s|, s + rest);
  }

  lemma SimpleRoundTrip(code: nat, rest: seq<byte>)
    requires code < 24
    ensures Decode(Header(TYPE_MISC, code) + rest) == Some((Simple(code), rest))
  {
    HeaderRoundTrip(TYPE_MISC, code, rest);
    DecodeAfterHeader(Header(TYPE_MISC, code) + rest, 7, code, rest);
  }

  lemma ArrayFrame(n: nat, xs: seq<Item>, b: seq<byte>, rest: seq<byte>)
    requires n <= PHP_INT_MAX && DecodeItems(b + rest, n) == Some((xs, rest))
    ensures Decode(Header(TYPE_ARRAY, n) + b + rest) == Some((Array(xs), rest))
  {
    HeaderRoundTrip(TYPE_ARRAY, n, b + rest);
    assert Header(TYPE_ARRAY, n) + b + rest == Header(TYPE_ARRAY, n) + (b + rest);
    DecodeAfterHeader(Header(TYPE_ARRAY, n) + (b + rest), 4, n, b + rest);
  }

  lemma MapFrame(n: nat, es: seq<(Item, Item)>, b: seq<byte>, rest: seq<byte>)
    requires n <= PHP_INT_MAX && DecodeEntries(b + rest, n) == Some((es, rest))
    ensures Decode(Header(TYPE_MAP, n) + b + rest) == Some((Map(es), rest))
  {
    HeaderRoundTrip(TYPE_MAP, n, b + rest);
    assert Header(TYPE_MAP, n) + b + rest == Header(TYPE_MAP, n) + (b + rest);
    DecodeAfterHeader(Header(TYPE_MAP, n) + (b + rest), 5, n, b + rest);
  }

  lemma {:induction false} ObjectRoundTrip(p: seq<(Key, Value)>, rest: seq<byte>)
    requires ValidEntries(p) && Encodable(Obj(p))
    ensures !EncObject(p).thrown
    ensures Decode(EncObject(p).bytes + rest) == Some((Map(MeaningProps(p)), rest))
    decreases 1, p, 1
  {
    var e := EncProps(p);
    PropsRoundTrip(p, rest);
    MapFrame(|p|, MeaningProps(p), e.bytes, rest);
  }

  lemma {:induction false} ElemsRoundTrip(p: seq<(Key, Value)>, rest: seq<byte>)
    requires ValidEntries(p) && Encodable(Obj(p))
    ensures !EncElems(p).thrown
    ensures DecodeItems(EncElems(p).bytes + rest, |p|) == Some((MeaningElems(p), rest))
    decreases 1, p, 0
  {
    if p == [] {
      assert EncElems(p).bytes + rest == rest;
    } else {
      var init, last := p[..|p| - 1], p[|p| - 1];
      assert last in p && last.1 < last;
      SplitLast(p);
      var a, e := EncElems(init), Enc(last.1);
      ValueRoundTrip(last.1, rest);
      ElemsRoundTrip(init, e.bytes + rest);
      ElemsLast(p);
      MeaningElemsLast(p);
      ItemsGlue(|init|, MeaningElems(init), Meaning(last.1), a.bytes, e.bytes, rest);
    }
  }

  lemma ItemsGlue(n: nat, xs: seq<Item>, x: Item, a: seq<byte>, b: seq<byte>, rest: seq<byte>)
    requires DecodeItems(a + (b + rest), n) == Some((xs, b + rest))
    requires Decode(b + rest) == Some((x, rest))
    ensures DecodeItems(a + b + rest, n + 1) == Some((xs + [x], rest))
  {
    AppendAssoc(a, b, rest);
    DecodeItemsSnoc(a + (b + rest), n, xs, b + rest, x, rest);
  }

  lemma MeaningElemsLast(p: seq<(Key, Value)>)
    requires p != [] && Encodable(Obj(p))
    ensures MeaningElems(p) == MeaningElems(p[..|p| - 1]) + [Meaning(p[|p| - 1].1)]
  {
  }

  /** The pairs before the last one, and the last value, satisfy what all of `p` does. */
  lemma SplitLast(p: seq<(Key, Value)>)
    requires p != [] && ValidEntries(p) && Encodable(Obj(p))
    ensures ValidEntries(p[..|p| - 1]) && Encodable(Obj(p[..|p| - 1]))
    ensures ValidKey(p[|p| - 1].0) && Valid(p[|p| - 1].1) && Encodable(p[|p| - 1].1)
  {
    var init := p[..|p| - 1];
    assert forall i :: 0 <= i < |init| ==> init[i] == p[i];
  }

  lemma {:induction false} PropsRoundTrip(p: seq<(Key, Value)>, rest: seq<byte>)
    requires ValidEntries(p) && Encodable(Obj(p))
    ensures !EncProps(p).thrown
    ensures DecodeEntries(EncProps(p).bytes + rest, |p|) == Some((MeaningProps(p), rest))
    decreases 1, p, 0
  {
    if p == [] {
      assert EncProps(p).bytes + rest == rest;
    } else {
      var init, last := p[..|p| - 1], p[|p| - 1];
      assert last in p && last.1 < last;
      SplitLast(p);
      var key := KeyValue(last.0);
      var a, ek, ev := EncProps(init), Enc(key), Enc(last.1);
      ValueRoundTrip(last.1, rest);
      ValueRoundTrip(key, ev.bytes + rest);
      PropsRoundTrip(init, ek.bytes + ev.bytes + rest);
      PropsLast(p);
      MeaningPropsLast(p);
      EntriesGlue(|init|, MeaningProps(init), Meaning(key), Meaning(last.1), a.bytes, ek.bytes, ev.bytes, rest);
    }
  }

  lemma MeaningPropsLast(p: seq<(Key, Value)>)
    requires p != [] && Encodable(Obj(p))
    ensures MeaningProps(p) == MeaningProps(p[..|p| - 1]) + [(Meaning(KeyValue(p[|p| - 1].0)), Meaning(p[|p| - 1].1))]
  {
  }

  lemma EntriesGlue(n: nat, es: seq<(Item, Item)>, k: Item, x: Item,
                    a: seq<byte>, bk: seq<byte>, bv: seq<byte>, rest: seq<byte>)
    requires DecodeEntries(a + (bk + bv + rest), n) == Some((es, bk + bv + rest))
    requires Decode(bk + (bv + rest)) == Some((k, bv + rest))
    requires Decode(bv + rest) == Some((x, rest))
    ensures DecodeEntries(a + (bk + bv) + rest, n + 1) == Some((es + [(k, x)], rest))
  {
    EntryRegroup(a, bk, bv, rest);
    DecodeEntriesSnoc(a + (bk + bv + rest), n, es, bk + bv + rest, k, bv + rest, x, rest);
  }


  lemma EntryRegroup(a: seq<byte>, bk: seq<byte>, bv: seq<byte>, rest: seq<byte>)
    ensures a + (bk + bv) + rest == a + (bk + bv + rest)
    ensures bk + bv + rest == bk + (bv + rest)
  {
  }
}
