/**
 * What `Encoder::encode` writes, as functions of the value. A PHP exception
 * does not take back bytes already written to the stream, so an encoding is
 * the bytes written together with whether an exception ended the call.
 */
module Encoding {
  import opened Constants
  import opened DataValue
  import opened Values

  datatype Emission = Emission(bytes: seq<byte>, thrown: bool)

  /** Writes nothing and returns normally. */
  const Nothing := Emission([], false)

  function Written(bytes: seq<byte>): Emission {
    Emission(bytes, false)
  }

  /** `a` and then, unless `a` threw, `b`. */
  function Then(a: Emission, b: Emission): (r: Emission)
    ensures r.thrown == (a.thrown || b.thrown)
    ensures a.bytes <= r.bytes
  {
    if a.thrown then a else Emission(a.bytes + b.bytes, b.thrown)
  }

  /** `encodeInt`: unsigned for v >= 0, otherwise negative with argument -1 - v. */
  function EncInt(i: int): seq<byte>
    requires IsInt64(i)
  {
    if i >= 0 then Header(TYPE_UNSIGNED_INT, i) else Header(TYPE_NEGATIVE_INT, -1 - i)
  }

  /** `encodeString`: the byte length, then the bytes as they are. */
  function EncString(s: seq<byte>): seq<byte>
    requires |s| <= PHP_INT_MAX
  {
    Header(TYPE_TEXT_STRING, |s|) + s
  }

  /** `encodeBool`. */
  function EncBool(b: bool): seq<byte> {
    if b then Header(TYPE_MISC, 21) else Header(TYPE_MISC, 20)
  }

  /** `encodeNull`. */
  function EncNull(): seq<byte> {
    Header(TYPE_MISC, 22)
  }

  /** `encode`: dispatch on the runtime category. */
  function Enc(v: Value): Emission
    requires Valid(v)
    decreases Nesting(v), v, 3
  {
    match v
    case Int(i) => Written(EncInt(i))
    case Str(s) => Written(EncString(s))
    case PhpArray(p) => EncArray(p)
    case Obj(p) => EncObject(p)
    case Bool(b) => Written(EncBool(b))
    case Null => Written(EncNull())
    case Float => Emission([], true)
    case Resource => Nothing
  }

  /** `encodeArray`: an array if the keys are 0..n-1 in order, else a map. */
  function EncArray(p: seq<(Key, Value)>): Emission
    requires ValidEntries(p)
    decreases 1, p, 2
  {
    if IsList(p) then Then(Written(Header(TYPE_ARRAY, |p|)), EncElems(p))
    else EncObject(p)
  }

  /** `encodeObject`: the pair count, then each key and value. */
  function EncObject(p: seq<(Key, Value)>): Emission
    requires ValidEntries(p)
    decreases 1, p, 1
  {
    Then(Written(Header(TYPE_MAP, |p|)), EncProps(p))
  }

  /** The array elements of `p`, in order. */
  function EncElems(p: seq<(Key, Value)>): Emission
    requires ValidEntries(p)
    decreases 1, p, 0
  {
    if p == [] then Nothing
    else
      var last := p[|p| - 1];
      assert last in p && last.1 < last;
      Then(EncElems(p[..|p| - 1]), Enc(last.1))
  }

  /** The keys and values of `p`, in order. */
  function EncProps(p: seq<(Key, Value)>): Emission
    requires ValidEntries(p)
    decreases 1, p, 0
  {
    if p == [] then Nothing
    else
      var last := p[|p| - 1];
      assert last in p && last.1 < last;
      Then(EncProps(p[..|p| - 1]), EncPair(last.0, last.1))
  }

  /** One property: its key, then its value. */
  function EncPair(k: Key, v: Value): Emission
    requires ValidKey(k) && Valid(v)
    decreases 1, v, 4
  {
    Then(Enc(KeyValue(k)), Enc(v))
  }

  /** A key is encoded as the integer or string it is, and never throws. */
  lemma KeyNeverThrows(k: Key)
    requires ValidKey(k)
    ensures Valid(KeyValue(k)) && !Enc(KeyValue(k)).thrown
    ensures Enc(KeyValue(k)).bytes == if k.IntKey? then EncInt(k.i) else EncString(k.s)
  {
  }

  /** `encode` throws exactly when a float occurs somewhere in the value. */
  lemma {:induction false} ThrownIffFloat(v: Value)
    requires Valid(v)
    ensures Enc(v).thrown <==> HasFloat(v)
    decreases Nesting(v), v, 3
  {
    match v
    case PhpArray(p) =>
      assert HasFloat(v) == FloatAmong(p);
      if IsList(p) {
        ElemsThrown(p);
      } else {
        assert Enc(v) == EncObject(p);
        PropsThrown(p);
      }
    case Obj(p) =>
      assert HasFloat(v) == FloatAmong(p);
      PropsThrown(p);
    case _ =>
  }

  /** The pairs of a valid array or object, with the last one split off. */
  lemma SplitLastValid(p: seq<(Key, Value)>)
    requires p != [] && ValidEntries(p)
    ensures ValidEntries(p[..|p| - 1]) && ValidKey(p[|p| - 1].0) && Valid(p[|p| - 1].1)
  {
    var init := p[..|p| - 1];
    assert forall i :: 0 <= i < |init| ==> init[i] == p[i];
  }

  /** `EncElems` unfolded at the last element. */
  lemma ElemsLast(p: seq<(Key, Value)>)
    requires p != [] && ValidEntries(p)
    ensures ValidEntries(p[..|p| - 1]) && Valid(p[|p| - 1].1)
    ensures EncElems(p) == Then(EncElems(p[..|p| - 1]), Enc(p[|p| - 1].1))
  {
    SplitLastValid(p);
  }

  /** `EncProps` unfolded at the last pair. */
  lemma PropsLast(p: seq<(Key, Value)>)
    requires p != [] && ValidEntries(p)
    ensures ValidEntries(p[..|p| - 1]) && ValidKey(p[|p| - 1].0) && Valid(p[|p| - 1].1)
    ensures EncProps(p) == Then(EncProps(p[..|p| - 1]), Then(Enc(KeyValue(p[|p| - 1].0)), Enc(p[|p| - 1].1)))
  {
    SplitLastValid(p);
  }

  /** A float among the values of `p` is among the earlier ones or is the last. */
  lemma FloatAmongLast(p: seq<(Key, Value)>)
    requires p != []
    ensures FloatAmong(p) <==> FloatAmong(p[..|p| - 1]) || HasFloat(p[|p| - 1].1)
  {
    var init := p[..|p| - 1];
    if FloatAmong(init) {
      var i :| 0 <= i < |init| && HasFloat(init[i].1);
      assert p[i] == init[i];
    }
    if FloatAmong(p) && !HasFloat(p[|p| - 1].1) {
      var i :| 0 <= i < |p| && HasFloat(p[i].1);
      assert init[i] == p[i];
    }
  }

  lemma {:induction false} ElemsThrown(p: seq<(Key, Value)>)
    requires ValidEntries(p)
    ensures EncElems(p).thrown <==> FloatAmong(p)
    decreases 1, p, 0
  {
    if p != [] {
      var init, last := p[..|p| - 1], p[|p| - 1];
      assert last in p && last.1 < last;
      ElemsLast(p);
      ElemsThrown(init);
      ThrownIffFloat(last.1);
      FloatAmongLast(p);
    }
  }

  lemma {:induction false} PropsThrown(p: seq<(Key, Value)>)
    requires ValidEntries(p)
    ensures EncProps(p).thrown <==> FloatAmong(p)
    decreases 1, p, 0
  {
    if p != [] {
      var init, last := p[..|p| - 1], p[|p| - 1];
      assert last in p && last.1 < last;
      PropsLast(p);
      PropsThrown(init);
      ThrownIffFloat(last.1);
      KeyNeverThrows(last.0);
      FloatAmongLast(p);
    }
  }

  lemma PrefixValid(p: seq<(Key, Value)>, n: nat)
    requires ValidEntries(p) && n <= |p|
    ensures ValidEntries(p[..n])
  {
    assert forall i :: 0 <= i < n ==> p[..n][i] == p[i];
  }

  lemma AppendAssoc(a: seq<byte>, b: seq<byte>, c: seq<byte>)
    ensures a + (b + c) == a + b + c
  {
  }

  /** Three steps of which the first two return normally. */
  lemma ThenThree(a: Emission, b: Emission, c: Emission)
    requires !a.thrown && !b.thrown
    ensures Then(a, Then(b, c)) == Emission(a.bytes + b.bytes + c.bytes, c.thrown)
  {
  }

  /**
   * One more element after a prefix that did not throw: its bytes follow, and
   * if it throws, nothing after it is written.
   */
  lemma ElemsStep(p: seq<(Key, Value)>, i: nat)
    requires ValidEntries(p) && i < |p| && !EncElems(p[..i]).thrown
    ensures Valid(p[i].1)
    ensures EncElems(p[..i + 1]).bytes == EncElems(p[..i]).bytes + Enc(p[i].1).bytes
    ensures EncElems(p[..i + 1]).thrown == Enc(p[i].1).thrown
    ensures Enc(p[i].1).thrown ==> EncElems(p) == EncElems(p[..i + 1])
  {
    var q := p[..i + 1];
    PrefixValid(p, i + 1);
    ElemsLast(q);
    assert q[..i] == p[..i] && q[i] == p[i];
    if Enc(p[i].1).thrown {
      ElemsStopAtThrow(p, i + 1);
    }
  }

  /** One more pair after a prefix that did not throw: its key and value follow. */
  lemma PropsStep(p: seq<(Key, Value)>, i: nat)
    requires ValidEntries(p) && i < |p| && !EncProps(p[..i]).thrown
    ensures ValidKey(p[i].0) && Valid(p[i].1)
    ensures EncProps(p[..i + 1]).bytes
      == EncProps(p[..i]).bytes + Enc(KeyValue(p[i].0)).bytes + Enc(p[i].1).bytes
    ensures EncProps(p[..i + 1]).thrown == Enc(p[i].1).thrown
    ensures Enc(p[i].1).thrown ==> EncProps(p) == EncProps(p[..i + 1])
  {
    var q := p[..i + 1];
    PrefixValid(p, i + 1);
    PropsLast(q);
    assert q[..i] == p[..i] && q[i] == p[i];
    KeyNeverThrows(p[i].0);
    ThenThree(EncProps(p[..i]), Enc(KeyValue(p[i].0)), Enc(p[i].1));
    if Enc(p[i].1).thrown {
      PropsStopAtThrow(p, i + 1);
    }
  }

  /** Once an element has thrown, the later elements write nothing more. */
  lemma {:induction false} ElemsStopAtThrow(p: seq<(Key, Value)>, n: nat)
    requires ValidEntries(p) && n <= |p| && EncElems(p[..n]).thrown
    ensures EncElems(p) == EncElems(p[..n])
    decreases |p| - n
  {
    if n < |p| {
      var q := p[..n + 1];
      PrefixValid(p, n + 1);
      ElemsLast(q);
      assert q[..n] == p[..n];
      ElemsStopAtThrow(p, n + 1);
    } else {
      assert p[..n] == p;
    }
  }

  /** Once a key or value has thrown, the later pairs write nothing more. */
  lemma {:induction false} PropsStopAtThrow(p: seq<(Key, Value)>, n: nat)
    requires ValidEntries(p) && n <= |p| && EncProps(p[..n]).thrown
    ensures EncProps(p) == EncProps(p[..n])
    decreases |p| - n
  {
    if n < |p| {
      var q := p[..n + 1];
      PrefixValid(p, n + 1);
      PropsLast(q);
      assert q[..n] == p[..n];
      PropsStopAtThrow(p, n + 1);
    } else {
      assert p[..n] == p;
    }
  }
}
