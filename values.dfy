/**
 * The PHP values the encoder accepts, by runtime category. Array keys and
 * object property names are given as PHP holds them after its own key
 * normalisation (a numeric string key is an integer key); arrays and
 * objects are ordered lists of key/value pairs in iteration order.
 */
module Values {
  import opened Constants
  import opened DataValue

  const PHP_INT_MIN: int := -0x8000_0000_0000_0000

  datatype Key = IntKey(i: int) | StrKey(s: seq<byte>)

  datatype Value =
    | Int(i: int)
    | Str(s: seq<byte>)
    | PhpArray(entries: seq<(Key, Value)>)
    | Obj(props: seq<(Key, Value)>)
    | Bool(b: bool)
    | Null
    | Float
      /** Any other runtime category, such as a resource. */
    | Resource

  /** A key encoded as the value it is (`encode($key)`). */
  function KeyValue(k: Key): (v: Value)
    ensures v.Int? || v.Str?
  {
    match k
    case IntKey(i) => Int(i)
    case StrKey(s) => Str(s)
  }

  predicate IsInt64(i: int) {
    PHP_INT_MIN <= i <= PHP_INT_MAX
  }

  predicate ValidKey(k: Key) {
    match k
    case IntKey(i) => IsInt64(i)
    case StrKey(s) => |s| <= PHP_INT_MAX
  }

  /** What a 64-bit PHP runtime can hold: integers and lengths fit a PHP int. */
  predicate Valid(v: Value) {
    match v
    case Int(i) => IsInt64(i)
    case Str(s) => |s| <= PHP_INT_MAX
    case PhpArray(p) =>
      |p| <= PHP_INT_MAX && forall i :: 0 <= i < |p| ==> ValidKey(p[i].0) && Valid(p[i].1)
    case Obj(p) =>
      |p| <= PHP_INT_MAX && forall i :: 0 <= i < |p| ==> ValidKey(p[i].0) && Valid(p[i].1)
    case _ => true
  }

  /** The pairs of a valid array or object. */
  predicate ValidEntries(p: seq<(Key, Value)>) {
    Valid(Obj(p))
  }

  /**
   * The encoder's array test: the keys are exactly the integers
   * 0, 1, ..., n-1 in iteration order.
   */
  predicate IsList(p: seq<(Key, Value)>) {
    forall i :: 0 <= i < |p| ==> p[i].0 == IntKey(i)
  }

  /** A float occurs somewhere in `v`. */
  predicate HasFloat(v: Value) {
    match v
    case Float => true
    case PhpArray(p) => exists i :: 0 <= i < |p| && HasFloat(p[i].1)
    case Obj(p) => exists i :: 0 <= i < |p| && HasFloat(p[i].1)
    case _ => false
  }

  /** A float occurs in one of the values of `p`. */
  predicate FloatAmong(p: seq<(Key, Value)>) {
    exists i :: 0 <= i < |p| && HasFloat(p[i].1)
  }

  /** Neither a float nor a value of an unrecognised category occurs in `v`. */
  predicate Encodable(v: Value) {
    match v
    case Float => false
    case Resource => false
    case PhpArray(p) => forall i :: 0 <= i < |p| ==> Encodable(p[i].1)
    case Obj(p) => forall i :: 0 <= i < |p| ==> Encodable(p[i].1)
    case _ => true
  }

  /** Nesting level used to order the encoder's recursion: keys sit below collections. */
  function Nesting(v: Value): nat {
    if v.PhpArray? || v.Obj? then 1 else 0
  }
}
