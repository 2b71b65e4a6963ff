/** The values of pkg/cbor/cbor.go. */
module CborValues {
  import opened ByteOrder
  import opened Utf8

  const TWO_63: int := 0x8000_0000_0000_0000

  type Int64 = n: int | -TWO_63 <= n < TWO_63
  type Uint64 = n: int | 0 <= n < TWO_64

  /** A key of a map: a value that can be compared. Keys of different types are
      different, whatever they stand for. A text is its bytes. `OtherKey` is any
      key of a type the encoder does not know. */
  datatype Key =
    | NullKey
    | UndefinedKey
    | BooleanKey(b: bool)
    | IntKey(n: Int64)
    | Int64Key(n: Int64)
    | Uint64Key(u: Uint64)
    | TextKey(bytes: Bytes)
    | TagKey(number: Uint64, content: Key)
    | OtherKey

  /** What the encoder is given. `Other` is any value of a type it does not know. */
  datatype Value =
    | Null
    | Undefined
    | Boolean(b: bool)
    | Integer(n: Int64)
    | Unsigned(u: Uint64)
    | ByteString(bytes: Bytes)
    | Text(bytes: Bytes)
    | Array(items: seq<Value>)
    | Map(entries: map<Key, Value>)
    | Tag(number: Uint64, content: Value)
    | Other

  // ----- which values -----

  /** Every length fits an int. */
  ghost predicate Sized(v: Value) {
    match v
    case ByteString(b) => |b| < TWO_63
    case Text(b) => |b| < TWO_63
    case Array(items) => |items| < TWO_63 && forall i :: 0 <= i < |items| ==> Sized(items[i])
    case Map(entries) => |entries| < TWO_63 && forall k :: k in entries ==> KeySized(k) && Sized(entries[k])
    case Tag(_, content) => Sized(content)
    case _ => true
  }

  predicate KeySized(k: Key) {
    match k
    case TextKey(b) => |b| < TWO_63
    case TagKey(_, content) => KeySized(content)
    case _ => true
  }

  /** The encoder knows every type in the value. */
  ghost predicate Supported(v: Value) {
    match v
    case Array(items) => forall i :: 0 <= i < |items| ==> Supported(items[i])
    case Map(entries) => forall k :: k in entries ==> KeySupported(k) && Supported(entries[k])
    case Tag(_, content) => Supported(content)
    case Other => false
    case _ => true
  }

  predicate KeySupported(k: Key) {
    match k
    case TagKey(_, content) => KeySupported(content)
    case OtherKey => false
    case _ => true
  }

  // ----- what keys stand for -----

  /** The key that stands for the same: every integer signed, if it fits. */
  function NormalKey(k: Key): Key {
    match k
    case IntKey(n) => Int64Key(n)
    case Uint64Key(u) => if u < TWO_63 then Int64Key(u) else k
    case TagKey(number, content) => TagKey(number, NormalKey(content))
    case _ => k
  }

  /** No two keys stand for the same. */
  ghost predicate KeysApart(keys: set<Key>) {
    forall j, k :: j in keys && k in keys && NormalKey(j) == NormalKey(k) ==> j == k
  }

  /** No two keys of any map in the value stand for the same. */
  ghost predicate Apart(v: Value) {
    match v
    case Array(items) => forall i :: 0 <= i < |items| ==> Apart(items[i])
    case Map(entries) => KeysApart(entries.Keys) && forall k :: k in entries ==> Apart(entries[k])
    case Tag(_, content) => Apart(content)
    case _ => true
  }

  // ----- which values the decoder takes -----

  /** Valid UTF-8. */
  predicate ValidText(s: Bytes)
    decreases |s|
  {
    s == [] || (!DecodeRune(s).Failed() && DecodeRune(s).size >= 1 && ValidText(s[DecodeRune(s).size..]))
  }

  /** The decoder takes integers and text as keys. */
  predicate ValidKey(k: Key) {
    NormalKey(k).Int64Key? || (k.TextKey? && ValidText(k.bytes))
  }

  /** The decoder takes the value at the given number of levels from its depth limit. */
  ghost predicate Decodable(v: Value, levels: int) {
    && levels >= 0
    && match v
       case Unsigned(u) => u < TWO_63
       case Text(b) => ValidText(b)
       case Array(items) => forall i :: 0 <= i < |items| ==> Decodable(items[i], levels - 1)
       case Map(entries) =>
         KeysApart(entries.Keys)
         && forall k :: k in entries ==> levels >= 1 && ValidKey(k) && Decodable(entries[k], levels - 1)
       case Tag(_, content) => Decodable(content, levels - 1)
       case Other => false
       case _ => true
  }

  /** A key that stands for the same as a given one. */
  ghost function KeyFor(keys: set<Key>, normal: Key): (k: Key)
    requires exists k :: k in keys && NormalKey(k) == normal
    ensures k in keys && NormalKey(k) == normal
  {
    var k :| k in keys && NormalKey(k) == normal;
    k
  }

  ghost function NormalKeys(keys: set<Key>): set<Key> {
    set k | k in keys :: NormalKey(k)
  }

  /** The value as the decoder returns it: every integer signed, keys included. */
  ghost function Normalized(v: Value): Value {
    match v
    case Unsigned(u) => if u < TWO_63 then Integer(u) else v
    case Array(items) => Array(seq(|items|, i requires 0 <= i < |items| => Normalized(items[i])))
    case Map(entries) =>
      Map(map k | k in NormalKeys(entries.Keys) :: Normalized(entries[KeyFor(entries.Keys, k)]))
    case Tag(number, content) => Tag(number, Normalized(content))
    case _ => v
  }
}
