/** The encodings of a value by section 3 of RFC 8949, apart from any decoder:
    heads of every length, the entries of a map in any order, and the limits on
    depth, keys and text that pkg/cbor/cbor.go sets. */
module CborGrammar {
  import opened Wrappers
  import opened ByteOrder
  import opened Utf8
  import opened CborValues
  import opened CborDecoding
  import opened CborItems
  import opened CborOrders

  /** A head of any length: the argument in the initial byte, or in one, two,
      four or eight bytes after it, the most significant first. */
  ghost predicate AnyHead(bytes: Bytes, major: int, argument: int) {
    var b: seq<int> := bytes;
    || (argument < 24 && b == [0x20 * major + argument])
    || (b == [0x20 * major + 24, argument])
    || (|b| == 3 && b[0] == 0x20 * major + 25 && argument == 0x100 * b[1] + b[2])
    || (|b| == 5 && b[0] == 0x20 * major + 26
        && argument == 0x100_0000 * b[1] + 0x1_0000 * b[2] + 0x100 * b[3] + b[4])
    || (|b| == 9 && b[0] == 0x20 * major + 27
        && argument == 0x100_0000_0000_0000 * b[1] + 0x1_0000_0000_0000 * b[2] + 0x100_0000_0000 * b[3]
                       + 0x1_0000_0000 * b[4] + 0x100_0000 * b[5] + 0x1_0000 * b[6] + 0x100 * b[7] + b[8])
  }

  /** A head of any length and the bytes it counts. */
  ghost predicate Counted(bytes: Bytes, major: int, content: Bytes) {
    exists head: Bytes :: AnyHead(head, major, |content|) && bytes == head + content
  }

  ghost predicate EncodesScalar(bytes: Bytes, v: Value) {
    match v
    case Null => bytes == [0xf6]
    case Undefined => bytes == [0xf7]
    case Boolean(b) => bytes == [if b then 0xf5 else 0xf4]
    case Integer(n) => if n >= 0 then AnyHead(bytes, 0, n) else AnyHead(bytes, 1, -1 - n)
    case ByteString(b) => Counted(bytes, 2, b)
    case Text(b) => ValidText(b) && Counted(bytes, 3, b)
    case _ => false
  }

  /** Keys are integers and texts. */
  ghost predicate EncodesKey(bytes: Bytes, k: Key) {
    || (k.Int64Key? && EncodesScalar(bytes, Integer(k.n)))
    || (k.TextKey? && EncodesScalar(bytes, Text(k.bytes)))
  }

  /** Parts one after the other. */
  function Joined(parts: seq<Bytes>): Bytes {
    if parts == [] then [] else Joined(parts[..|parts| - 1]) + parts[|parts| - 1]
  }

  /** The bytes are an encoding of the value, nested no deeper than so many more levels. */
  ghost predicate Encodes(bytes: Bytes, v: Value, levels: int)
    decreases v, 1
  {
    && levels >= 0
    && match v
       case Array(items) =>
         exists head: Bytes, parts: seq<Bytes> ::
           AnyHead(head, 4, |items|) && EncodesItems(parts, v, levels - 1) && bytes == head + Joined(parts)
       case Map(entries) =>
         exists head: Bytes, order: seq<Key>, parts: seq<Bytes> ::
           && AnyHead(head, 5, |entries|) && Lists(order, entries.Keys) && EncodesEntries(parts, order, v, levels - 1)
           && bytes == head + Joined(parts)
       case Tag(number, content) =>
         exists head: Bytes, rest: Bytes ::
           AnyHead(head, 6, number) && Encodes(rest, content, levels - 1) && bytes == head + rest
       case _ => EncodesScalar(bytes, v)
  }

  /** One part for each item. */
  ghost predicate EncodesItems(parts: seq<Bytes>, v: Value, levels: int)
    requires v.Array?
    decreases v, 0
  {
    |parts| == |v.items| && forall i :: 0 <= i < |parts| ==> Encodes(parts[i], v.items[i], levels)
  }

  /** One part for each entry. */
  ghost predicate EncodesEntries(parts: seq<Bytes>, order: seq<Key>, v: Value, levels: int)
    requires v.Map?
    decreases v, 0
  {
    |parts| == |order| && forall i :: 0 <= i < |parts| ==> EncodesEntry(parts[i], order[i], v, levels)
  }

  /** A key and what it is for. */
  ghost predicate EncodesEntry(part: Bytes, k: Key, v: Value, levels: int)
    requires v.Map?
    decreases v, 0, 0
  {
    levels >= 0 && k in v.entries && exists key: Bytes, item: Bytes ::
      EncodesKey(key, k) && Encodes(item, v.entries[k], levels) && part == key + item
  }
}
