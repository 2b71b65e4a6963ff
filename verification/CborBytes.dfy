/** The bytes that pkg/cbor/cbor.go writes for each kind of value, as section 3
    of RFC 8949 lays them out. */
module CborBytes {
  import opened Wrappers
  import opened ByteOrder
  import opened Utf8
  import opened CborValues
  import opened CborDecoding
  import opened CborItems
  import opened CborOrders

  /** A head: the major type in the upper three bits, and in the lower five the
      argument, or how many bytes follow with it, the most significant first. */
  ghost predicate IsHead(bytes: Bytes, major: int, argument: int) {
    var b: seq<int> := bytes;
    if argument < 24 then b == [0x20 * major + argument]
    else if argument <= 0xff then b == [0x20 * major + 24, argument]
    else if argument <= 0xffff then |b| == 3 && b[0] == 0x20 * major + 25 && 0x100 * b[1] + b[2] == argument
    else if argument <= 0xffff_ffff then
      |b| == 5 && b[0] == 0x20 * major + 26 && 0x100_0000 * b[1] + 0x1_0000 * b[2] + 0x100 * b[3] + b[4] == argument
    else
      && |b| == 9 && b[0] == 0x20 * major + 27
      && 0x100_0000_0000_0000 * b[1] + 0x1_0000_0000_0000 * b[2] + 0x100_0000_0000 * b[3] + 0x1_0000_0000 * b[4]
         + 0x100_0000 * b[5] + 0x1_0000 * b[6] + 0x100 * b[7] + b[8] == argument
  }

  lemma HeadIs(major: Major, argument: Uint64)
    ensures IsHead(Head(major, argument), major, argument)
  {
    hide BigEndian, FromBigEndian;
    var size := ArgumentSize(argument);
    if size > 0 {
      var digits := BigEndian(argument, size);
      Powers256();
      BigEndianRoundTrip(argument, size);
      DigitsOf(digits);
      assert Head(major, argument) == [major * 32 + SizeCode(size)] + digits;
    }
  }

  /** A head and what follows it. */
  ghost predicate Begins(bytes: Bytes, major: int, argument: int, content: Bytes) {
    exists head: Bytes :: IsHead(head, major, argument) && bytes == head + content
  }

  /** What each kind of value is written as. */
  ghost predicate IsWritten(v: Value, x: Item, bytes: Bytes) {
    match v
    case Null => bytes == [0xf6]
    case Undefined => bytes == [0xf7]
    case Boolean(b) => bytes == [if b then 0xf5 else 0xf4]
    case Integer(n) => if n >= 0 then IsHead(bytes, 0, n) else IsHead(bytes, 1, -1 - n)
    case Unsigned(u) => IsHead(bytes, 0, u)
    case ByteString(b) => Begins(bytes, 2, |b|, b)
    case Text(b) => Begins(bytes, 3, |b|, b)
    case Array(items) => x.List? && |x.items| == |items| && Begins(bytes, 4, |items|, ItemsEncoding(x.items))
    case Map(entries) => x.Pairs? && |x.pairs| == |entries| && Begins(bytes, 5, |entries|, PairsEncoding(x.pairs))
    case Tag(number, content) => x.Tagged? && Begins(bytes, 6, number, Encoding(x.content))
    case Other => false
  }

  /** The bytes of an item that can be written for a value. */
  lemma EncodingIsWritten(v: Value, x: Item)
    requires Sized(v) && Ordered(v, x)
    ensures IsWritten(v, x, Encoding(x))
  {
    hide Head, IsHead, Begins, ItemsEncoding, PairsEncoding, OrderedPairs, Lists;
    var head := Head(MajorOf(x), ArgumentOf(x));
    HeadIs(MajorOf(x), ArgumentOf(x));
    EncodingParts(x);
    if v.Map? {
      var order :| Lists(order, v.entries.Keys) && OrderedPairs(v, order, x.pairs);
      PairsCount(v, order, x.pairs);
    }
    HeadFollowed(x, head);
    if v.Null? || v.Undefined? || v.Boolean? {
      SimpleHead(ArgumentOf(x));
    }
    assert Content(x) == [] ==> head + Content(x) == head;
  }

  lemma PairsCount(v: Value, order: seq<Key>, pairs: seq<Pair>)
    requires v.Map? && Lists(order, v.entries.Keys) && OrderedPairs(v, order, pairs)
    ensures |pairs| == |v.entries|
  {
    ListsCount(order, v.entries.Keys);
    assert |v.entries| == |v.entries.Keys|;
  }

  lemma HeadFollowed(x: Item, head: Bytes)
    requires IsHead(head, MajorOf(x), ArgumentOf(x)) && Encoding(x) == head + Content(x)
    ensures Begins(Encoding(x), MajorOf(x), ArgumentOf(x), Content(x))
  {
    hide IsHead, Encoding, Content;
  }

  lemma SimpleHead(code: Uint64)
    requires code < 24
    ensures Head(7, code) == [0xe0 + code]
  {
  }

  /** The items of an array, and the keys and items of a map, are written one after the other. */
  lemma WrittenInTurn(x: Item, items: seq<Item>, p: Pair, pairs: seq<Pair>)
    ensures ItemsEncoding([]) == [] && ItemsEncoding([x] + items) == Encoding(x) + ItemsEncoding(items)
    ensures PairsEncoding([]) == []
    ensures PairsEncoding([p] + pairs) == Encoding(p.key) + Encoding(p.item) + PairsEncoding(pairs)
  {
    hide Encoding;
    ItemsFromFront(x, items);
    PairsFromFront(p, pairs);
  }

  lemma {:induction false} ItemsFromFront(x: Item, items: seq<Item>)
    ensures ItemsEncoding([]) == [] && ItemsEncoding([x] + items) == Encoding(x) + ItemsEncoding(items)
  {
    hide Encoding;
    var all := [x] + items;
    if items == [] {
      assert all[..0] == [];
    } else {
      ItemsFromFront(x, items[..|items| - 1]);
      assert all[..|items|] == [x] + items[..|items| - 1];
    }
  }

  lemma {:induction false} PairsFromFront(p: Pair, pairs: seq<Pair>)
    ensures PairsEncoding([]) == []
    ensures PairsEncoding([p] + pairs) == Encoding(p.key) + Encoding(p.item) + PairsEncoding(pairs)
  {
    hide Encoding;
    var all := [p] + pairs;
    if pairs == [] {
      assert all[..0] == [];
    } else {
      PairsFromFront(p, pairs[..|pairs| - 1]);
      assert all[..|pairs|] == [p] + pairs[..|pairs| - 1];
    }
  }

  /** What each kind of key is written as. */
  ghost predicate KeyIsWritten(k: Key, bytes: Bytes) {
    match k
    case NullKey => bytes == [0xf6]
    case UndefinedKey => bytes == [0xf7]
    case BooleanKey(b) => bytes == [if b then 0xf5 else 0xf4]
    case IntKey(n) => if n >= 0 then IsHead(bytes, 0, n) else IsHead(bytes, 1, -1 - n)
    case Int64Key(n) => if n >= 0 then IsHead(bytes, 0, n) else IsHead(bytes, 1, -1 - n)
    case Uint64Key(u) => IsHead(bytes, 0, u)
    case TextKey(b) => Begins(bytes, 3, |b|, b)
    case TagKey(number, content) => Begins(bytes, 6, number, KeyEncoding(content))
    case OtherKey => true
  }

  /** The bytes of a key that can be written. */
  lemma KeyEncodingIsWritten(k: Key)
    requires KeySized(k)
    ensures KeyIsWritten(k, KeyEncoding(k))
  {
    hide Head, IsHead, Begins;
    var x := KeyItem(k);
    var head := Head(MajorOf(x), ArgumentOf(x));
    HeadIs(MajorOf(x), ArgumentOf(x));
    EncodingParts(x);
    HeadFollowed(x, head);
    if k.NullKey? || k.UndefinedKey? || k.BooleanKey? {
      SimpleHead(ArgumentOf(x));
    }
    assert Content(x) == [] ==> head + Content(x) == head;
  }
}
