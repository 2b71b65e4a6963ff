/** The data items of RFC 8949 that pkg/cbor/cbor.go writes, with the entries of
    a map in the order they are written, and their encoding in the shortest form
    of section 4.2.1. */
module CborItems {
  import opened Wrappers
  import opened ByteOrder
  import opened Utf8
  import opened CborValues
  import opened CborDecoding

  type SimpleCode = c: int | 20 <= c < 24 witness 22

  type Number = n: int | -TWO_63 <= n < TWO_64

  datatype Item =
    | Simple(code: SimpleCode)
    | Numeral(n: Number)
    | Octets(bytes: Bytes)
    | Letters(bytes: Bytes)
    | List(items: seq<Item>)
    | Pairs(pairs: seq<Pair>)
    | Tagged(number: Uint64, content: Item)

  datatype Pair = Pair(key: Item, item: Item)

  // ----- heads -----

  /** How many bytes the shortest form of an argument has after its initial byte. */
  function ArgumentSize(argument: Uint64): nat {
    if argument < 24 then 0
    else if argument < 0x100 then 1
    else if argument < 0x1_0000 then 2
    else if argument < 0x1_0000_0000 then 4
    else 8
  }

  /** The additional information that announces a number of bytes. */
  function SizeCode(size: nat): int {
    if size == 1 then 24 else if size == 2 then 25 else if size == 4 then 26 else 27
  }

  /** A major type with its argument, in the shortest form. */
  function Head(major: Major, argument: Uint64): (b: Bytes)
    ensures |b| == 1 + ArgumentSize(argument)
  {
    var size := ArgumentSize(argument);
    if size == 0 then [major * 32 + argument]
    else [major * 32 + SizeCode(size)] + BigEndian(argument, size)
  }

  /** A head is read back. */
  lemma HeadRoundTrip(data: Bytes, offset: nat, major: Major, argument: Uint64)
    requires At(data, offset, Head(major, argument))
    ensures var r := ReadHead(data, offset);
            && r.next == offset + |Head(major, argument)| && r.head.Some?
            && r.head.value.major == major && r.head.value.argument == argument
            && (r.head.value.info < 24 <==> argument < 24)
  {
    var size := ArgumentSize(argument);
    if size == 0 {
      assert data[offset] == Head(major, argument)[0];
    } else {
      AtSplit(data, offset, [major * 32 + SizeCode(size)], BigEndian(argument, size));
      assert data[offset] == [major * 32 + SizeCode(size)][0];
      Powers256();
      BigEndianRoundTrip(argument, size);
    }
  }

  /** No accepted head is shorter than the shortest form of its argument. */
  lemma HeadIsShortest(data: Bytes, offset: nat)
    requires offset <= |data| && ReadHead(data, offset).head.Some?
    ensures var r := ReadHead(data, offset);
            |Head(r.head.value.major, r.head.value.argument)| <= r.next - offset
  {
    var info := data[offset] % 32;
    if info >= 24 {
      var size := CodeSize(info);
      FromBigEndianBound(data[offset + 1..offset + 1 + size]);
      Powers256();
    }
  }

  // ----- the encoding -----

  /** A length as an argument. */
  function LengthArgument(n: nat): Uint64 {
    n % TWO_64
  }

  function MajorOf(x: Item): Major {
    match x
    case Simple(_) => 7
    case Numeral(n) => if n >= 0 then 0 else 1
    case Octets(_) => 2
    case Letters(_) => 3
    case List(_) => 4
    case Pairs(_) => 5
    case Tagged(_, _) => 6
  }

  function ArgumentOf(x: Item): Uint64 {
    match x
    case Simple(code) => code
    case Numeral(n) => if n >= 0 then n else -1 - n
    case Octets(b) => LengthArgument(|b|)
    case Letters(b) => LengthArgument(|b|)
    case List(items) => LengthArgument(|items|)
    case Pairs(pairs) => LengthArgument(|pairs|)
    case Tagged(number, _) => number
  }

  function Encoding(x: Item): Bytes
    decreases x, 1
  {
    Head(MajorOf(x), ArgumentOf(x)) + Content(x)
  }

  /** What follows the head. */
  function Content(x: Item): Bytes
    decreases x, 0
  {
    match x
    case Simple(_) => []
    case Numeral(_) => []
    case Octets(b) => b
    case Letters(b) => b
    case List(items) => ItemsEncoding(items)
    case Pairs(pairs) => PairsEncoding(pairs)
    case Tagged(_, content) => Encoding(content)
  }

  function ItemsEncoding(items: seq<Item>): Bytes
    decreases items, 0
  {
    if items == [] then [] else ItemsEncoding(items[..|items| - 1]) + Encoding(items[|items| - 1])
  }

  function PairsEncoding(pairs: seq<Pair>): Bytes
    decreases pairs, 0
  {
    if pairs == [] then []
    else PairsEncoding(pairs[..|pairs| - 1]) + PairEncoding(pairs[|pairs| - 1])
  }

  function PairEncoding(p: Pair): Bytes
    decreases p, 2
  {
    Encoding(p.key) + Encoding(p.item)
  }

  lemma EncodingParts(x: Item)
    ensures Encoding(x) == Head(MajorOf(x), ArgumentOf(x)) + Content(x)
  {
  }

  /** Every length fits an argument. */
  predicate Fits(x: Item)
    decreases x
  {
    match x
    case Octets(b) => |b| < TWO_64
    case Letters(b) => |b| < TWO_64
    case List(items) => |items| < TWO_64 && forall i :: 0 <= i < |items| ==> Fits(items[i])
    case Pairs(pairs) =>
      |pairs| < TWO_64 && forall i :: 0 <= i < |pairs| ==> Fits(pairs[i].key) && Fits(pairs[i].item)
    case Tagged(_, content) => Fits(content)
    case _ => true
  }

  predicate AllFit(items: seq<Item>) {
    forall i :: 0 <= i < |items| ==> Fits(items[i])
  }

  predicate PairsFit(pairs: seq<Pair>) {
    forall i :: 0 <= i < |pairs| ==> Fits(pairs[i].key) && Fits(pairs[i].item)
  }

  // ----- the encoding tells items apart -----

  lemma {:induction false} SameItem(x: Item, y: Item, data: Bytes, offset: nat)
    requires Fits(x) && Fits(y) && At(data, offset, Encoding(x)) && At(data, offset, Encoding(y))
    ensures x == y
    decreases x, 1
  {
    hide Head, ReadHead, At, Fits, Content, ItemsEncoding, PairsEncoding;
    AtSplit(data, offset, Head(MajorOf(x), ArgumentOf(x)), Content(x));
    AtSplit(data, offset, Head(MajorOf(y), ArgumentOf(y)), Content(y));
    HeadRoundTrip(data, offset, MajorOf(x), ArgumentOf(x));
    HeadRoundTrip(data, offset, MajorOf(y), ArgumentOf(y));
    SameContent(x, y, data, offset + |Head(MajorOf(x), ArgumentOf(x))|);
  }

  lemma {:induction false} SameContent(x: Item, y: Item, data: Bytes, offset: nat)
    requires Fits(x) && Fits(y) && At(data, offset, Content(x)) && At(data, offset, Content(y))
    requires MajorOf(x) == MajorOf(y) && ArgumentOf(x) == ArgumentOf(y)
    ensures x == y
    decreases x, 0
  {
    hide Encoding, ItemsEncoding, PairsEncoding;
    if x.List? {
      SameItems(x.items, y.items, data, offset);
    } else if x.Pairs? {
      SamePairs(x.pairs, y.pairs, data, offset);
    } else if x.Tagged? {
      SameItem(x.content, y.content, data, offset);
    }
  }

  lemma {:induction false} SameItems(xs: seq<Item>, ys: seq<Item>, data: Bytes, offset: nat)
    requires |xs| == |ys| && AllFit(xs) && AllFit(ys)
    requires At(data, offset, ItemsEncoding(xs)) && At(data, offset, ItemsEncoding(ys))
    ensures xs == ys
    decreases xs, 0
  {
    hide Encoding, Fits, At;
    if xs != [] {
      var n := |xs| - 1;
      var xf, yf := xs[..n], ys[..n];
      assert ItemsEncoding(xs) == ItemsEncoding(xf) + Encoding(xs[n]);
      assert ItemsEncoding(ys) == ItemsEncoding(yf) + Encoding(ys[n]);
      AtSplit(data, offset, ItemsEncoding(xf), Encoding(xs[n]));
      AtSplit(data, offset, ItemsEncoding(yf), Encoding(ys[n]));
      SameItems(xf, yf, data, offset);
      SameItem(xs[n], ys[n], data, offset + |ItemsEncoding(xf)|);
      assert xs == xf + [xs[n]] && ys == yf + [ys[n]];
    }
  }

  lemma FrontFits(pairs: seq<Pair>)
    requires PairsFit(pairs) && pairs != []
    ensures var last := |pairs| - 1; PairsFit(pairs[..last]) && Fits(pairs[last].key) && Fits(pairs[last].item)
  {
    hide Fits;
  }

  lemma {:induction false} SamePairs(xs: seq<Pair>, ys: seq<Pair>, data: Bytes, offset: nat)
    requires |xs| == |ys| && PairsFit(xs) && PairsFit(ys)
    requires At(data, offset, PairsEncoding(xs)) && At(data, offset, PairsEncoding(ys))
    ensures xs == ys
    decreases xs, 0
  {
    hide Encoding, Fits, At, PairsFit, PairEncoding;
    if xs != [] {
      var n := |xs| - 1;
      var xf, yf := xs[..n], ys[..n];
      FrontFits(xs);
      FrontFits(ys);
      assert PairsEncoding(xs) == PairsEncoding(xf) + PairEncoding(xs[n]);
      assert PairsEncoding(ys) == PairsEncoding(yf) + PairEncoding(ys[n]);
      AtSplit(data, offset, PairsEncoding(xf), PairEncoding(xs[n]));
      AtSplit(data, offset, PairsEncoding(yf), PairEncoding(ys[n]));
      SamePairs(xf, yf, data, offset);
      SamePair(xs[n], ys[n], data, offset + |PairsEncoding(xf)|);
      assert xs == xf + [xs[n]] && ys == yf + [ys[n]];
    }
  }

  lemma {:induction false} SamePair(p: Pair, q: Pair, data: Bytes, offset: nat)
    requires Fits(p.key) && Fits(p.item) && Fits(q.key) && Fits(q.item)
    requires At(data, offset, PairEncoding(p)) && At(data, offset, PairEncoding(q))
    ensures p == q
    decreases p, 2
  {
    hide Encoding, Fits, At;
    AtSplit(data, offset, Encoding(p.key), Encoding(p.item));
    AtSplit(data, offset, Encoding(q.key), Encoding(q.item));
    SameItem(p.key, q.key, data, offset);
    SameItem(p.item, q.item, data, offset + |Encoding(p.key)|);
  }

  /** No encoding begins another: the encoding is injective and prefix-free. */
  lemma PrefixFree(x: Item, y: Item)
    requires Fits(x) && Fits(y) && Encoding(x) <= Encoding(y)
    ensures x == y
  {
    hide Encoding, Fits;
    var data := Encoding(y);
    assert At(data, 0, Encoding(x)) && At(data, 0, data);
    SameItem(x, y, data, 0);
  }
}
