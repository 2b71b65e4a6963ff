/** The laws of pkg/cbor/cbor.go: what the encoder writes is read back, the
    encoding is injective and prefix-free, and what is accepted is no shorter
    than its encoding. */
module CborLaws {
  import opened Wrappers
  import opened ByteOrder
  import opened Utf8
  import opened CborValues
  import opened CborDecoding
  import opened CborItems
  import opened CborOrders

  // ----- the value an item is read as -----

  function ItemKey(x: Item): Key {
    match x
    case Simple(code) =>
      if code == 20 then BooleanKey(false) else if code == 21 then BooleanKey(true)
      else if code == 22 then NullKey else UndefinedKey
    case Numeral(n) => if n < TWO_63 then Int64Key(n) else Uint64Key(n)
    case Letters(b) => TextKey(b)
    case Tagged(number, content) => TagKey(number, ItemKey(content))
    case _ => OtherKey
  }

  lemma {:induction false} ItemKeyIs(k: Key)
    requires KeySupported(k)
    ensures ItemKey(KeyItem(k)) == NormalKey(k)
  {
    if k.TagKey? {
      ItemKeyIs(k.content);
    }
  }

  function ItemValue(x: Item): Value
    decreases x
  {
    match x
    case Simple(code) =>
      if code == 20 then Boolean(false) else if code == 21 then Boolean(true)
      else if code == 22 then Null else Undefined
    case Numeral(n) => if n < TWO_63 then Integer(n) else Unsigned(n)
    case Octets(b) => ByteString(b)
    case Letters(b) => Text(b)
    case List(items) => Array(seq(|items|, i requires 0 <= i < |items| => ItemValue(items[i])))
    case Pairs(pairs) => Map(PairsValue(pairs))
    case Tagged(number, content) => Tag(number, ItemValue(content))
  }

  function PairsValue(pairs: seq<Pair>): map<Key, Value>
    decreases pairs
  {
    if pairs == [] then map[]
    else
      var p := pairs[|pairs| - 1];
      assert p.item < p;
      PairsValue(pairs[..|pairs| - 1])[ItemKey(p.key) := ItemValue(p.item)]
  }

  predicate KeyReadable(x: Item) {
    (x.Numeral? && x.n < TWO_63) || (x.Letters? && ValidText(x.bytes))
  }

  /** The decoder takes the item at the given number of levels from its depth limit. */
  predicate Readable(x: Item, levels: int)
    decreases x, 0
  {
    && levels >= 0
    && match x
       case Numeral(n) => n < TWO_63
       case Letters(b) => ValidText(b)
       case List(items) => forall i :: 0 <= i < |items| ==> Readable(items[i], levels - 1)
       case Pairs(pairs) => PairsReadable(pairs, levels - 1)
       case Tagged(_, content) => Readable(content, levels - 1)
       case _ => true
  }

  predicate PairsReadable(pairs: seq<Pair>, levels: int)
    decreases pairs, 1
  {
    && (forall i :: 0 <= i < |pairs| ==> PairReadable(pairs[i], levels))
    && forall i, j :: 0 <= i < j < |pairs| ==> pairs[i].key != pairs[j].key
  }

  predicate PairReadable(p: Pair, levels: int)
    decreases p, 1
  {
    levels >= 0 && KeyReadable(p.key) && Readable(p.item, levels)
  }

  // ----- how long an encoding is -----

  lemma {:induction false} ItemsNotEmpty(items: seq<Item>)
    ensures |ItemsEncoding(items)| >= |items|
  {
    hide Encoding;
    if items != [] {
      ItemsNotEmpty(items[..|items| - 1]);
      NotEmpty(items[|items| - 1]);
    }
  }

  lemma NotEmpty(x: Item)
    ensures |Encoding(x)| >= 1
  {
    hide Head;
  }

  lemma {:induction false} PairsNotEmpty(pairs: seq<Pair>)
    ensures |PairsEncoding(pairs)| >= 2 * |pairs|
  {
    hide Encoding;
    if pairs != [] {
      PairsNotEmpty(pairs[..|pairs| - 1]);
      NotEmpty(pairs[|pairs| - 1].key);
      NotEmpty(pairs[|pairs| - 1].item);
    }
  }

  // ----- the round trip of an item, exactly -----

  /** Decoding gives the item's value and its end, or fails, as the item is readable or not. */
  ghost predicate ReadsBack(r: Outcome, end: nat, x: Item, readable: bool) {
    if readable then r.value == Some(ItemValue(x)) && r.offset == end else r.value == None
  }

  lemma {:induction false} Exact(x: Item, data: Bytes, offset: nat, depth: nat)
    requires Fits(x) && depth <= MAX_DEPTH + 1 && At(data, offset, Encoding(x))
    ensures ReadsBack(Decoding(data, offset, depth), offset + |Encoding(x)|, x, Readable(x, MAX_DEPTH - depth))
    decreases x, 1
  {
    hide *;
    if depth > MAX_DEPTH {
      TooDeep(x, data, offset, depth);
    } else {
      match x
      case List(items) => ListExact(x, data, offset, depth);
      case Pairs(pairs) => MapExact(x, data, offset, depth);
      case Tagged(number, content) => TagExact(x, data, offset, depth);
      case _ => ScalarExact(x, data, offset, depth);
    }
  }

  lemma TooDeep(x: Item, data: Bytes, offset: nat, depth: nat)
    requires At(data, offset, Encoding(x)) && depth == MAX_DEPTH + 1
    ensures ReadsBack(Decoding(data, offset, depth), offset + |Encoding(x)|, x, Readable(x, MAX_DEPTH - depth))
  {
  }

  /** The head of an item is read, and its content follows. */
  lemma HeadExact(x: Item, data: Bytes, offset: nat)
    requires At(data, offset, Encoding(x))
    ensures var r := ReadHead(data, offset);
            && r.head.Some? && r.head.value.major == MajorOf(x) && r.head.value.argument == ArgumentOf(x)
            && (r.head.value.info < 24 <==> ArgumentOf(x) < 24)
            && At(data, r.next, Content(x)) && offset + |Encoding(x)| == r.next + |Content(x)| <= |data|
  {
    hide Head, ReadHead, Content, MajorOf, ArgumentOf;
    AtSplit(data, offset, Head(MajorOf(x), ArgumentOf(x)), Content(x));
    HeadRoundTrip(data, offset, MajorOf(x), ArgumentOf(x));
  }

  lemma ScalarExact(x: Item, data: Bytes, offset: nat, depth: nat)
    requires Fits(x) && depth <= MAX_DEPTH && At(data, offset, Encoding(x))
    requires !x.List? && !x.Pairs? && !x.Tagged?
    ensures ReadsBack(Decoding(data, offset, depth), offset + |Encoding(x)|, x, Readable(x, MAX_DEPTH - depth))
  {
    hide ValidText, ReadHead, Encoding, Items, Entries;
    HeadExact(x, data, offset);
  }

  lemma {:induction false} TagExact(x: Item, data: Bytes, offset: nat, depth: nat)
    requires x.Tagged? && Fits(x) && depth <= MAX_DEPTH && At(data, offset, Encoding(x))
    ensures ReadsBack(Decoding(data, offset, depth), offset + |Encoding(x)|, x, Readable(x, MAX_DEPTH - depth))
    decreases x, 0
  {
    hide ReadHead, Items, Entries, Encoding;
    HeadExact(x, data, offset);
    Exact(x.content, data, ReadHead(data, offset).next, depth + 1);
  }

  function ItemValues(items: seq<Item>): (values: seq<Value>)
    ensures |values| == |items|
  {
    seq(|items|, i requires 0 <= i < |items| => ItemValue(items[i]))
  }

  lemma {:induction false} ListExact(x: Item, data: Bytes, offset: nat, depth: nat)
    requires x.List? && Fits(x) && depth <= MAX_DEPTH && At(data, offset, Encoding(x))
    ensures ReadsBack(Decoding(data, offset, depth), offset + |Encoding(x)|, x, Readable(x, MAX_DEPTH - depth))
    decreases x, 0
  {
    hide ReadHead, Items, Entries, Encoding, ItemsEncoding;
    HeadExact(x, data, offset);
    ItemsNotEmpty(x.items);
    ItemsExact(x.items, data, ReadHead(data, offset).next, depth + 1);
    assert ItemValues(x.items) == ItemValue(x).items;
  }

  lemma {:induction false} ItemsExact(items: seq<Item>, data: Bytes, offset: nat, depth: nat)
    requires AllFit(items) && depth <= MAX_DEPTH + 1 && At(data, offset, ItemsEncoding(items))
    ensures var r := Items(data, offset, depth, |items|);
            if forall i :: 0 <= i < |items| ==> Readable(items[i], MAX_DEPTH - depth)
            then r.ok && r.items == ItemValues(items) && r.offset == offset + |ItemsEncoding(items)|
            else !r.ok
    decreases items, 0
  {
    hide Decoding, Readable, Encoding, ItemValue, At, Fits;
    if items != [] {
      var front, last := items[..|items| - 1], items[|items| - 1];
      assert items == front + [last];
      AtSplit(data, offset, ItemsEncoding(front), Encoding(last));
      ItemsExact(front, data, offset, depth);
      Exact(last, data, offset + |ItemsEncoding(front)|, depth);
      assert ItemValues(items) == ItemValues(front) + [ItemValue(last)];
    }
  }

  lemma {:induction false} MapExact(x: Item, data: Bytes, offset: nat, depth: nat)
    requires x.Pairs? && Fits(x) && depth <= MAX_DEPTH && At(data, offset, Encoding(x))
    ensures ReadsBack(Decoding(data, offset, depth), offset + |Encoding(x)|, x, Readable(x, MAX_DEPTH - depth))
    decreases x, 0
  {
    hide ReadHead, Items, Entries, Encoding, PairsEncoding, PairsReadable, PairsValue;
    HeadExact(x, data, offset);
    PairsNotEmpty(x.pairs);
    PairsExact(x.pairs, data, ReadHead(data, offset).next, depth + 1);
  }

  lemma {:induction false} PairsExact(pairs: seq<Pair>, data: Bytes, offset: nat, depth: nat)
    requires PairsFit(pairs) && depth <= MAX_DEPTH + 1 && At(data, offset, PairsEncoding(pairs))
    ensures var r := Entries(data, offset, depth, |pairs|);
            if PairsReadable(pairs, MAX_DEPTH - depth)
            then r.ok && r.entries == PairsValue(pairs) && r.offset == offset + |PairsEncoding(pairs)|
            else !r.ok
    decreases pairs, 0
  {
    hide EntryAfter, PairReadable, PairEncoding, ItemKey, ItemValue, At, Fits;
    if pairs != [] {
      var front, p := pairs[..|pairs| - 1], pairs[|pairs| - 1];
      assert pairs == front + [p];
      AtSplit(data, offset, PairsEncoding(front), PairEncoding(p));
      PairsExact(front, data, offset, depth);
      var before := Entries(data, offset, depth, |front|);
      if before.ok {
        PairExact(p, data, before, depth);
        OneMoreReadable(front, p, MAX_DEPTH - depth);
      } else {
        FrontReadable(front, p, MAX_DEPTH - depth);
      }
    }
  }

  lemma FrontReadable(front: seq<Pair>, p: Pair, levels: int)
    ensures PairsReadable(front + [p], levels) ==> PairsReadable(front, levels)
  {
    hide PairReadable;
    if PairsReadable(front + [p], levels) {
      assert forall i :: 0 <= i < |front| ==> (front + [p])[i] == front[i];
    }
  }

  lemma OneMoreReadable(front: seq<Pair>, p: Pair, levels: int)
    requires PairsReadable(front, levels)
    ensures PairsReadable(front + [p], levels) <==> PairReadable(p, levels) && ItemKey(p.key) !in PairsValue(front)
  {
    hide Readable, ItemKey, PairsValue, KeyReadable;
    var pairs := front + [p];
    assert pairs[|front|] == p && forall i :: 0 <= i < |front| ==> pairs[i] == front[i];
    if PairReadable(p, levels) {
      KeyAmong(front, p.key, levels);
    }
  }

  /** A key is among those read before exactly when it was written before. */
  lemma {:induction false} KeyAmong(pairs: seq<Pair>, key: Item, levels: int)
    requires PairsReadable(pairs, levels)
    ensures KeyReadable(key) ==>
              (ItemKey(key) in PairsValue(pairs) <==> exists i :: 0 <= i < |pairs| && pairs[i].key == key)
  {
    hide ItemValue, ValidText, Readable;
    if pairs != [] {
      var front, p := pairs[..|pairs| - 1], pairs[|pairs| - 1];
      KeyAmong(front, key, levels);
      assert PairReadable(p, levels);
      if i :| 0 <= i < |front| && front[i].key == key {
        assert pairs[i].key == key;
      }
    }
  }

  lemma {:induction false} PairExact(p: Pair, data: Bytes, before: EntriesOutcome, depth: nat)
    requires Fits(p.key) && Fits(p.item) && depth <= MAX_DEPTH + 1
    requires At(data, before.offset, PairEncoding(p))
    ensures var r := EntryAfter(data, before, depth);
            r.ok <==> PairReadable(p, MAX_DEPTH - depth) && ItemKey(p.key) !in before.entries
    ensures var r := EntryAfter(data, before, depth);
            r.ok ==> r.entries == before.entries[ItemKey(p.key) := ItemValue(p.item)]
                     && r.offset == before.offset + |PairEncoding(p)|
    decreases p, 2
  {
    hide Decoding, Readable, Encoding, ItemValue, ItemKey, ValidText, KeyReadable, Fits, At, AsKey;
    AtSplit(data, before.offset, Encoding(p.key), Encoding(p.item));
    Exact(p.key, data, before.offset, depth);
    ReadAsKey(p.key, MAX_DEPTH - depth);
    if depth <= MAX_DEPTH && KeyReadable(p.key) {
      Exact(p.item, data, before.offset + |Encoding(p.key)|, depth);
    }
  }

  lemma ReadAsKey(x: Item, levels: int)
    ensures Readable(x, levels) && AsKey(ItemValue(x)).Some? <==> levels >= 0 && KeyReadable(x)
    ensures KeyReadable(x) ==> AsKey(ItemValue(x)) == Some(ItemKey(x))
  {
    hide ValidText;
  }

  // ----- the round trip of a value -----

  lemma {:induction false} ReadableIff(v: Value, x: Item, levels: int)
    requires Ordered(v, x)
    ensures Readable(x, levels) <==> Decodable(v, levels)
    decreases v, 1
  {
    hide ValidText, PairsReadable, Lists, OrderedPairs;
    match v
    case Array(items) =>
      forall i | 0 <= i < |items|
        ensures Readable(x.items[i], levels - 1) <==> Decodable(items[i], levels - 1)
      {
        ReadableIff(items[i], x.items[i], levels - 1);
      }
    case Map(entries) =>
      var order :| Lists(order, entries.Keys) && OrderedPairs(v, order, x.pairs);
      MapReadableIff(v, order, x.pairs, levels);
    case Tag(_, content) => ReadableIff(content, x.content, levels - 1);
    case _ =>
  }

  lemma {:induction false} MapReadableIff(v: Value, order: seq<Key>, pairs: seq<Pair>, levels: int)
    requires v.Map? && Lists(order, v.entries.Keys) && OrderedPairs(v, order, pairs)
    ensures levels >= 0 && PairsReadable(pairs, levels - 1) <==> Decodable(v, levels)
    decreases v, 0
  {
    hide ValidText, KeyItem, NormalKey, Ascending, Readable, Ordered;
    forall i | 0 <= i < |order|
      ensures order[i] in v.entries
      ensures PairReadable(pairs[i], levels - 1)
              <==> levels >= 1 && ValidKey(order[i]) && Decodable(v.entries[order[i]], levels - 1)
    {
      assert OrderedPair(v, order[i], pairs[i]);
      KeyReadableIff(order[i]);
      ReadableIff(v.entries[order[i]], pairs[i].item, levels - 1);
    }
    AllPairsReadable(v, order, pairs, levels);
    KeysApartIff(v, order, pairs);
  }

  lemma AllPairsReadable(v: Value, order: seq<Key>, pairs: seq<Pair>, levels: int)
    requires v.Map? && Lists(order, v.entries.Keys) && |pairs| == |order|
    requires forall i :: 0 <= i < |order| ==> order[i] in v.entries
    requires forall i :: 0 <= i < |order| ==>
               (PairReadable(pairs[i], levels - 1)
                <==> levels >= 1 && ValidKey(order[i]) && Decodable(v.entries[order[i]], levels - 1))
    ensures (forall i :: 0 <= i < |pairs| ==> PairReadable(pairs[i], levels - 1))
            <==> forall k :: k in v.entries ==> levels >= 1 && ValidKey(k) && Decodable(v.entries[k], levels - 1)
  {
    hide PairReadable, ValidKey, Decodable;
    if forall i :: 0 <= i < |pairs| ==> PairReadable(pairs[i], levels - 1) {
      forall k | k in v.entries
        ensures levels >= 1 && ValidKey(k) && Decodable(v.entries[k], levels - 1)
      {
        assert k in order;
        var i :| 0 <= i < |order| && order[i] == k;
        assert PairReadable(pairs[i], levels - 1);
      }
    }
  }

  lemma KeyReadableIff(k: Key)
    requires KeySupported(k)
    ensures KeyReadable(KeyItem(k)) <==> ValidKey(k)
  {
    hide ValidText;
  }

  lemma KeysApartIff(v: Value, order: seq<Key>, pairs: seq<Pair>)
    requires v.Map? && Lists(order, v.entries.Keys) && OrderedPairs(v, order, pairs)
    ensures KeysApart(v.entries.Keys) <==> forall i, j :: 0 <= i < j < |pairs| ==> pairs[i].key != pairs[j].key
  {
    hide KeyItem, NormalKey, Ascending, Ordered;
    forall i, j | 0 <= i < |pairs| && 0 <= j < |pairs|
      ensures pairs[i].key == pairs[j].key <==> NormalKey(order[i]) == NormalKey(order[j])
    {
      assert OrderedPair(v, order[i], pairs[i]) && OrderedPair(v, order[j], pairs[j]);
      SameKeyItemIff(order[i], order[j]);
    }
    if KeysApart(v.entries.Keys) {
      forall i, j | 0 <= i < j < |pairs|
        ensures pairs[i].key != pairs[j].key
      {
        assert order[i] in order && order[j] in order;
      }
    } else {
      var j, k :| j in v.entries.Keys && k in v.entries.Keys && NormalKey(j) == NormalKey(k) && j != k;
      assert j in order && k in order;
      var p :| 0 <= p < |order| && order[p] == j;
      var q :| 0 <= q < |order| && order[q] == k;
      assert pairs[p].key == pairs[q].key;
    }
  }

  lemma {:induction false} DecodableIsApart(v: Value, levels: int)
    requires Decodable(v, levels)
    ensures Apart(v)
  {
    match v
    case Array(items) =>
      forall i | 0 <= i < |items|
        ensures Apart(items[i])
      {
        DecodableIsApart(items[i], levels - 1);
      }
    case Map(entries) =>
      forall k | k in entries
        ensures Apart(entries[k])
      {
        DecodableIsApart(entries[k], levels - 1);
      }
    case Tag(_, content) => DecodableIsApart(content, levels - 1);
    case _ =>
  }

  /** Whatever the order of its entries, a value without keys that stand for the same is read as itself. */
  lemma {:induction false} ReadAs(v: Value, x: Item)
    requires Ordered(v, x) && Apart(v)
    ensures ItemValue(x) == Normalized(v)
    decreases v, 1
  {
    hide PairsValue, Lists, OrderedPairs, KeysApart, KeyFor, NormalKeys;
    match v
    case Array(items) =>
      forall i | 0 <= i < |items|
        ensures ItemValue(x.items[i]) == Normalized(items[i])
      {
        ReadAs(items[i], x.items[i]);
      }
    case Map(entries) =>
      var order :| Lists(order, entries.Keys) && OrderedPairs(v, order, x.pairs);
      MapReadAs(v, order, x.pairs);
    case Tag(_, content) => ReadAs(content, x.content);
    case _ =>
  }

  lemma {:induction false} MapReadAs(v: Value, order: seq<Key>, pairs: seq<Pair>)
    requires v.Map? && Apart(v) && Lists(order, v.entries.Keys) && OrderedPairs(v, order, pairs)
    ensures PairsValue(pairs) == Normalized(v).entries
    decreases v, 0
  {
    hide NormalKey, ItemKey, KeyItem, Ascending, Ordered, PairsValue, ItemValue, Normalized;
    var keys := v.entries.Keys;
    forall i | 0 <= i < |order|
      ensures order[i] in v.entries && ItemKey(pairs[i].key) == NormalKey(order[i])
      ensures ItemValue(pairs[i].item) == Normalized(v.entries[order[i]])
    {
      assert OrderedPair(v, order[i], pairs[i]);
      ItemKeyIs(order[i]);
      ReadAs(v.entries[order[i]], pairs[i].item);
    }
    forall i, j | 0 <= i < j < |pairs|
      ensures ItemKey(pairs[i].key) != ItemKey(pairs[j].key)
    {
      assert order[i] in keys && order[j] in keys;
    }
    ValueAt(pairs);
    NormalizedAt(v);
    SameEntries(v, order, pairs);
  }

  lemma SameEntries(v: Value, order: seq<Key>, pairs: seq<Pair>)
    requires v.Map? && |pairs| == |order| && Normalized(v).Map? && forall k :: k in order <==> k in v.entries
    requires forall i :: 0 <= i < |order| ==>
               order[i] in v.entries && ItemKey(pairs[i].key) == NormalKey(order[i])
               && ItemValue(pairs[i].item) == Normalized(v.entries[order[i]])
    requires forall k :: k in PairsValue(pairs) ==> exists i :: 0 <= i < |pairs| && ItemKey(pairs[i].key) == k
    requires forall i :: 0 <= i < |pairs| ==>
               ItemKey(pairs[i].key) in PairsValue(pairs)
               && PairsValue(pairs)[ItemKey(pairs[i].key)] == ItemValue(pairs[i].item)
    requires forall k :: k in Normalized(v).entries ==> exists j :: j in v.entries && NormalKey(j) == k
    requires forall j :: j in v.entries ==>
               NormalKey(j) in Normalized(v).entries && Normalized(v).entries[NormalKey(j)] == Normalized(v.entries[j])
    ensures PairsValue(pairs) == Normalized(v).entries
  {
    hide NormalKey, ItemKey, PairsValue, ItemValue, Normalized;
    var read, expected := PairsValue(pairs), Normalized(v).entries;
    forall k | k in read
      ensures k in expected && read[k] == expected[k]
    {
      var i :| 0 <= i < |pairs| && ItemKey(pairs[i].key) == k;
      assert order[i] in v.entries;
    }
    forall k | k in expected
      ensures k in read
    {
      var j :| j in v.entries && NormalKey(j) == k;
      assert j in order;
      var i :| 0 <= i < |order| && order[i] == j;
      assert ItemKey(pairs[i].key) == k;
    }
  }

  /** Entries with different keys are all there. */
  lemma {:induction false} ValueAt(pairs: seq<Pair>)
    requires forall i, j :: 0 <= i < j < |pairs| ==> ItemKey(pairs[i].key) != ItemKey(pairs[j].key)
    ensures forall k :: k in PairsValue(pairs) ==> exists i :: 0 <= i < |pairs| && ItemKey(pairs[i].key) == k
    ensures forall i :: 0 <= i < |pairs| ==>
              ItemKey(pairs[i].key) in PairsValue(pairs)
              && PairsValue(pairs)[ItemKey(pairs[i].key)] == ItemValue(pairs[i].item)
  {
    hide ItemKey, ItemValue;
    if pairs != [] {
      var front, n := pairs[..|pairs| - 1], |pairs| - 1;
      assert forall i :: 0 <= i < n ==> front[i] == pairs[i];
      ValueAt(front);
      forall k | k in PairsValue(pairs)
        ensures exists i :: 0 <= i < |pairs| && ItemKey(pairs[i].key) == k
      {
        if k in PairsValue(front) {
          var i :| 0 <= i < |front| && ItemKey(front[i].key) == k;
          assert ItemKey(pairs[i].key) == k;
        } else {
          assert ItemKey(pairs[n].key) == k;
        }
      }
    }
  }

  lemma NormalizedAt(v: Value)
    requires v.Map? && KeysApart(v.entries.Keys)
    ensures Normalized(v).Map?
    ensures forall k :: k in Normalized(v).entries ==> exists j :: j in v.entries && NormalKey(j) == k
    ensures forall j :: j in v.entries ==>
              NormalKey(j) in Normalized(v).entries && Normalized(v).entries[NormalKey(j)] == Normalized(v.entries[j])
  {
    hide NormalKey, KeyFor;
    var keys, entries := v.entries.Keys, Normalized(v).entries;
    assert entries.Keys == NormalKeys(keys);
    forall j | j in v.entries
      ensures NormalKey(j) in entries && entries[NormalKey(j)] == Normalized(v.entries[j])
    {
      assert j in keys && NormalKey(j) in NormalKeys(keys);
      assert KeyFor(keys, NormalKey(j)) == j;
    }
  }

  /** An encoded value is read back, whatever follows it, exactly when the
      decoder takes such a value; in whatever order its entries were met. */
  lemma RoundTripIff(v: Value, x: Item, rest: Bytes)
    requires Sized(v) && Ordered(v, x)
    ensures var r := Decoding(Encoding(x) + rest, 0, 0);
            if Decodable(v, MAX_DEPTH) then r.value == Some(Normalized(v)) && (Encoding(x) + rest)[r.offset..] == rest
            else r.value == None
  {
    hide Encoding, Decoding, Decodable, Normalized, Readable, Ordered, Fits, Sized, ItemValue;
    var data := Encoding(x) + rest;
    assert At(data, 0, Encoding(x));
    OrderedFits(v, x);
    Exact(x, data, 0, 0);
    ReadableIff(v, x, MAX_DEPTH);
    if Decodable(v, MAX_DEPTH) {
      DecodableIsApart(v, MAX_DEPTH);
      ReadAs(v, x);
    }
  }

  /** No encoding of a value begins an encoding of one that reads differently. */
  lemma ValuesPrefixFree(v: Value, x: Item, w: Value, y: Item)
    requires Sized(v) && Sized(w) && Ordered(v, x) && Ordered(w, y)
    requires Encoding(x) <= Encoding(y)
    ensures Encoding(x) == Encoding(y)
    ensures Apart(v) && Apart(w) ==> Normalized(v) == Normalized(w)
  {
    hide *;
    OrderedFits(v, x);
    OrderedFits(w, y);
    PrefixFree(x, y);
    if Apart(v) && Apart(w) {
      ReadAs(v, x);
      ReadAs(w, y);
    }
  }

  /** The signed one and the unsigned one in one map are written in two ways, and the decoder refuses both. */
  lemma TwoOnesAreRefused(x: Item)
    requires Ordered(TwoOnes(), x)
    ensures DecodedValue(Encoding(x)) == None
  {
    hide Encoding, Decoding, Decodable, Ordered, Readable, Normalized;
    RoundTripIff(TwoOnes(), x, []);
    assert Encoding(x) + [] == Encoding(x);
    TwoOnesShareAKey();
  }

  lemma TwoOnesShareAKey()
    ensures !Decodable(TwoOnes(), MAX_DEPTH) && Sized(TwoOnes())
  {
    var keys := TwoOnes().entries.Keys;
    assert Int64Key(1) in keys && Uint64Key(1) in keys && NormalKey(Int64Key(1)) == NormalKey(Uint64Key(1));
    assert !KeysApart(keys);
  }

  // ----- what is accepted -----

  /** The encoding of a value; of one without keys that stand for the same, the only one. */
  ghost function EncodingOf(v: Value): Bytes {
    Encoding(ItemOf(v))
  }

  /** A value as the decoder returns it, at a number of levels from its depth limit. */
  ghost predicate Returned(v: Value, levels: int) {
    Sized(v) && Supported(v) && Decodable(v, levels) && Normalized(v) == v
  }

  ghost function ItemsSize(items: seq<Value>): nat {
    if items == [] then 0 else ItemsSize(items[..|items| - 1]) + |EncodingOf(items[|items| - 1])|
  }

  lemma {:induction false} ItemsEncodingSize(items: seq<Item>, values: seq<Value>)
    requires |items| == |values| && forall i :: 0 <= i < |items| ==> items[i] == ItemOf(values[i])
    ensures |ItemsEncoding(items)| == ItemsSize(values)
  {
    hide Encoding, ItemOf;
    if items != [] {
      ItemsEncodingSize(items[..|items| - 1], values[..|items| - 1]);
    }
  }

  ghost function EntrySize(entries: map<Key, Value>, k: Key): nat
    requires k in entries
  {
    |KeyEncoding(k)| + |EncodingOf(entries[k])|
  }

  /** The size of some entries of a map. */
  ghost function EntriesSize(entries: map<Key, Value>, keys: seq<Key>): nat
    requires forall k :: k in keys ==> k in entries
  {
    if keys == [] then 0
    else EntriesSize(entries, keys[..|keys| - 1]) + EntrySize(entries, keys[|keys| - 1])
  }

  lemma {:induction false} PairsEncodingSize(v: Value, keys: seq<Key>)
    requires v.Map? && forall k :: k in keys ==> k in v.entries
    ensures |PairsEncoding(PairsOf(v, keys))| == EntriesSize(v.entries, keys)
  {
    hide Encoding, ItemOf, KeyItem;
    if keys != [] {
      var n := |keys| - 1;
      PairsEncodingSize(v, keys[..n]);
      PairsAt(v, keys, n);
      assert PairsOf(v, keys)[..n] == PairsOf(v, keys[..n]);
    }
  }

  lemma {:induction false} EntriesSizeFrame(entries: map<Key, Value>, more: map<Key, Value>, keys: seq<Key>)
    requires forall k :: k in keys ==> k in entries && k in more && entries[k] == more[k]
    ensures EntriesSize(entries, keys) == EntriesSize(more, keys)
  {
    hide EncodingOf, KeyEncoding;
    if keys != [] {
      EntriesSizeFrame(entries, more, keys[..|keys| - 1]);
    }
  }

  /** Leaving out one key leaves out its size. */
  lemma {:induction false} EntriesSizeWithout(entries: map<Key, Value>, keys: seq<Key>, i: nat)
    requires i < |keys| && forall k :: k in keys ==> k in entries
    ensures keys[i] in entries && forall k :: k in Without(keys, i) ==> k in entries
    ensures EntriesSize(entries, keys) == EntriesSize(entries, Without(keys, i)) + EntrySize(entries, keys[i])
  {
    hide EntrySize;
    var without, last := Without(keys, i), |keys| - 1;
    forall k | k in without
      ensures k in keys
    {
    }
    if i < last {
      var front := keys[..last];
      assert without[..last - 1] == Without(front, i) && without[last - 1] == keys[last];
      EntriesSizeWithout(entries, front, i);
    } else {
      assert without == keys[..last];
    }
  }

  /** The size of all entries is the same in every order. */
  lemma {:induction false} AnyOrderSize(entries: map<Key, Value>, a: seq<Key>, b: seq<Key>)
    requires (forall k :: k in a ==> k in entries) && (forall k :: k in b ==> k in entries)
    requires NoKeyTwice(a) && NoKeyTwice(b) && SameKeys(a, b)
    ensures EntriesSize(entries, a) == EntriesSize(entries, b)
  {
    hide EntrySize;
    assert |b| > 0 ==> b[0] in b;
    if a != [] {
      var last := |a| - 1;
      assert a[last] in b;
      var i :| 0 <= i < |b| && b[i] == a[last];
      EntriesSizeWithout(entries, b, i);
      WithoutKey(a, last);
      WithoutKey(b, i);
      assert Without(a, last) == a[..last];
      AnyOrderSize(entries, a[..last], Without(b, i));
    }
  }

  /** What is accepted is a value the decoder takes again, and no shorter than its encoding. */
  lemma {:induction false} Accepted(data: Bytes, offset: nat, depth: nat)
    requires |data| < TWO_63 && offset <= |data| && depth <= MAX_DEPTH + 1 && Decoding(data, offset, depth).value.Some?
    ensures var r := Decoding(data, offset, depth);
            Returned(r.value.value, MAX_DEPTH - depth) && |EncodingOf(r.value.value)| <= r.offset - offset
    decreases MAX_DEPTH + 1 - depth, 0
  {
    var head := ReadHead(data, offset).head.value;
    if head.major == 4 {
      ArrayAccepted(data, offset, depth);
    } else if head.major == 5 {
      MapAccepted(data, offset, depth);
    } else if head.major == 6 {
      TagAccepted(data, offset, depth);
    } else {
      ScalarAccepted(data, offset, depth);
    }
  }

  lemma ScalarAccepted(data: Bytes, offset: nat, depth: nat)
    requires |data| < TWO_63 && offset <= |data| && depth <= MAX_DEPTH && Decoding(data, offset, depth).value.Some?
    requires ReadHead(data, offset).head.value.major !in {4, 5, 6}
    ensures var r := Decoding(data, offset, depth);
            Returned(r.value.value, MAX_DEPTH - depth) && |EncodingOf(r.value.value)| <= r.offset - offset
  {
    hide Head, Encoding, ReadHead, ValidText, Items, Entries;
    HeadIsShortest(data, offset);
    EncodingParts(ItemOf(Decoding(data, offset, depth).value.value));
  }

  lemma {:induction false} TagAccepted(data: Bytes, offset: nat, depth: nat)
    requires |data| < TWO_63 && offset <= |data| && depth <= MAX_DEPTH && Decoding(data, offset, depth).value.Some?
    requires ReadHead(data, offset).head.value.major == 6
    ensures var r := Decoding(data, offset, depth);
            Returned(r.value.value, MAX_DEPTH - depth) && |EncodingOf(r.value.value)| <= r.offset - offset
    decreases MAX_DEPTH + 1 - depth, 0, 0
  {
    hide Head, Encoding, ReadHead, ValidText, Items, Entries;
    HeadIsShortest(data, offset);
    Accepted(data, ReadHead(data, offset).next, depth + 1);
    EncodingParts(ItemOf(Decoding(data, offset, depth).value.value));
  }

  lemma ReturnedArray(items: seq<Value>, levels: nat)
    requires |items| < TWO_63 && forall i :: 0 <= i < |items| ==> Returned(items[i], levels - 1)
    ensures Returned(Array(items), levels)
    ensures |EncodingOf(Array(items))| == |Head(4, |items|)| + ItemsSize(items)
  {
    hide Head, ItemsEncoding, ItemsSize, Encoding;
    var x := ItemOf(Array(items));
    EncodingParts(x);
    ItemsEncodingSize(x.items, items);
    assert Normalized(Array(items)).items == items;
  }

  lemma {:induction false} ArrayAccepted(data: Bytes, offset: nat, depth: nat)
    requires |data| < TWO_63 && offset <= |data| && depth <= MAX_DEPTH && Decoding(data, offset, depth).value.Some?
    requires ReadHead(data, offset).head.value.major == 4
    ensures var r := Decoding(data, offset, depth);
            Returned(r.value.value, MAX_DEPTH - depth) && |EncodingOf(r.value.value)| <= r.offset - offset
    decreases MAX_DEPTH + 1 - depth, 0, 0
  {
    hide Head, ReadHead, ValidText, Items, Entries, Returned, EncodingOf, ItemsSize;
    HeadIsShortest(data, offset);
    var read := ReadHead(data, offset);
    ItemsAccepted(data, read.next, depth + 1, read.head.value.argument);
    ReturnedArray(Decoding(data, offset, depth).value.value.items, MAX_DEPTH - depth);
  }

  lemma {:induction false} ItemsAccepted(data: Bytes, offset: nat, depth: nat, count: nat)
    requires |data| < TWO_63 && offset <= |data| && depth <= MAX_DEPTH + 1 && Items(data, offset, depth, count).ok
    ensures var r := Items(data, offset, depth, count);
            && (forall i :: 0 <= i < count ==> Returned(r.items[i], MAX_DEPTH - depth))
            && ItemsSize(r.items) <= r.offset - offset
    decreases MAX_DEPTH + 1 - depth, 1, count
  {
    hide Decoding, Returned, EncodingOf, ItemsSize;
    if count == 0 {
      NoSize();
    } else {
      ItemsAccepted(data, offset, depth, count - 1);
      var before := Items(data, offset, depth, count - 1);
      Accepted(data, before.offset, depth);
      OneItemMore(before.items, Decoding(data, before.offset, depth).value.value);
    }
  }

  lemma NoSize()
    ensures ItemsSize([]) == 0
  {
  }

  lemma OneItemMore(before: seq<Value>, item: Value)
    ensures ItemsSize(before + [item]) == ItemsSize(before) + |EncodingOf(item)|
  {
    hide EncodingOf;
    assert (before + [item])[..|before|] == before;
  }

  /** A key of a map as the decoder returns it. */
  ghost predicate KeyReturned(k: Key) {
    (k.Int64Key? || k.TextKey?) && KeySized(k) && ValidKey(k)
  }

  ghost predicate EntryReturned(entries: map<Key, Value>, k: Key, levels: int) {
    k in entries && levels >= 0 && KeyReturned(k) && Returned(entries[k], levels)
  }

  lemma ReturnedMap(entries: map<Key, Value>, keys: seq<Key>, levels: nat)
    requires |entries| < TWO_63 && forall k :: k in entries ==> EntryReturned(entries, k, levels - 1)
    requires NoKeyTwice(keys) && forall k :: k in keys <==> k in entries
    ensures Returned(Map(entries), levels)
    ensures |EncodingOf(Map(entries))| == |Head(5, |entries|)| + EntriesSize(entries, keys)
  {
    hide Head, PairsEncoding, Encoding, EntriesSize, SortedKeys, Ascending, NoKeyTwice, ValidText, Normalized, PairsOf;
    var v, sorted := Map(entries), SortedKeys(entries.Keys);
    SortedKeysAscend(entries.Keys);
    AnyOrderSize(entries, keys, sorted);
    PairsEncodingSize(v, sorted);
    assert |entries| == |entries.Keys| == |sorted|;
    ItemOfMap(v);
    EncodingParts(ItemOf(v));
    NormalizedAlready(v);
  }

  lemma NormalizedAlready(v: Value)
    requires v.Map? && forall k :: k in v.entries ==> NormalKey(k) == k && Normalized(v.entries[k]) == v.entries[k]
    ensures Normalized(v) == v
  {
    hide NormalKey;
    NormalizedAt(v);
    var entries := Normalized(v).entries;
    forall k | k in entries
      ensures k in v.entries && entries[k] == v.entries[k]
    {
    }
    assert forall k :: k in v.entries ==> k in entries;
    assert entries == v.entries;
  }

  lemma {:induction false} MapAccepted(data: Bytes, offset: nat, depth: nat)
    requires |data| < TWO_63 && offset <= |data| && depth <= MAX_DEPTH && Decoding(data, offset, depth).value.Some?
    requires ReadHead(data, offset).head.value.major == 5
    ensures var r := Decoding(data, offset, depth);
            Returned(r.value.value, MAX_DEPTH - depth) && |EncodingOf(r.value.value)| <= r.offset - offset
    decreases MAX_DEPTH + 1 - depth, 0, 0
  {
    hide Head, ReadHead, ValidText, Items, Entries, EntriesSize, NoKeyTwice, Returned, EntryReturned, EncodingOf;
    HeadIsShortest(data, offset);
    var read := ReadHead(data, offset);
    var keys := EntriesAccepted(data, read.next, depth + 1, read.head.value.argument);
    ReturnedMap(Decoding(data, offset, depth).value.value.entries, keys, MAX_DEPTH - depth);
  }

  lemma {:induction false} EntriesAccepted(data: Bytes, offset: nat, depth: nat, count: nat) returns (keys: seq<Key>)
    requires |data| < TWO_63 && offset <= |data| && depth <= MAX_DEPTH + 1 && Entries(data, offset, depth, count).ok
    ensures var r := Entries(data, offset, depth, count);
            && NoKeyTwice(keys) && (forall k :: k in keys <==> k in r.entries)
            && (forall k :: k in r.entries ==> EntryReturned(r.entries, k, MAX_DEPTH - depth))
            && EntriesSize(r.entries, keys) <= r.offset - offset
    decreases MAX_DEPTH + 1 - depth, 1, count
  {
    keys := [];
    if count > 0 {
      hide EntryAfter, EntryReturned, EntriesSize, NoKeyTwice;
      keys := EntriesAccepted(data, offset, depth, count - 1);
      keys := EntryAccepted(data, Entries(data, offset, depth, count - 1), depth, keys);
    }
  }

  lemma {:induction false} EntryAccepted(data: Bytes, before: EntriesOutcome, depth: nat, keys: seq<Key>)
    returns (more: seq<Key>)
    requires |data| < TWO_63 && before.offset <= |data| && depth <= MAX_DEPTH + 1 && EntryAfter(data, before, depth).ok
    requires NoKeyTwice(keys) && forall k :: k in keys <==> k in before.entries
    requires forall k :: k in before.entries ==> EntryReturned(before.entries, k, MAX_DEPTH - depth)
    ensures var r := EntryAfter(data, before, depth);
            && NoKeyTwice(more) && (forall k :: k in more <==> k in r.entries)
            && (forall k :: k in r.entries ==> EntryReturned(r.entries, k, MAX_DEPTH - depth))
            && EntriesSize(r.entries, more) <= EntriesSize(before.entries, keys) + r.offset - before.offset
    decreases MAX_DEPTH + 1 - depth, 1, 0
  {
    hide Decoding, Returned, EncodingOf, KeyReturned, KeyEncoding, NoKeyTwice, EntryReturned, EntriesSize, AsKey;
    var key := Decoding(data, before.offset, depth);
    Accepted(data, before.offset, depth);
    Accepted(data, key.offset, depth);
    KeyAccepted(data, before.offset, depth);
    var k := AsKey(key.value.value).value;
    var item := Decoding(data, key.offset, depth).value.value;
    more := keys + [k];
    OneEntryMore(before.entries, k, item, keys, MAX_DEPTH - depth);
  }

  lemma OneEntryMore(before: map<Key, Value>, k: Key, item: Value, keys: seq<Key>, levels: int)
    requires NoKeyTwice(keys) && (forall j :: j in keys <==> j in before) && k !in before
    requires forall j :: j in before ==> EntryReturned(before, j, levels)
    requires levels >= 0 && KeyReturned(k) && Returned(item, levels)
    ensures var entries, more := before[k := item], keys + [k];
            && NoKeyTwice(more) && (forall j :: j in more <==> j in entries)
            && (forall j :: j in entries ==> EntryReturned(entries, j, levels))
            && EntriesSize(entries, more) == EntriesSize(before, keys) + |KeyEncoding(k)| + |EncodingOf(item)|
  {
    hide Returned, EncodingOf, KeyReturned, KeyEncoding;
    var entries, more := before[k := item], keys + [k];
    EntriesSizeFrame(before, entries, keys);
    assert more[..|keys|] == keys;
    forall j | j in entries
      ensures EntryReturned(entries, j, levels)
    {
      assert j == k || EntryReturned(before, j, levels);
    }
  }

  lemma KeyAccepted(data: Bytes, offset: nat, depth: nat)
    requires |data| < TWO_63 && offset <= |data| && depth <= MAX_DEPTH + 1
    requires var r := Decoding(data, offset, depth);
             r.value.Some? && Returned(r.value.value, MAX_DEPTH - depth) && AsKey(r.value.value).Some?
    ensures var v := Decoding(data, offset, depth).value.value; var k := AsKey(v).value;
            depth <= MAX_DEPTH && KeyReturned(k) && KeyEncoding(k) == EncodingOf(v)
  {
    hide ReadHead, ValidText, Head, Items, Entries;
  }

  /** Encoding what was accepted gives bytes that decode to the same value, and
      no more of them; in whatever order its entries are met. */
  lemma ReencodingReadsBack(data: Bytes, x: Item)
    requires |data| < TWO_63 && DecodedValue(data).Some? && Ordered(DecodedValue(data).value, x)
    ensures DecodedValue(Encoding(x)) == DecodedValue(data) && |Encoding(x)| <= |data|
    ensures Encoding(x) == EncodingOf(DecodedValue(data).value)
  {
    hide Decoding, Encoding, Decodable, Normalized, Sized, Supported, Ordered, ItemOf, Unambiguous;
    Accepted(data, 0, 0);
    var v := DecodedValue(data).value;
    RoundTripIff(v, x, []);
    assert Encoding(x) + [] == Encoding(x);
    DecodableIsApart(v, MAX_DEPTH);
    ApartIsUnambiguous(v);
    OneItem(v, x);
  }
}
