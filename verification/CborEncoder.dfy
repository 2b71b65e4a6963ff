/** The encoder of pkg/cbor/cbor.go:34-158: bytes appended to a buffer. */
module CborEncoder {
  import opened Wrappers
  import opened ByteOrder
  import opened Utf8
  import opened CborValues
  import opened CborDecoding
  import opened CborItems
  import opened CborOrders

  class Buffer {
    var data: Bytes

    constructor ()
      ensures data == []
    {
      data := [];
    }

    method WriteByte(b: Byte)
      modifies this
      ensures data == old(data) + [b]
    {
      data := data + [b];
    }

    method Write(bytes: Bytes)
      modifies this
      ensures data == old(data) + bytes
    {
      data := data + bytes;
    }
  }

  // ----- heads -----

  /** The low bytes of an argument, from the most significant. */
  method WriteBytes(buffer: Buffer, argument: nat, size: nat)
    modifies buffer
    ensures buffer.data == old(buffer.data) + BigEndian(argument, size)
  {
    ghost var all := BigEndian(argument, size);
    var left := size;
    while left > 0
      invariant 0 <= left <= size
      invariant buffer.data == old(buffer.data) + all[..size - left]
    {
      left := left - 1;
      BigEndianAt(argument, size, size - 1 - left);
      buffer.WriteByte(Shifted(argument, left) % 256);
    }
  }

  method WriteTypeAndArgument(buffer: Buffer, major: Major, argument: Uint64)
    modifies buffer
    ensures buffer.data == old(buffer.data) + Head(major, argument)
  {
    hide BigEndian;
    if argument < 24 {
      buffer.WriteByte(major * 32 + argument);
    } else if argument <= 0xff {
      buffer.WriteByte(major * 32 + 24);
      WriteBytes(buffer, argument, 1);
    } else if argument <= 0xffff {
      buffer.WriteByte(major * 32 + 25);
      WriteBytes(buffer, argument, 2);
    } else if argument <= 0xffff_ffff {
      buffer.WriteByte(major * 32 + 26);
      WriteBytes(buffer, argument, 4);
    } else {
      buffer.WriteByte(major * 32 + 27);
      WriteBytes(buffer, argument, 8);
    }
  }

  method EncodeInt64(buffer: Buffer, value: Int64)
    modifies buffer
    ensures buffer.data == old(buffer.data) + Encoding(Numeral(value))
  {
    hide Head;
    if value >= 0 {
      WriteTypeAndArgument(buffer, 0, value);
    } else {
      WriteTypeAndArgument(buffer, 1, -1 - value);
    }
  }

  // ----- keys -----

  /** Encode, for the key of a map. */
  method EncodeKey(key: Key) returns (data: Option<Bytes>)
    requires KeySized(key)
    ensures data == if KeySupported(key) then Some(KeyEncoding(key)) else None
  {
    var buffer := new Buffer();
    var ok := EncodeKeyValue(buffer, key);
    if !ok {
      return None;
    }
    assert buffer.data == KeyEncoding(key);
    return Some(buffer.data);
  }

  method EncodeKeyValue(buffer: Buffer, key: Key) returns (ok: bool)
    requires KeySized(key)
    modifies buffer
    ensures ok <==> KeySupported(key)
    ensures ok ==> buffer.data == old(buffer.data) + KeyEncoding(key)
    decreases key
  {
    hide Head, Encoding;
    ok := true;
    match key
    case NullKey =>
      WriteSimple(buffer, 22);
    case UndefinedKey =>
      WriteSimple(buffer, 23);
    case BooleanKey(b) =>
      WriteSimple(buffer, if b then 21 else 20);
    case IntKey(n) => EncodeInt64(buffer, n);
    case Int64Key(n) => EncodeInt64(buffer, n);
    case Uint64Key(u) =>
      WriteTypeAndArgument(buffer, 0, u);
      EncodingParts(KeyItem(key));
    case TextKey(bytes) =>
      WriteString(buffer, Letters(bytes));
    case TagKey(number, content) =>
      WriteTypeAndArgument(buffer, 6, number);
      ok := EncodeKeyValue(buffer, content);
      EncodingParts(KeyItem(key));
    case OtherKey => ok := false;
  }

  /** A byte string or a text. */
  method WriteString(buffer: Buffer, x: Item)
    requires (x.Octets? || x.Letters?) && |x.bytes| < TWO_64
    modifies buffer
    ensures buffer.data == old(buffer.data) + Encoding(x)
  {
    hide Head;
    WriteTypeAndArgument(buffer, if x.Octets? then 2 else 3, |x.bytes|);
    buffer.Write(x.bytes);
  }

  /** One byte: a simple value. */
  method WriteSimple(buffer: Buffer, code: SimpleCode)
    modifies buffer
    ensures buffer.data == old(buffer.data) + Encoding(Simple(code))
  {
    buffer.WriteByte(0xe0 + code);
  }

  // ----- the order of a map -----

  datatype EncodedEntry = EncodedEntry(key: Bytes, item: Bytes)

  ghost predicate Sorted(entries: seq<EncodedEntry>) {
    forall i, j :: 0 <= i < j < |entries| ==> !Below(entries[j].key, entries[i].key)
  }

  /** Every place once. */
  ghost predicate Permutes(places: seq<nat>, n: nat) {
    && |places| == n && (forall i :: 0 <= i < n ==> places[i] < n)
    && (forall i, j :: 0 <= i < j < n ==> places[i] != places[j]) && forall k: nat :: k < n ==> k in places
  }

  /** The entries in ascending order of their keys' bytes, and the place each had. */
  method Sort(entries: seq<EncodedEntry>) returns (sorted: seq<EncodedEntry>, ghost places: seq<nat>)
    ensures Sorted(sorted) && |sorted| == |entries| && Permutes(places, |entries|)
    ensures forall i :: 0 <= i < |entries| ==> sorted[i] == entries[places[i]]
  {
    hide Below;
    sorted, places := [], [];
    for n := 0 to |entries|
      invariant Sorted(sorted) && |sorted| == n && Permutes(places, n)
      invariant forall i :: 0 <= i < n ==> sorted[i] == entries[places[i]]
    {
      ghost var place;
      ghost var before := places;
      sorted, place := Insert(sorted, entries[n]);
      places := before[..place] + [n] + before[place..];
      InsertedPlace(before, n, place);
    }
  }

  lemma InsertedPlace(places: seq<nat>, n: nat, place: nat)
    requires Permutes(places, n) && place <= n
    ensures Permutes(places[..place] + [n] + places[place..], n + 1)
  {
    var more := places[..place] + [n] + places[place..];
    forall k: nat | k < n + 1
      ensures k in more
    {
      if k == n {
        assert more[place] == n;
      } else {
        assert k in places;
        var i :| 0 <= i < n && places[i] == k;
        assert more[if i < place then i else i + 1] == k;
      }
    }
  }

  method Insert(entries: seq<EncodedEntry>, e: EncodedEntry) returns (more: seq<EncodedEntry>, ghost at: nat)
    requires Sorted(entries)
    ensures at <= |entries| && more == entries[..at] + [e] + entries[at..] && Sorted(more)
  {
    hide Below;
    var place := |entries|;
    while place > 0 && Below(e.key, entries[place - 1].key)
      invariant 0 <= place <= |entries|
      invariant forall i :: place <= i < |entries| ==> Below(e.key, entries[i].key)
    {
      place := place - 1;
    }
    forall i | place <= i < |entries|
      ensures !Below(entries[i].key, e.key)
    {
      BelowIsTotal(e.key, entries[i].key);
    }
    forall i | 0 <= i < place
      ensures !Below(e.key, entries[i].key)
    {
      if Below(e.key, entries[i].key) {
        NotAbove(e.key, entries[i].key, entries[place - 1].key);
      }
    }
    more, at := entries[..place] + [e] + entries[place..], place;
  }

  lemma NotAbove(a: Bytes, b: Bytes, c: Bytes)
    requires Below(a, b) && !Below(c, b)
    ensures Below(a, c)
  {
    BelowIsTotal(b, c);
    if Below(b, c) {
      BelowIsTransitive(a, b, c);
    }
  }

  // ----- values -----

  method EncodeValue(buffer: Buffer, v: Value) returns (ok: bool, ghost x: Item)
    requires Sized(v)
    modifies buffer
    ensures ok <==> Supported(v)
    ensures ok ==> Ordered(v, x) && buffer.data == old(buffer.data) + Encoding(x)
    decreases v, 1
  {
    hide Head, ItemsEncoding, PairsEncoding, Encoding;
    ok, x := true, ItemOf(v);
    match v
    case Null => WriteSimple(buffer, 22);
    case Undefined => WriteSimple(buffer, 23);
    case Boolean(b) => WriteSimple(buffer, if b then 21 else 20);
    case Integer(n) => EncodeInt64(buffer, n);
    case Unsigned(u) =>
      WriteTypeAndArgument(buffer, 0, u);
      EncodingParts(x);
    case ByteString(b) => WriteString(buffer, Octets(b));
    case Text(b) => WriteString(buffer, Letters(b));
    case Array(items) =>
      WriteTypeAndArgument(buffer, 4, |items|);
      ghost var written;
      ok, written := EncodeItems(buffer, v);
      x := List(written);
      EncodingParts(x);
    case Map(entries) => ok, x := EncodeMap(buffer, v);
    case Tag(number, content) =>
      WriteTypeAndArgument(buffer, 6, number);
      ghost var written;
      ok, written := EncodeValue(buffer, content);
      x := Tagged(number, written);
      EncodingParts(x);
    case Other => ok := false;
  }

  method EncodeItems(buffer: Buffer, v: Value) returns (ok: bool, ghost written: seq<Item>)
    requires v.Array? && Sized(v)
    modifies buffer
    ensures ok <==> Supported(v)
    ensures ok ==> |written| == |v.items| && forall i :: 0 <= i < |v.items| ==> Ordered(v.items[i], written[i])
    ensures ok ==> buffer.data == old(buffer.data) + ItemsEncoding(written)
    decreases v, 0
  {
    hide Encoding, Ordered;
    written := [];
    for n := 0 to |v.items|
      invariant |written| == n && forall i :: 0 <= i < n ==> Ordered(v.items[i], written[i]) && Supported(v.items[i])
      invariant buffer.data == old(buffer.data) + ItemsEncoding(written)
    {
      ghost var x;
      ok, x := EncodeValue(buffer, v.items[n]);
      if !ok {
        return;
      }
      assert (written + [x])[..n] == written;
      written := written + [x];
    }
    ok := true;
  }

  /** Meets the entries in any order. */
  method EncodeMap(buffer: Buffer, v: Value) returns (ok: bool, ghost x: Item)
    requires v.Map? && Sized(v)
    modifies buffer
    ensures ok <==> Supported(v)
    ensures ok ==> Ordered(v, x) && KeysAscend(x) && buffer.data == old(buffer.data) + Encoding(x)
    decreases v, 0
  {
    hide KeyEncoding, Encoding, Head, PairsEncoding, Below, Sorted, Supported, OrderedPair, Lists, Ordered, KeysAscend;
    var encodedEntries: seq<EncodedEntry>;
    ghost var order: seq<Key>;
    ghost var pairs: seq<Pair>;
    ghost var places: seq<nat>;
    encodedEntries, ok, order, pairs := EncodeEntries(v);
    x := Pairs(pairs);
    if !ok {
      return;
    }
    encodedEntries, places := Sort(encodedEntries);
    order, pairs := Rearranged(v, encodedEntries, order, pairs, places);
    x := Pairs(pairs);
    EntriesCount(v, order);
    WriteTypeAndArgument(buffer, 5, |encodedEntries|);
    WriteEntries(buffer, encodedEntries, pairs);
    WrittenPairs(v, order, pairs);
    OrderedKeysAscend(v, x);
  }

  lemma EntriesCount(v: Value, order: seq<Key>)
    requires v.Map? && Sized(v) && Lists(order, v.entries.Keys)
    ensures |order| == |v.entries| < TWO_63
  {
    ListsCount(order, v.entries.Keys);
    assert |v.entries| == |v.entries.Keys|;
  }

  lemma WrittenPairs(v: Value, order: seq<Key>, pairs: seq<Pair>)
    requires v.Map? && Lists(order, v.entries.Keys) && OrderedPairs(v, order, pairs) && |order| < TWO_64
    ensures Ordered(v, Pairs(pairs)) && Encoding(Pairs(pairs)) == Head(5, |pairs|) + PairsEncoding(pairs)
  {
    hide Head, PairsEncoding, OrderedPairs, Lists, Encoding, Ordered;
    EncodingParts(Pairs(pairs));
    SamePairsCount(v, order, pairs);
    PairsOrdered(v, order, pairs);
  }

  lemma PairsOrdered(v: Value, order: seq<Key>, pairs: seq<Pair>)
    requires v.Map? && Lists(order, v.entries.Keys) && OrderedPairs(v, order, pairs)
    ensures Ordered(v, Pairs(pairs))
  {
    hide OrderedPairs, Lists;
  }

  lemma SamePairsCount(v: Value, order: seq<Key>, pairs: seq<Pair>)
    requires v.Map? && OrderedPairs(v, order, pairs)
    ensures |order| == |pairs|
  {
  }

  /** The entries are the encodings of the pairs. */
  ghost predicate AreEncoded(entries: seq<EncodedEntry>, pairs: seq<Pair>) {
    && |entries| == |pairs|
    && forall i :: 0 <= i < |entries| ==>
         entries[i] == EncodedEntry(Encoding(pairs[i].key), Encoding(pairs[i].item))
  }

  /** The keys and pairs of the entries, in the order they were sorted in. */
  lemma Rearranged(v: Value, sorted: seq<EncodedEntry>, order: seq<Key>, pairs: seq<Pair>, places: seq<nat>)
    returns (order': seq<Key>, pairs': seq<Pair>)
    requires v.Map? && Lists(order, v.entries.Keys) && |order| == |pairs| == |sorted| && Permutes(places, |order|)
    requires Sorted(sorted) && forall i :: 0 <= i < |order| ==> OrderedPair(v, order[i], pairs[i])
    requires forall i :: 0 <= i < |sorted| ==>
               places[i] < |pairs|
               && sorted[i] == EncodedEntry(Encoding(pairs[places[i]].key), Encoding(pairs[places[i]].item))
    ensures Lists(order', v.entries.Keys) && OrderedPairs(v, order', pairs') && AreEncoded(sorted, pairs')
  {
    hide Below, Encoding, Ordered, KeyItem;
    var n := |order|;
    order' := seq(n, i requires 0 <= i < n => order[places[i]]);
    pairs' := seq(n, i requires 0 <= i < n => pairs[places[i]]);
    forall i | 0 <= i < n
      ensures OrderedPair(v, order'[i], pairs'[i]) && KeyEncoding(order'[i]) == sorted[i].key
    {
      assert OrderedPair(v, order[places[i]], pairs[places[i]]);
    }
    RearrangedKeys(order, order', places, v.entries.Keys);
  }

  lemma RearrangedKeys(order: seq<Key>, order': seq<Key>, places: seq<nat>, keys: set<Key>)
    requires Lists(order, keys) && |order'| == |order| && Permutes(places, |order|)
    requires forall i :: 0 <= i < |order| ==> order'[i] == order[places[i]]
    ensures Lists(order', keys)
  {
    forall k | k in keys
      ensures k in order'
    {
      assert k in order;
      var i :| 0 <= i < |order| && order[i] == k;
      assert i in places;
      var j :| 0 <= j < |places| && places[j] == i;
      assert order'[j] == k;
    }
    forall k | k in order'
      ensures k in keys
    {
      var i :| 0 <= i < |order'| && order'[i] == k;
      assert order[places[i]] in order;
    }
    forall i, j | 0 <= i < j < |order'|
      ensures order'[i] != order'[j]
    {
      assert places[i] != places[j];
    }
  }

  method WriteEntries(buffer: Buffer, entries: seq<EncodedEntry>, ghost pairs: seq<Pair>)
    requires AreEncoded(entries, pairs)
    modifies buffer
    ensures buffer.data == old(buffer.data) + PairsEncoding(pairs)
  {
    hide Encoding;
    for n := 0 to |entries|
      invariant buffer.data == old(buffer.data) + PairsEncoding(pairs[..n])
    {
      assert pairs[..n + 1][..n] == pairs[..n];
      buffer.Write(entries[n].key);
      buffer.Write(entries[n].item);
    }
    assert pairs[..|entries|] == pairs;
  }

  lemma EntriesOf(v: Value)
    requires v.Map? && Sized(v)
    ensures Supported(v) <==> forall k :: k in v.entries ==> KeySupported(k) && Supported(v.entries[k])
    ensures forall k :: k in v.entries ==> KeySized(k) && Sized(v.entries[k])
  {
  }

  /** Encodes the entries in the order they happen to come. */
  method EncodeEntries(v: Value)
    returns (encodedEntries: seq<EncodedEntry>, ok: bool, ghost order: seq<Key>, ghost pairs: seq<Pair>)
    requires v.Map? && Sized(v)
    ensures ok <==> Supported(v)
    ensures ok ==> Lists(order, v.entries.Keys) && |order| == |pairs| && AreEncoded(encodedEntries, pairs)
    ensures ok ==> forall i :: 0 <= i < |order| ==> OrderedPair(v, order[i], pairs[i])
    decreases v, 0, 0
  {
    hide KeyItem, Encoding, Ordered, OrderedPair, AreEncoded, Lists, Supported, KeySupported, Sized, KeySized;
    EntriesOf(v);
    encodedEntries, order, pairs := [], [], [];
    var remaining := v.entries.Keys;
    NothingEncoded(v.entries.Keys - remaining);
    while remaining != {}
      invariant remaining <= v.entries.Keys && Lists(order, v.entries.Keys - remaining)
      invariant forall k :: k in v.entries && k !in remaining ==> KeySupported(k) && Supported(v.entries[k])
      invariant |order| == |pairs| && AreEncoded(encodedEntries, pairs)
      invariant forall i :: 0 <= i < |order| ==> OrderedPair(v, order[i], pairs[i])
      decreases remaining
    {
      var key :| key in remaining;
      var keyData := EncodeKey(key);
      if keyData.None? {
        ok := false;
        return;
      }
      var item := new Buffer();
      ghost var x;
      ok, x := EncodeValue(item, v.entries[key]);
      if !ok {
        return;
      }
      assert item.data == Encoding(x);
      OneMoreEncoded(v, encodedEntries, pairs, key, keyData.value, x);
      ghost var listed := v.entries.Keys - remaining;
      ListedKey(order, listed, key);
      remaining := remaining - {key};
      assert v.entries.Keys - remaining == listed + {key};
      encodedEntries := encodedEntries + [EncodedEntry(keyData.value, item.data)];
      order, pairs := order + [key], pairs + [Pair(KeyItem(key), x)];
    }
    assert v.entries.Keys - {} == v.entries.Keys;
    ok := true;
  }

  lemma NothingEncoded(keys: set<Key>)
    requires keys == {}
    ensures AreEncoded([], []) && Lists([], keys)
  {
  }

  lemma OneMoreEncoded(v: Value, entries: seq<EncodedEntry>, pairs: seq<Pair>, key: Key, keyData: Bytes, x: Item)
    requires v.Map? && key in v.entries && KeySupported(key) && Ordered(v.entries[key], x)
    requires AreEncoded(entries, pairs) && keyData == KeyEncoding(key)
    ensures AreEncoded(entries + [EncodedEntry(keyData, Encoding(x))], pairs + [Pair(KeyItem(key), x)])
    ensures OrderedPair(v, key, Pair(KeyItem(key), x))
  {
    hide Encoding, Ordered, KeyItem;
  }

  lemma ListedKey(order: seq<Key>, keys: set<Key>, key: Key)
    requires Lists(order, keys) && key !in keys
    ensures Lists(order + [key], keys + {key})
  {
    forall k | k in keys + {key}
      ensures k in order + [key]
    {
      assert k in order || k == (order + [key])[|order|];
    }
    forall i, j | 0 <= i < j < |order + [key]|
      ensures (order + [key])[i] != (order + [key])[j]
    {
      assert order[i] in order;
    }
  }

  /** Encode: an item that can be written for the value, unless a type in it is
      not known; the one item, if the value is unambiguous. */
  method Encode(v: Value) returns (data: Option<Bytes>)
    requires Sized(v)
    ensures data.Some? <==> Supported(v)
    ensures data.Some? ==> exists x :: Ordered(v, x) && KeysAscend(x) && data.value == Encoding(x)
    ensures data.Some? && Determined(v) ==> data.value == Encoding(ItemOf(v))
  {
    hide Encoding, Ordered, ItemOf, Unambiguous, Determined, KeysAscend;
    var buffer := new Buffer();
    var ok;
    ghost var x;
    ok, x := EncodeValue(buffer, v);
    if !ok {
      return None;
    }
    assert buffer.data == Encoding(x);
    OrderedKeysAscend(v, x);
    DeterminedIff(v);
    if Determined(v) {
      OneItem(v, x);
    }
    return Some(buffer.data);
  }
}
