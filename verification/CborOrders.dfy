/** Which data items the encoder of pkg/cbor/cbor.go can write for a value. It
    meets the entries of a map in any order, and sorts them by their keys' bytes
    alone, so that keys of the same bytes stay in the order they were met. */
module CborOrders {
  import opened Wrappers
  import opened ByteOrder
  import opened Utf8
  import opened CborValues
  import opened CborDecoding
  import opened CborItems

  // ----- keys -----

  /** What is written for a key. A key of another type is never written. */
  function KeyItem(k: Key): Item {
    match k
    case NullKey => Simple(22)
    case UndefinedKey => Simple(23)
    case BooleanKey(b) => Simple(if b then 21 else 20)
    case IntKey(n) => Numeral(n)
    case Int64Key(n) => Numeral(n)
    case Uint64Key(u) => Numeral(u)
    case TextKey(b) => Letters(b)
    case TagKey(number, content) => Tagged(number, KeyItem(content))
    case OtherKey => Simple(22)
  }

  function KeyEncoding(k: Key): Bytes {
    Encoding(KeyItem(k))
  }

  lemma {:induction false} KeyFits(k: Key)
    requires KeySized(k)
    ensures Fits(KeyItem(k))
  {
    if k.TagKey? {
      KeyFits(k.content);
    }
  }

  /** Keys have the same encoding exactly when they stand for the same. */
  lemma KeysShareEncodingIff(j: Key, k: Key)
    requires KeySized(j) && KeySized(k) && KeySupported(j) && KeySupported(k)
    ensures KeyEncoding(j) == KeyEncoding(k) <==> NormalKey(j) == NormalKey(k)
    ensures KeyEncoding(j) <= KeyEncoding(k) ==> NormalKey(j) == NormalKey(k)
  {
    hide KeyItem, NormalKey, Encoding;
    KeyFits(j);
    KeyFits(k);
    SameKeyItemIff(j, k);
    if KeyEncoding(j) <= KeyEncoding(k) {
      PrefixFree(KeyItem(j), KeyItem(k));
    }
  }

  lemma {:induction false} SameKeyItemIff(j: Key, k: Key)
    requires KeySupported(j) && KeySupported(k)
    ensures KeyItem(j) == KeyItem(k) <==> NormalKey(j) == NormalKey(k)
  {
    if j.TagKey? && k.TagKey? {
      SameKeyItemIff(j.content, k.content);
    }
  }

  // ----- the order of entries -----

  ghost predicate NoKeyTwice(keys: seq<Key>) {
    forall i, j :: 0 <= i < j < |keys| ==> keys[i] != keys[j]
  }

  /** Every key once. */
  ghost predicate Lists(order: seq<Key>, keys: set<Key>) {
    NoKeyTwice(order) && forall k :: k in order <==> k in keys
  }

  /** No key's bytes are above those of a later one. */
  ghost predicate Ascending(order: seq<Key>) {
    forall i, j :: 0 <= i < j < |order| ==> !Below(KeyEncoding(order[j]), KeyEncoding(order[i]))
  }

  /** A key that no other key is above. */
  ghost predicate Greatest(k: Key, keys: set<Key>) {
    k in keys && forall j :: j in keys ==> !Below(KeyEncoding(k), KeyEncoding(j))
  }

  lemma {:induction false} GreatestExists(keys: set<Key>)
    requires keys != {}
    ensures exists k :: Greatest(k, keys)
  {
    hide Below, KeyEncoding;
    var k :| k in keys;
    BelowIsTotal(KeyEncoding(k), KeyEncoding(k));
    if keys - {k} == {} {
      assert keys == {k};
      assert Greatest(k, keys);
    } else {
      GreatestExists(keys - {k});
      var g :| Greatest(g, keys - {k});
      BelowIsTotal(KeyEncoding(g), KeyEncoding(k));
      if Below(KeyEncoding(g), KeyEncoding(k)) {
        forall j | j in keys
          ensures !Below(KeyEncoding(k), KeyEncoding(j))
        {
          if j != k && Below(KeyEncoding(k), KeyEncoding(j)) {
            BelowIsTransitive(KeyEncoding(g), KeyEncoding(k), KeyEncoding(j));
          }
        }
        assert Greatest(k, keys);
      } else {
        assert Greatest(g, keys);
      }
    }
  }

  /** The keys in ascending order of their encodings; keys of the same encoding in some order. */
  ghost function SortedKeys(keys: set<Key>): (s: seq<Key>)
    ensures |s| == |keys| && forall k :: k in s <==> k in keys
  {
    if keys == {} then []
    else
      GreatestExists(keys);
      var k :| Greatest(k, keys);
      SortedKeys(keys - {k}) + [k]
  }

  lemma SortedKeysLast(keys: set<Key>) returns (k: Key)
    requires keys != {}
    ensures Greatest(k, keys) && SortedKeys(keys) == SortedKeys(keys - {k}) + [k]
  {
    hide Greatest;
    GreatestExists(keys);
    k := SortedKeys(keys)[|keys| - 1];
    assert SortedKeys(keys - {k}) == SortedKeys(keys)[..|keys| - 1];
  }

  lemma {:induction false} SortedKeysAscend(keys: set<Key>)
    ensures Ascending(SortedKeys(keys)) && Lists(SortedKeys(keys), keys)
  {
    hide KeyEncoding, Below, SortedKeys;
    if keys == {} {
      assert SortedKeys(keys) == [];
    } else {
      var k := SortedKeysLast(keys);
      var front := SortedKeys(keys - {k});
      SortedKeysAscend(keys - {k});
      forall i | 0 <= i < |front|
        ensures !Below(KeyEncoding(k), KeyEncoding(front[i])) && front[i] != k
      {
        assert front[i] in front;
      }
    }
  }

  // ----- what can be written -----

  /** The item can be written for the value. */
  ghost predicate Ordered(v: Value, x: Item)
    decreases v, 1
  {
    match v
    case Null => x == Simple(22)
    case Undefined => x == Simple(23)
    case Boolean(b) => x == Simple(if b then 21 else 20)
    case Integer(n) => x == Numeral(n)
    case Unsigned(u) => x == Numeral(u)
    case ByteString(b) => x == Octets(b)
    case Text(b) => x == Letters(b)
    case Array(items) =>
      x.List? && |x.items| == |items| && forall i :: 0 <= i < |items| ==> Ordered(items[i], x.items[i])
    case Map(entries) =>
      x.Pairs? && exists order: seq<Key> :: Lists(order, entries.Keys) && OrderedPairs(v, order, x.pairs)
    case Tag(number, content) => x.Tagged? && x.number == number && Ordered(content, x.content)
    case Other => false
  }

  /** The pairs are those of the keys in the order given, which ascends. */
  ghost predicate OrderedPairs(v: Value, order: seq<Key>, pairs: seq<Pair>)
    requires v.Map?
    decreases v, 0
  {
    && |pairs| == |order| && Ascending(order)
    && forall i :: 0 <= i < |order| ==> OrderedPair(v, order[i], pairs[i])
  }

  ghost predicate OrderedPair(v: Value, k: Key, p: Pair)
    requires v.Map?
    decreases v, 0, 0
  {
    k in v.entries && KeySupported(k) && p.key == KeyItem(k) && Ordered(v.entries[k], p.item)
  }

  /** In every map of an item, at any depth, the bytes of each key precede those of a later one or equal them. */
  ghost predicate KeysAscend(x: Item) {
    match x
    case List(items) => forall i :: 0 <= i < |items| ==> KeysAscend(items[i])
    case Pairs(pairs) =>
      && (forall i, j :: 0 <= i < j < |pairs| ==>
            Encoding(pairs[i].key) == Encoding(pairs[j].key)
            || Precedes(Encoding(pairs[i].key), Encoding(pairs[j].key)))
      && forall i :: 0 <= i < |pairs| ==> KeysAscend(pairs[i].item)
    case Tagged(_, content) => KeysAscend(content)
    case _ => true
  }

  /** The keys of what can be written ascend bytewise. */
  lemma {:induction false} OrderedKeysAscend(v: Value, x: Item)
    requires Ordered(v, x)
    ensures KeysAscend(x)
    decreases v
  {
    hide Encoding, Below, Precedes, Lists, Ascending;
    match v
    case Array(items) =>
      forall i | 0 <= i < |items|
        ensures KeysAscend(x.items[i])
      {
        OrderedKeysAscend(items[i], x.items[i]);
      }
    case Map(entries) =>
      var order :| Lists(order, entries.Keys) && OrderedPairs(v, order, x.pairs);
      forall i | 0 <= i < |order|
        ensures KeysAscend(x.pairs[i].item) && KeyEncoding(order[i]) == Encoding(x.pairs[i].key)
      {
        assert OrderedPair(v, order[i], x.pairs[i]);
        OrderedKeysAscend(entries[order[i]], x.pairs[i].item);
      }
      AscendingPrecedes(order);
    case Tag(_, content) => OrderedKeysAscend(content, x.content);
    case _ =>
  }

  lemma AscendingPrecedes(order: seq<Key>)
    requires Ascending(order)
    ensures forall i, j :: 0 <= i < j < |order| ==>
              KeyEncoding(order[i]) == KeyEncoding(order[j])
              || Precedes(KeyEncoding(order[i]), KeyEncoding(order[j]))
  {
    hide KeyEncoding, Below, Precedes;
    forall i, j | 0 <= i < j < |order|
      ensures KeyEncoding(order[i]) == KeyEncoding(order[j])
              || Precedes(KeyEncoding(order[i]), KeyEncoding(order[j]))
    {
      BelowIsTotal(KeyEncoding(order[i]), KeyEncoding(order[j]));
      BelowIff(KeyEncoding(order[i]), KeyEncoding(order[j]));
    }
  }

  /** One item that can be written. */
  ghost function ItemOf(v: Value): Item
    decreases v, 1
  {
    match v
    case Null => Simple(22)
    case Undefined => Simple(23)
    case Boolean(b) => Simple(if b then 21 else 20)
    case Integer(n) => Numeral(n)
    case Unsigned(u) => Numeral(u)
    case ByteString(b) => Octets(b)
    case Text(b) => Letters(b)
    case Array(items) => List(seq(|items|, i requires 0 <= i < |items| => ItemOf(items[i])))
    case Map(entries) => Pairs(PairsOf(v, SortedKeys(entries.Keys)))
    case Tag(number, content) => Tagged(number, ItemOf(content))
    case Other => Simple(22)
  }

  ghost function PairsOf(v: Value, order: seq<Key>): (pairs: seq<Pair>)
    requires v.Map? && forall k :: k in order ==> k in v.entries
    ensures |pairs| == |order|
    decreases v, 0
  {
    seq(|order|, i requires 0 <= i < |order| => assert order[i] in order; PairOf(v, order[i]))
  }

  ghost function PairOf(v: Value, k: Key): Pair
    requires v.Map? && k in v.entries
    decreases v, 0, 0
  {
    Pair(KeyItem(k), ItemOf(v.entries[k]))
  }

  lemma {:induction false} ItemOfIsOrdered(v: Value)
    requires Supported(v)
    ensures Ordered(v, ItemOf(v))
  {
    hide SortedKeys, Ascending;
    match v
    case Array(items) =>
      forall i | 0 <= i < |items|
        ensures Ordered(items[i], ItemOf(items[i]))
      {
        ItemOfIsOrdered(items[i]);
      }
    case Map(entries) =>
      var order := SortedKeys(entries.Keys);
      SortedKeysAscend(entries.Keys);
      forall i | 0 <= i < |order|
        ensures OrderedPair(v, order[i], PairsOf(v, order)[i])
      {
        assert order[i] in order;
        ItemOfIsOrdered(entries[order[i]]);
      }
      assert OrderedPairs(v, order, PairsOf(v, order));
    case Tag(_, content) => ItemOfIsOrdered(content);
    case _ =>
  }

  /** Something can be written exactly when the encoder knows every type. */
  lemma SupportedIff(v: Value)
    ensures Supported(v) <==> exists x :: Ordered(v, x)
  {
    if Supported(v) {
      ItemOfIsOrdered(v);
    } else if x :| Ordered(v, x) {
      OrderedIsSupported(v, x);
    }
  }

  lemma {:induction false} OrderedIsSupported(v: Value, x: Item)
    requires Ordered(v, x)
    ensures Supported(v)
  {
    match v
    case Array(items) =>
      forall i | 0 <= i < |items|
        ensures Supported(items[i])
      {
        OrderedIsSupported(items[i], x.items[i]);
      }
    case Map(entries) =>
      var order :| Lists(order, entries.Keys) && OrderedPairs(v, order, x.pairs);
      forall k | k in entries
        ensures KeySupported(k) && Supported(entries[k])
      {
        assert k in order;
        var i :| 0 <= i < |order| && order[i] == k;
        assert OrderedPair(v, order[i], x.pairs[i]);
        OrderedIsSupported(entries[k], x.pairs[i].item);
      }
    case Tag(_, content) => OrderedIsSupported(content, x.content);
    case _ =>
  }

  lemma {:induction false} OrderedFits(v: Value, x: Item)
    requires Ordered(v, x) && Sized(v)
    ensures Fits(x)
  {
    match v
    case Array(items) =>
      forall i | 0 <= i < |items|
        ensures Fits(x.items[i])
      {
        OrderedFits(items[i], x.items[i]);
      }
    case Map(entries) =>
      var order :| Lists(order, entries.Keys) && OrderedPairs(v, order, x.pairs);
      ListsCount(order, entries.Keys);
      assert |entries| == |entries.Keys|;
      forall i | 0 <= i < |x.pairs|
        ensures Fits(x.pairs[i].key) && Fits(x.pairs[i].item)
      {
        assert OrderedPair(v, order[i], x.pairs[i]);
        KeyFits(order[i]);
        OrderedFits(entries[order[i]], x.pairs[i].item);
      }
    case Tag(_, content) => OrderedFits(content, x.content);
    case _ =>
  }

  lemma {:induction false} ListsCount(order: seq<Key>, keys: set<Key>)
    requires Lists(order, keys)
    ensures |order| == |keys|
  {
    if order != [] {
      var front, last := order[..|order| - 1], order[|order| - 1];
      assert order == front + [last];
      forall k
        ensures k in front <==> k in keys - {last}
      {
        if k in keys - {last} {
          assert k in order;
        }
        if k in front {
          assert k in order;
        }
      }
      ListsCount(front, keys - {last});
    } else {
      assert forall k :: k in keys ==> k in order;
      assert keys == {};
    }
  }

  // ----- when the bytes are determined -----

  /** Wherever keys of a map have the same encoding, so have their entries. */
  ghost predicate Unambiguous(v: Value) {
    match v
    case Array(items) => forall i :: 0 <= i < |items| ==> Unambiguous(items[i])
    case Map(entries) => EntriesAgree(v) && forall k :: k in entries ==> Unambiguous(entries[k])
    case Tag(_, content) => Unambiguous(content)
    case _ => true
  }

  /** Keys that stand for the same have entries that are written the same. */
  ghost predicate EntriesAgree(v: Value)
    requires v.Map?
  {
    forall j, k :: j in v.entries && k in v.entries && NormalKey(j) == NormalKey(k) ==>
      ItemOf(v.entries[j]) == ItemOf(v.entries[k])
  }

  lemma {:induction false} ApartIsUnambiguous(v: Value)
    requires Apart(v)
    ensures Unambiguous(v)
  {
    hide ItemOf;
    match v
    case Array(items) =>
      forall i | 0 <= i < |items|
        ensures Unambiguous(items[i])
      {
        ApartIsUnambiguous(items[i]);
      }
    case Map(entries) =>
      forall k | k in entries
        ensures Unambiguous(entries[k])
      {
        ApartIsUnambiguous(entries[k]);
      }
    case Tag(_, content) => ApartIsUnambiguous(content);
    case _ =>
  }

  /** What is written for an unambiguous value is the same in every order. */
  lemma {:induction false} OneItem(v: Value, x: Item)
    requires Sized(v) && Unambiguous(v) && Ordered(v, x)
    ensures x == ItemOf(v)
    decreases v, 2
  {
    hide PairsOf, OrderedPairs, EntriesAgree, Lists, SortedKeys;
    match v
    case Array(items) =>
      forall i | 0 <= i < |items|
        ensures x.items[i] == ItemOf(items[i])
      {
        OneItem(items[i], x.items[i]);
      }
    case Map(entries) =>
      var order :| Lists(order, entries.Keys) && OrderedPairs(v, order, x.pairs);
      OneOrder(v, order, x.pairs);
    case Tag(_, content) => OneItem(content, x.content);
    case _ =>
  }

  lemma {:induction false} OneOrder(v: Value, order: seq<Key>, pairs: seq<Pair>)
    requires v.Map? && Sized(v) && Unambiguous(v) && Lists(order, v.entries.Keys) && OrderedPairs(v, order, pairs)
    ensures pairs == PairsOf(v, SortedKeys(v.entries.Keys))
    decreases v, 1
  {
    hide SortedKeys, Ascending, EntriesAgree, PairsOf, NoKeyTwice, KeyItem;
    var sorted := SortedKeys(v.entries.Keys);
    forall i | 0 <= i < |order|
      ensures pairs[i] == PairsOf(v, order)[i] && KeySupported(order[i])
    {
      assert OrderedPair(v, order[i], pairs[i]);
      OneItem(v.entries[order[i]], pairs[i].item);
      PairsAt(v, order, i);
    }
    assert pairs == PairsOf(v, order);
    SortedKeysAscend(v.entries.Keys);
    SameOrder(v, order, sorted);
  }

  ghost predicate SameKeys(a: seq<Key>, b: seq<Key>) {
    forall k :: k in a <==> k in b
  }

  function Without(keys: seq<Key>, i: nat): seq<Key>
    requires i < |keys|
  {
    keys[..i] + keys[i + 1..]
  }

  lemma WithoutKey(keys: seq<Key>, i: nat)
    requires NoKeyTwice(keys) && i < |keys|
    ensures NoKeyTwice(Without(keys, i)) && forall k :: k in Without(keys, i) <==> k in keys && k != keys[i]
  {
    var rest := Without(keys, i);
    forall k | k in keys && k != keys[i]
      ensures k in rest
    {
      var j :| 0 <= j < |keys| && keys[j] == k;
      assert rest[if j < i then j else j - 1] == k;
    }
  }

  lemma WithoutAscends(keys: seq<Key>, i: nat)
    requires Ascending(keys) && i < |keys|
    ensures Ascending(Without(keys, i))
  {
    hide KeyEncoding, Below;
    var rest := Without(keys, i);
    forall p, q | 0 <= p < q < |rest|
      ensures !Below(KeyEncoding(rest[q]), KeyEncoding(rest[p]))
    {
      assert rest[p] == keys[if p < i then p else p + 1] && rest[q] == keys[if q < i then q else q + 1];
    }
  }

  /** Two ascending orders of the same keys give the same pairs. */
  lemma {:induction false} SameOrder(v: Value, a: seq<Key>, b: seq<Key>)
    requires v.Map? && Sized(v) && EntriesAgree(v) && Ascending(a) && Ascending(b)
    requires NoKeyTwice(a) && NoKeyTwice(b) && SameKeys(a, b)
    requires forall k :: k in a || k in b ==> k in v.entries && KeySupported(k)
    ensures PairsOf(v, a) == PairsOf(v, b)
    decreases |a|
  {
    hide KeyEncoding, Below, PairOf, Sized, EntriesAgree, NoKeyTwice, Ascending;
    assert |b| > 0 ==> b[0] in b;
    if a != [] {
      var last := |a| - 1;
      assert a[last] in b;
      var i :| 0 <= i < |b| && b[i] == a[last];
      assert Without(a, last) == a[..last];
      WithoutKey(a, last);
      WithoutKey(b, i);
      WithoutAscends(a, last);
      WithoutAscends(b, i);
      SameOrder(v, a[..last], Without(b, i));
      assert PairsOf(v, a) == PairsOf(v, a[..last]) + [PairOf(v, a[last])];
      LaterAlike(v, a, b, i);
      RemovedAlike(v, b, i);
    }
  }

  /** What follows the greatest key in an ascending order has its encoding, and its entry. */
  lemma LaterAlike(v: Value, a: seq<Key>, b: seq<Key>, i: nat)
    requires v.Map? && Sized(v) && EntriesAgree(v) && Ascending(a) && Ascending(b) && SameKeys(a, b)
    requires forall k :: k in a || k in b ==> k in v.entries && KeySupported(k)
    requires a != [] && i < |b| && b[i] == a[|a| - 1]
    ensures forall j :: i <= j < |b| ==> b[j] in v.entries && PairOf(v, b[j]) == PairOf(v, b[i])
  {
    hide KeyEncoding, Below, KeyItem, NormalKey, EntriesAgree, PairOf;
    var k := b[i];
    assert k in b;
    forall j | i < j < |b|
      ensures b[j] in v.entries && PairOf(v, b[j]) == PairOf(v, k)
    {
      assert b[j] in b && b[j] in a;
      var m :| 0 <= m < |a| && a[m] == b[j];
      BelowIsTotal(KeyEncoding(b[j]), KeyEncoding(k));
      BelowIsTotal(KeyEncoding(k), KeyEncoding(k));
      assert KeyEncoding(b[j]) == KeyEncoding(k);
      SharedPair(v, b[j], k);
    }
  }

  lemma SharedPair(v: Value, j: Key, k: Key)
    requires v.Map? && Sized(v) && EntriesAgree(v) && j in v.entries && k in v.entries
    requires KeySupported(j) && KeySupported(k) && KeyEncoding(j) == KeyEncoding(k)
    ensures PairOf(v, j) == PairOf(v, k)
  {
    hide KeyEncoding, KeyItem, NormalKey;
    KeysShareEncodingIff(j, k);
    SameKeyItemIff(j, k);
  }

  lemma RemovedAlike(v: Value, b: seq<Key>, i: nat)
    requires v.Map? && i < |b| && forall k :: k in b ==> k in v.entries
    requires forall j :: i <= j < |b| ==> b[j] in v.entries && PairOf(v, b[j]) == PairOf(v, b[i])
    ensures forall k :: k in Without(b, i) ==> k in v.entries
    ensures PairsOf(v, b) == PairsOf(v, Without(b, i)) + [PairOf(v, b[i])]
  {
    hide PairOf;
    var rest := Without(b, i);
    forall k | k in rest
      ensures k in b
    {
    }
    forall j | 0 <= j < |b|
      ensures PairsOf(v, b)[j] == (PairsOf(v, rest) + [PairOf(v, b[i])])[j]
    {
      assert b[j] in b;
      if j < i {
        assert rest[j] == b[j];
      } else if j < |b| - 1 {
        assert rest[j] == b[j + 1];
      }
    }
  }

  // ----- values that are the same but for the types of integers -----

  /** Values that are the same but for the types of their integers, keys
      included: the entries of maps can be paired off. */
  ghost predicate Alike(v: Value, w: Value)
    decreases v, 1
  {
    match v
    case Integer(n) => (w.Integer? && w.n == n) || (w.Unsigned? && w.u == n)
    case Unsigned(u) => (w.Integer? && w.n == u) || (w.Unsigned? && w.u == u)
    case Array(items) =>
      w.Array? && |w.items| == |items| && forall i :: 0 <= i < |items| ==> Alike(items[i], w.items[i])
    case Map(entries) => w.Map? && exists a, b :: PairedOff(v, w, a, b)
    case Tag(number, content) => w.Tag? && w.number == number && Alike(content, w.content)
    case _ => w == v
  }

  /** The keys of two maps in orders in which they stand for the same, and their entries are alike. */
  ghost predicate PairedOff(v: Value, w: Value, a: seq<Key>, b: seq<Key>)
    requires v.Map? && w.Map?
    decreases v, 0
  {
    && Lists(a, v.entries.Keys) && Lists(b, w.entries.Keys) && |a| == |b|
    && forall i :: 0 <= i < |a| ==>
         && a[i] in v.entries && b[i] in w.entries && NormalKey(a[i]) == NormalKey(b[i])
         && Alike(v.entries[a[i]], w.entries[b[i]])
  }

  /** Keys that stand for the same have entries that are alike, in every map in the value. */
  ghost predicate Determined(v: Value) {
    match v
    case Array(items) => forall i :: 0 <= i < |items| ==> Determined(items[i])
    case Map(entries) =>
      && (forall k :: k in entries ==> Determined(entries[k]))
      && forall j, k :: j in entries && k in entries && NormalKey(j) == NormalKey(k) ==> Alike(entries[j], entries[k])
    case Tag(_, content) => Determined(content)
    case _ => true
  }

  /** Values are alike exactly when the same is written for them. */
  lemma {:induction false} AlikeIff(v: Value, w: Value)
    requires Sized(v) && Supported(v) && Sized(w) && Supported(w) && Unambiguous(w)
    ensures Alike(v, w) <==> ItemOf(v) == ItemOf(w)
    decreases v, 3
  {
    if v.Array? && w.Array? {
      ArraysAlikeIff(v, w);
    } else if v.Map? && w.Map? {
      MapsAlikeIff(v, w);
    } else if v.Tag? && w.Tag? {
      TagsAlikeIff(v, w);
    } else {
      hide PairedOff, PairsOf, SortedKeys, EntriesAgree, Sized;
      OthersAlikeIff(v, w);
    }
  }

  lemma OthersAlikeIff(v: Value, w: Value)
    requires !v.Other? && !w.Other? && !(v.Array? && w.Array?) && !(v.Map? && w.Map?) && !(v.Tag? && w.Tag?)
    ensures Alike(v, w) <==> ItemOf(v) == ItemOf(w)
  {
    hide PairedOff, PairsOf, SortedKeys;
  }

  lemma {:induction false} TagsAlikeIff(v: Value, w: Value)
    requires v.Tag? && w.Tag? && Sized(v) && Supported(v) && Sized(w) && Supported(w) && Unambiguous(w)
    ensures Alike(v, w) <==> ItemOf(v) == ItemOf(w)
    decreases v, 2
  {
    AlikeIff(v.content, w.content);
  }

  lemma {:induction false} ArraysAlikeIff(v: Value, w: Value)
    requires v.Array? && w.Array? && Sized(v) && Supported(v) && Sized(w) && Supported(w) && Unambiguous(w)
    ensures Alike(v, w) <==> ItemOf(v) == ItemOf(w)
    decreases v, 2
  {
    if |v.items| == |w.items| {
      forall i | 0 <= i < |v.items|
        ensures Alike(v.items[i], w.items[i]) <==> ItemOf(v.items[i]) == ItemOf(w.items[i])
      {
        AlikeIff(v.items[i], w.items[i]);
      }
      ItemsAlikeIff(v.items, w.items);
    } else {
      assert |ItemOf(v).items| != |ItemOf(w).items|;
    }
  }

  lemma ItemsAlikeIff(a: seq<Value>, b: seq<Value>)
    requires |a| == |b|
    ensures ItemOf(Array(a)) == ItemOf(Array(b)) <==> forall i :: 0 <= i < |a| ==> ItemOf(a[i]) == ItemOf(b[i])
  {
    var x, y := ItemOf(Array(a)), ItemOf(Array(b));
    if x == y {
      forall i | 0 <= i < |a|
        ensures ItemOf(a[i]) == ItemOf(b[i])
      {
        assert x.items[i] == y.items[i];
      }
    }
  }

  ghost function PlaceIn(order: seq<Key>, k: Key): (i: nat)
    requires k in order
    ensures i < |order| && order[i] == k
  {
    var i :| 0 <= i < |order| && order[i] == k;
    i
  }

  /** The second of two orders, rearranged as the first has to be to become another. */
  lemma Rearranged(c: seq<Key>, d: seq<Key>, a: seq<Key>, keys: set<Key>, others: set<Key>) returns (e: seq<Key>)
    requires Lists(c, keys) && Lists(a, keys) && Lists(d, others) && |c| == |d|
    ensures |e| == |a| && Lists(e, others)
    ensures forall i :: 0 <= i < |a| ==> exists p :: 0 <= p < |c| && a[i] == c[p] && e[i] == d[p]
  {
    forall i | 0 <= i < |a|
      ensures a[i] in c
    {
      assert a[i] in a;
    }
    e := seq(|a|, i requires 0 <= i < |a| => d[PlaceIn(c, a[i])]);
    forall i, j | 0 <= i < j < |e|
      ensures e[i] != e[j]
    {
      assert a[i] != a[j];
      Distinct(d, PlaceIn(c, a[i]), PlaceIn(c, a[j]));
    }
    forall k
      ensures k in e <==> k in others
    {
      if k in others {
        assert k in d;
        var q :| 0 <= q < |d| && d[q] == k;
        assert c[q] in c && c[q] in a;
        var i :| 0 <= i < |a| && a[i] == c[q];
        Distinct(c, PlaceIn(c, a[i]), q);
        assert e[i] == k;
      }
      if k in e {
        var i :| 0 <= i < |e| && e[i] == k;
        assert k in d;
      }
    }
  }

  lemma Distinct(order: seq<Key>, i: nat, j: nat)
    requires NoKeyTwice(order) && i < |order| && j < |order|
    ensures order[i] == order[j] <==> i == j
  {
  }

  lemma AlsoAscends(a: seq<Key>, e: seq<Key>)
    requires Ascending(a) && |a| == |e| && forall i :: 0 <= i < |a| ==> KeyItem(a[i]) == KeyItem(e[i])
    ensures Ascending(e)
  {
    hide Below, KeyItem, Encoding;
    forall i | 0 <= i < |a|
      ensures KeyEncoding(a[i]) == KeyEncoding(e[i])
    {
    }
  }

  /** What makes entries the same makes them alike. */
  ghost predicate Comparable(v: Value, w: Value)
    requires v.Map? && w.Map?
  {
    forall j, k :: j in v.entries && k in w.entries ==>
      && (Alike(v.entries[j], w.entries[k]) <==> ItemOf(v.entries[j]) == ItemOf(w.entries[k]))
      && (NormalKey(j) == NormalKey(k) <==> KeyItem(j) == KeyItem(k))
  }

  lemma {:induction false} MapsAlikeIff(v: Value, w: Value)
    requires v.Map? && w.Map? && Sized(v) && Supported(v) && Sized(w) && Supported(w) && Unambiguous(w)
    ensures Alike(v, w) <==> ItemOf(v) == ItemOf(w)
    decreases v, 2
  {
    AreComparable(v, w);
    hide PairedOff, Comparable, Sized, Supported, Unambiguous, SortedKeys, ItemOf;
    if ItemOf(v) == ItemOf(w) {
      SameIsAlike(v, w);
    }
    if a, b :| PairedOff(v, w, a, b) {
      AlikeIsSame(v, w, a, b);
    }
  }

  lemma {:induction false} AreComparable(v: Value, w: Value)
    requires v.Map? && w.Map? && Sized(v) && Supported(v) && Sized(w) && Supported(w) && Unambiguous(w)
    ensures Comparable(v, w)
    decreases v, 1
  {
    hide SortedKeys, PairsOf, EntriesAgree, KeyItem, NormalKey, PairedOff;
    forall j, k | j in v.entries && k in w.entries
      ensures Alike(v.entries[j], w.entries[k]) <==> ItemOf(v.entries[j]) == ItemOf(w.entries[k])
      ensures NormalKey(j) == NormalKey(k) <==> KeyItem(j) == KeyItem(k)
    {
      AlikeIff(v.entries[j], w.entries[k]);
      SameKeyItemIff(j, k);
    }
  }

  lemma SameIsAlike(v: Value, w: Value)
    requires v.Map? && w.Map? && Comparable(v, w) && ItemOf(v) == ItemOf(w)
    ensures exists a, b :: PairedOff(v, w, a, b)
  {
    hide SortedKeys, PairsOf, KeyItem, NormalKey, ItemOf, Alike, Ascending, Comparable;
    var a, b := SortedKeys(v.entries.Keys), SortedKeys(w.entries.Keys);
    SortedKeysAscend(v.entries.Keys);
    SortedKeysAscend(w.entries.Keys);
    ItemOfMap(v);
    ItemOfMap(w);
    hide Lists;
    ArePairedOff(v, w, a, b);
  }

  lemma ArePairedOff(v: Value, w: Value, a: seq<Key>, b: seq<Key>)
    requires v.Map? && w.Map? && Comparable(v, w) && Lists(a, v.entries.Keys) && Lists(b, w.entries.Keys)
    requires (forall k :: k in a ==> k in v.entries) && forall k :: k in b ==> k in w.entries
    requires PairsOf(v, a) == PairsOf(w, b)
    ensures PairedOff(v, w, a, b)
  {
    hide PairsOf, KeyItem, NormalKey, ItemOf, Alike, Lists, Comparable;
    assert |a| == |PairsOf(v, a)| && |b| == |PairsOf(w, b)|;
    forall i | 0 <= i < |a|
      ensures a[i] in v.entries && b[i] in w.entries && NormalKey(a[i]) == NormalKey(b[i])
      ensures Alike(v.entries[a[i]], w.entries[b[i]])
    {
      SameAt(v, w, a, b, i);
    }
  }

  lemma SameAt(v: Value, w: Value, a: seq<Key>, b: seq<Key>, i: nat)
    requires v.Map? && w.Map? && Comparable(v, w) && i < |a| == |b|
    requires (forall k :: k in a ==> k in v.entries) && forall k :: k in b ==> k in w.entries
    requires PairsOf(v, a) == PairsOf(w, b)
    ensures a[i] in v.entries && b[i] in w.entries && NormalKey(a[i]) == NormalKey(b[i])
    ensures Alike(v.entries[a[i]], w.entries[b[i]])
  {
    hide PairsOf, KeyItem, NormalKey, ItemOf, Alike;
    PairsAt(v, a, i);
    PairsAt(w, b, i);
  }

  lemma AlikeIsSame(v: Value, w: Value, c: seq<Key>, d: seq<Key>)
    requires v.Map? && w.Map? && Comparable(v, w) && PairedOff(v, w, c, d)
    requires Sized(w) && Supported(w) && Unambiguous(w)
    ensures ItemOf(v) == ItemOf(w)
  {
    hide SortedKeys, PairsOf, KeyItem, NormalKey, ItemOf, Alike, Ascending, Comparable, Sized, Supported, Unambiguous;
    var a, b := SortedKeys(v.entries.Keys), SortedKeys(w.entries.Keys);
    SortedKeysAscend(v.entries.Keys);
    SortedKeysAscend(w.entries.Keys);
    var e := Rearranged(c, d, a, v.entries.Keys, w.entries.Keys);
    SamePairs(v, w, c, d, a, e);
    AlsoAscends(a, e);
    EitherOrderOf(w, e, b);
    ItemOfMap(v);
    ItemOfMap(w);
  }

  lemma SamePairs(v: Value, w: Value, c: seq<Key>, d: seq<Key>, a: seq<Key>, e: seq<Key>)
    requires v.Map? && w.Map? && Comparable(v, w) && PairedOff(v, w, c, d)
    requires (forall k :: k in a ==> k in v.entries) && forall k :: k in e ==> k in w.entries
    requires |a| == |e| && forall i :: 0 <= i < |a| ==> exists p :: 0 <= p < |c| && a[i] == c[p] && e[i] == d[p]
    ensures PairsOf(v, a) == PairsOf(w, e)
    ensures forall i :: 0 <= i < |a| ==> KeyItem(a[i]) == KeyItem(e[i])
  {
    hide PairsOf, KeyItem, NormalKey, ItemOf, Alike, Lists;
    forall i | 0 <= i < |a|
      ensures KeyItem(a[i]) == KeyItem(e[i]) && PairsOf(v, a)[i] == PairsOf(w, e)[i]
    {
      var p :| 0 <= p < |c| && a[i] == c[p] && e[i] == d[p];
      PairsAt(v, a, i);
      PairsAt(w, e, i);
    }
  }

  lemma EitherOrderOf(w: Value, a: seq<Key>, b: seq<Key>)
    requires w.Map? && Sized(w) && Supported(w) && Unambiguous(w)
    requires Lists(a, w.entries.Keys) && Lists(b, w.entries.Keys) && Ascending(a) && Ascending(b)
    ensures PairsOf(w, a) == PairsOf(w, b)
  {
    hide PairsOf, KeyEncoding, EntriesAgree, Ascending;
    SameOrder(w, a, b);
  }

  /** Entries are alike exactly when they are written the same. */
  lemma {:induction false} DeterminedIff(v: Value)
    requires Sized(v) && Supported(v)
    ensures Determined(v) <==> Unambiguous(v)
  {
    hide NormalKey, Alike, ItemOf;
    match v
    case Array(items) =>
      forall i | 0 <= i < |items|
        ensures Determined(items[i]) <==> Unambiguous(items[i])
      {
        DeterminedIff(items[i]);
      }
    case Map(entries) =>
      forall k | k in entries
        ensures Determined(entries[k]) <==> Unambiguous(entries[k])
      {
        DeterminedIff(entries[k]);
      }
      if forall k :: k in entries ==> Unambiguous(entries[k]) {
        forall j, k | j in entries && k in entries
          ensures Alike(entries[j], entries[k]) <==> ItemOf(entries[j]) == ItemOf(entries[k])
        {
          AlikeIff(entries[j], entries[k]);
        }
      }
    case Tag(_, content) => DeterminedIff(content);
    case _ =>
  }

  // ----- when they are not -----

  /** Something else can be written for an ambiguous value. */
  lemma {:induction false} AnotherItem(v: Value) returns (x: Item)
    requires Supported(v) && Sized(v) && !Unambiguous(v)
    ensures Ordered(v, x) && x != ItemOf(v)
    decreases v, 1
  {
    hide SortedKeys, Ascending, EntriesAgree, OrderedPairs;
    ItemOfIsOrdered(v);
    match v
    case Array(items) =>
      var i :| 0 <= i < |items| && !Unambiguous(items[i]);
      var y := AnotherItem(items[i]);
      x := List(ItemOf(v).items[i := y]);
      assert x.items[i] != ItemOf(v).items[i];
    case Map(entries) =>
      if k :| k in entries && !Unambiguous(entries[k]) {
        x := AnotherPairs(v, k);
      } else {
        x := SwappedPairs(v);
      }
    case Tag(number, content) =>
      var y := AnotherItem(content);
      x := Tagged(number, y);
    case _ => x := ItemOf(v);
  }

  lemma {:induction false} AnotherPairs(v: Value, k: Key) returns (x: Item)
    requires v.Map? && Supported(v) && Sized(v) && k in v.entries && !Unambiguous(v.entries[k])
    ensures Ordered(v, x) && x != ItemOf(v)
    decreases v, 0
  {
    hide SortedKeys, Ascending;
    var order := SortedKeys(v.entries.Keys);
    SortedKeysAscend(v.entries.Keys);
    assert k in order;
    var i :| 0 <= i < |order| && order[i] == k;
    var y := AnotherItem(v.entries[k]);
    var pairs := PairsOf(v, order);
    var others := pairs[i := Pair(KeyItem(k), y)];
    PairsAt(v, order, i);
    assert others[i].item != pairs[i].item;
    forall j | 0 <= j < |order|
      ensures OrderedPair(v, order[j], others[j])
    {
      PairsAt(v, order, j);
      ItemOfIsOrdered(v.entries[order[j]]);
    }
    assert OrderedPairs(v, order, others);
    x := Pairs(others);
  }

  /** Keys of the same encoding can come in either order. */
  lemma SwappedPairs(v: Value) returns (x: Item)
    requires v.Map? && Supported(v) && Sized(v) && !EntriesAgree(v)
    ensures Ordered(v, x) && x != ItemOf(v)
  {
    hide SortedKeys, KeyEncoding, KeyItem, NormalKey, Ordered, ItemOf;
    var j, k :| j in v.entries && k in v.entries && NormalKey(j) == NormalKey(k)
                && ItemOf(v.entries[j]) != ItemOf(v.entries[k]);
    KeysShareEncodingIff(j, k);
    x := SwappedKeys(v, j, k);
  }

  lemma SwappedKeys(v: Value, j: Key, k: Key) returns (x: Item)
    requires v.Map? && Supported(v) && j in v.entries && k in v.entries
    requires KeyEncoding(j) == KeyEncoding(k) && ItemOf(v.entries[j]) != ItemOf(v.entries[k])
    ensures Ordered(v, x) && x != ItemOf(v)
  {
    hide SortedKeys, Ascending, KeyEncoding, KeyItem, Ordered, PairOf, PairsOf, NoKeyTwice, ItemOf, Supported;
    var order := SortedKeys(v.entries.Keys);
    SortedKeysAscend(v.entries.Keys);
    var p, q := PlaceIn(order, j), PlaceIn(order, k);
    var swapped := order[p := k][q := j];
    SwappedOrder(order, p, q);
    assert forall i :: i in swapped ==> i in order;
    PairsAreOrdered(v, swapped);
    PairsAt(v, order, p);
    PairsAt(v, swapped, p);
    ItemOfMap(v);
    x := Pairs(PairsOf(v, swapped));
  }

  lemma ItemOfMap(v: Value)
    requires v.Map?
    ensures ItemOf(v) == Pairs(PairsOf(v, SortedKeys(v.entries.Keys)))
  {
  }

  lemma PairsAt(v: Value, order: seq<Key>, p: nat)
    requires v.Map? && p < |order| && forall k :: k in order ==> k in v.entries
    ensures order[p] in v.entries && PairsOf(v, order)[p] == Pair(KeyItem(order[p]), ItemOf(v.entries[order[p]]))
  {
    assert order[p] in order;
  }

  lemma PairsAreOrdered(v: Value, order: seq<Key>)
    requires v.Map? && Supported(v) && Ascending(order) && Lists(order, v.entries.Keys)
    ensures Ordered(v, Pairs(PairsOf(v, order)))
  {
    hide Ascending, KeyItem, NoKeyTwice;
    forall i | 0 <= i < |order|
      ensures OrderedPair(v, order[i], PairsOf(v, order)[i])
    {
      assert order[i] in order;
      ItemOfIsOrdered(v.entries[order[i]]);
    }
    assert OrderedPairs(v, order, PairsOf(v, order));
  }

  lemma SwappedOrder(order: seq<Key>, p: nat, q: nat)
    requires p < |order| && q < |order| && NoKeyTwice(order) && Ascending(order)
    requires KeyEncoding(order[p]) == KeyEncoding(order[q])
    ensures var swapped := order[p := order[q]][q := order[p]];
            NoKeyTwice(swapped) && Ascending(swapped) && SameKeys(order, swapped)
  {
    hide KeyEncoding, Below;
    var swapped := order[p := order[q]][q := order[p]];
    assert forall i :: 0 <= i < |order| ==> KeyEncoding(swapped[i]) == KeyEncoding(order[i]);
    forall k
      ensures k in order <==> k in swapped
    {
      if k in order {
        var i :| 0 <= i < |order| && order[i] == k;
        assert swapped[if i == p then q else if i == q then p else i] == k;
      }
      if k in swapped {
        var i :| 0 <= i < |swapped| && swapped[i] == k;
        assert order[if i == p then q else if i == q then p else i] == k;
      }
    }
  }

  /** Every order of the entries gives the same bytes exactly when keys that are
      the same but for the types of integers have entries that are, too. */
  lemma BytesAreDeterminedIff(v: Value)
    requires Sized(v) && Supported(v)
    ensures (forall x, y :: Ordered(v, x) && Ordered(v, y) ==> Encoding(x) == Encoding(y)) <==> Determined(v)
  {
    hide Encoding, ItemOf, Ordered, Unambiguous, Sized, Supported, Fits, Determined;
    DeterminedIff(v);
    ItemOfIsOrdered(v);
    if Unambiguous(v) {
      forall x, y | Ordered(v, x) && Ordered(v, y)
        ensures Encoding(x) == Encoding(y)
      {
        OneItem(v, x);
        OneItem(v, y);
      }
    } else {
      var x := AnotherItem(v);
      OrderedFits(v, x);
      OrderedFits(v, ItemOf(v));
      if Encoding(x) == Encoding(ItemOf(v)) {
        PrefixFree(x, ItemOf(v));
      }
    }
  }

  /** A map with two keys that stand for one. */
  function TwoOnes(): (v: Value)
    ensures v.Map? && v.entries.Keys == {Int64Key(1), Uint64Key(1)}
  {
    var entries := map[Int64Key(1) := Text([0x61]), Uint64Key(1) := Text([0x62])];
    assert entries.Keys == {Int64Key(1), Uint64Key(1)};
    Map(entries)
  }

  /** It is encoded in one of two ways, as the entries are met. */
  lemma EitherOneFirst()
    ensures exists x, y :: Ordered(TwoOnes(), x) && Ordered(TwoOnes(), y)
                           && Encoding(x) == [0xa2, 1, 0x61, 0x61, 1, 0x61, 0x62]
                           && Encoding(y) == [0xa2, 1, 0x61, 0x62, 1, 0x61, 0x61]
  {
    hide Encoding, Ordered;
    var v, a, b := TwoOnes(), OneLetter(0x61), OneLetter(0x62);
    PairsOfTwoOnes();
    EitherOrder(v, Int64Key(1), Uint64Key(1), a, b);
    EitherOrder(v, Uint64Key(1), Int64Key(1), b, a);
    TwoPairs(0x61, 0x62);
    TwoPairs(0x62, 0x61);
  }

  function OneLetter(letter: Byte): Pair {
    Pair(Numeral(1), Letters([letter]))
  }

  lemma PairsOfTwoOnes()
    ensures OrderedPair(TwoOnes(), Int64Key(1), OneLetter(0x61)) &&
            OrderedPair(TwoOnes(), Uint64Key(1), OneLetter(0x62))
    ensures KeyEncoding(Int64Key(1)) == KeyEncoding(Uint64Key(1))
  {
    hide Encoding;
  }

  lemma EitherOrder(v: Value, j: Key, k: Key, a: Pair, b: Pair)
    requires v.Map? && v.entries.Keys == {j, k} && j != k && KeyEncoding(j) == KeyEncoding(k)
    requires OrderedPair(v, j, a) && OrderedPair(v, k, b)
    ensures Ordered(v, Pairs([a, b]))
  {
    hide KeyEncoding, OrderedPair;
    var order := [j, k];
    BelowIsTotal(KeyEncoding(j), KeyEncoding(k));
    assert Lists(order, v.entries.Keys);
    assert OrderedPairs(v, order, [a, b]);
  }

  lemma TwoPairs(first: Byte, second: Byte)
    ensures Encoding(Pairs([OneLetter(first), OneLetter(second)])) == [0xa2, 1, 0x61, first, 1, 0x61, second]
  {
    var a, b := OneLetter(first), OneLetter(second);
    OnePair(first);
    OnePair(second);
    assert [a, b][..1] == [a] && [a][..0] == [];
    assert PairsEncoding([]) == [] && PairsEncoding([a]) == PairEncoding(a);
    assert PairsEncoding([a, b]) == PairEncoding(a) + PairEncoding(b);
  }

  lemma OnePair(letter: Byte)
    ensures PairEncoding(OneLetter(letter)) == [1, 0x61, letter]
  {
    assert Encoding(Numeral(1)) == [1];
    assert Encoding(Letters([letter])) == [0x61, letter];
  }
}
