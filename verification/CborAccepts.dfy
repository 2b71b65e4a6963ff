/** The decoder of pkg/cbor/cbor.go:160-380 accepts exactly the encodings of
    CborGrammar, and returns the value that each one encodes. */
module CborAccepts {
  import opened Wrappers
  import opened ByteOrder
  import opened Utf8
  import opened CborValues
  import opened CborDecoding
  import opened CborItems
  import opened CborOrders
  import opened CborGrammar

  // ----- text -----

  predicate AllScalar(runes: seq<int>) {
    forall k :: 0 <= k < |runes| ==> IsScalar(runes[k])
  }

  /** Text is what spells some scalar values, one after the other. */
  lemma {:induction false} ValidTextIff(s: Bytes)
    ensures ValidText(s) <==> exists runes: seq<int> :: AllScalar(runes) && s == EncodeRunes(runes)
    decreases |s|
  {
    hide EncodeRunes;
    if ValidText(s) {
      if s == [] {
        assert EncodeRunes([]) == [] by {
          SeriesSpells([0], 0);
        }
        assert AllScalar([]);
      } else {
        var d := DecodeRune(s);
        EncodeDecoded(s);
        ValidTextIff(s[d.size..]);
        var rest: seq<int> :| AllScalar(rest) && s[d.size..] == EncodeRunes(rest);
        SpelledFirst(d.rune, rest);
        assert AllScalar([d.rune] + rest);
      }
    }
    if exists runes: seq<int> :: AllScalar(runes) && s == EncodeRunes(runes) {
      var runes: seq<int> :| AllScalar(runes) && s == EncodeRunes(runes);
      SpelledIsText(runes);
    }
  }

  lemma SpelledFirst(r: int, rest: seq<int>)
    ensures EncodeRunes([]) == [] && EncodeRunes([r] + rest) == EncodeRune(r) + EncodeRunes(rest)
  {
    hide EncodeRunes, EncodeRune;
    var runes := [r] + rest;
    SeriesSpells(runes, 0);
    assert runes[..0] == [] && runes[1..] == rest;
  }

  lemma {:induction false} SpelledIsText(runes: seq<int>)
    requires AllScalar(runes)
    ensures ValidText(EncodeRunes(runes))
    decreases |runes|
  {
    hide EncodeRunes, EncodeRune, DecodeRune;
    if runes == [] {
      SpelledFirst(0, []);
    } else {
      var r, rest := runes[0], runes[1..];
      assert runes == [r] + rest;
      SpelledFirst(r, rest);
      SpelledIsText(rest);
      var s := EncodeRunes(runes);
      DecodeEncoded(r, s);
      assert s[|EncodeRune(r)|..] == EncodeRunes(rest);
      RuneDecodesIff(s, r, |EncodeRune(r)|);
      EncodingSpells(r);
      assert s[..|EncodeRune(r)|] == EncodeRune(r);
    }
  }

  // ----- heads -----

  /** Every head that is read is one, and none is longer than what announces it. */
  lemma HeadReads(data: Bytes, offset: nat)
    requires offset <= |data| && ReadHead(data, offset).head.Some?
    ensures var r := ReadHead(data, offset);
            && AnyHead(data[offset..r.next], r.head.value.major, r.head.value.argument)
            && (r.head.value.info < 24 <==> r.next == offset + 1)
  {
    hide FromBigEndian;
    var info := data[offset] % 32;
    if info >= 24 {
      var size := CodeSize(info);
      var digits := data[offset + 1..offset + 1 + size];
      DigitsOf(digits);
      assert data[offset..offset + 1 + size][1..] == digits;
    }
  }

  /** Every head is read, whatever follows it. */
  lemma HeadIsRead(data: Bytes, offset: nat, head: Bytes, major: Major, argument: Uint64)
    requires At(data, offset, head) && AnyHead(head, major, argument)
    ensures var r := ReadHead(data, offset);
            && r.next == offset + |head| && r.head.Some?
            && r.head.value.major == major && r.head.value.argument == argument
            && (r.head.value.info < 24 <==> |head| == 1)
  {
    hide FromBigEndian;
    var n := |head|;
    assert data[offset..offset + n][0] == data[offset];
    if n > 1 {
      var digits := data[offset + 1..offset + n];
      assert digits == head[1..];
      DigitsOf(digits);
    }
  }

  /** A head's argument fits eight bytes. */
  lemma HeadFits(head: Bytes, major: int, argument: int)
    requires AnyHead(head, major, argument)
    ensures argument < TWO_64
  {
    hide FromBigEndian;
    if |head| > 1 {
      var digits := head[1..];
      DigitsOf(digits);
      FromBigEndianBound(digits);
      Powers256();
    }
  }

  lemma AtJoined(data: Bytes, a: nat, b: nat, c: nat)
    requires a <= b <= c <= |data|
    ensures data[a..c] == data[a..b] + data[b..c]
  {
  }

  lemma JoinedSnoc(parts: seq<Bytes>, part: Bytes)
    ensures Joined(parts + [part]) == Joined(parts) + part
  {
    assert (parts + [part])[..|parts|] == parts;
  }

  // ----- what is decoded is encoded -----

  /** What the decoder reads is an encoding of what it returns. */
  lemma {:induction false} DecodingEncodes(data: Bytes, offset: nat, depth: nat)
    requires offset <= |data| && depth <= MAX_DEPTH + 1 && Decoding(data, offset, depth).value.Some?
    ensures var r := Decoding(data, offset, depth);
            Encodes(data[offset..r.offset], r.value.value, MAX_DEPTH - depth)
    decreases MAX_DEPTH + 1 - depth, 0
  {
    hide Items, Entries, AnyHead, ReadHead, EncodesItems, EncodesEntries, EncodesScalar, DecodingString, SimpleValue;
    var r, read := Decoding(data, offset, depth), ReadHead(data, offset);
    HeadReads(data, offset);
    var major, argument, head := read.head.value.major, read.head.value.argument, data[offset..read.next];
    AtJoined(data, offset, read.next, r.offset);
    if major == 4 {
      var items := Items(data, read.next, depth + 1, argument);
      var parts := ItemsEncode(data, read.next, depth + 1, argument);
      assert EncodesItems(parts, r.value.value, MAX_DEPTH - depth - 1);
      assert data[offset..r.offset] == head + Joined(parts);
    } else if major == 5 {
      var order, parts := EntriesEncode(data, read.next, depth + 1, argument);
      assert data[offset..r.offset] == head + Joined(parts);
    } else if major == 6 {
      DecodingEncodes(data, read.next, depth + 1);
      assert data[offset..r.offset] == head + data[read.next..r.offset];
    } else {
      ScalarEncodes(data, offset, depth);
    }
  }

  lemma ScalarEncodes(data: Bytes, offset: nat, depth: nat)
    requires offset <= |data| && depth <= MAX_DEPTH && Decoding(data, offset, depth).value.Some?
    requires ReadHead(data, offset).head.value.major !in {4, 5, 6}
    ensures var r := Decoding(data, offset, depth);
            && EncodesScalar(data[offset..r.offset], r.value.value)
            && !r.value.value.Array? && !r.value.value.Map? && !r.value.value.Tag?
  {
    hide Items, Entries, ReadHead, ValidText;
    var r, read := Decoding(data, offset, depth), ReadHead(data, offset);
    HeadReads(data, offset);
    var head := data[offset..read.next];
    AtJoined(data, offset, read.next, r.offset);
    if read.head.value.major == 2 || read.head.value.major == 3 {
      assert data[offset..r.offset] == head + data[read.next..r.offset];
    }
  }

  lemma {:induction false} ItemsEncode(data: Bytes, offset: nat, depth: nat, count: nat) returns (parts: seq<Bytes>)
    requires offset <= |data| && depth <= MAX_DEPTH + 1 && Items(data, offset, depth, count).ok
    ensures var r := Items(data, offset, depth, count);
            EncodesItems(parts, Array(r.items), MAX_DEPTH - depth) && Joined(parts) == data[offset..r.offset]
    decreases MAX_DEPTH + 1 - depth, 1, count
  {
    hide Decoding, Encodes;
    if count == 0 {
      parts := [];
    } else {
      var before := Items(data, offset, depth, count - 1);
      var front := ItemsEncode(data, offset, depth, count - 1);
      var item := Decoding(data, before.offset, depth);
      DecodingEncodes(data, before.offset, depth);
      var part := data[before.offset..item.offset];
      parts := front + [part];
      JoinedSnoc(front, part);
      AtJoined(data, offset, before.offset, item.offset);
    }
  }

  lemma {:induction false} EntriesEncode(data: Bytes, offset: nat, depth: nat, count: nat)
    returns (order: seq<Key>, parts: seq<Bytes>)
    requires offset <= |data| && depth <= MAX_DEPTH + 1 && Entries(data, offset, depth, count).ok
    ensures var r := Entries(data, offset, depth, count);
            && Lists(order, r.entries.Keys) && EncodesEntries(parts, order, Map(r.entries), MAX_DEPTH - depth)
            && Joined(parts) == data[offset..r.offset]
    decreases MAX_DEPTH + 1 - depth, 1, count
  {
    hide Entries, EncodesEntry, EncodesEntries, EntryAfter, Joined, Lists, Adds;
    if count == 0 {
      order, parts := [], [];
      NoItems(data, offset, depth);
      NoEntries(MAX_DEPTH - depth);
    } else {
      var before := EntriesBefore(data, offset, depth, count);
      var r := EntryAfter(data, before, depth);
      var order', front := EntriesEncode(data, offset, depth, count - 1);
      var k, part := EntryEncodes(data, before, depth);
      order, parts := order' + [k], front + [part];
      EntryAdded(data, offset, before, r, order', front, k, part, MAX_DEPTH - depth);
    }
  }

  /** One more entry. */
  ghost predicate Adds(entries: map<Key, Value>, more: map<Key, Value>, k: Key) {
    && k !in entries && more.Keys == entries.Keys + {k}
    && forall j :: j in entries ==> more[j] == entries[j]
  }

  lemma EntryAdded(data: Bytes, offset: nat, before: EntriesOutcome, r: EntriesOutcome, order: seq<Key>,
                   front: seq<Bytes>, k: Key, part: Bytes, levels: int)
    requires offset <= before.offset <= r.offset <= |data| && part == data[before.offset..r.offset]
    requires Joined(front) == data[offset..before.offset] && Lists(order, before.entries.Keys)
    requires Adds(before.entries, r.entries, k)
    requires EncodesEntries(front, order, Map(before.entries), levels) && EncodesEntry(part, k, Map(r.entries), levels)
    ensures Lists(order + [k], r.entries.Keys) && EncodesEntries(front + [part], order + [k], Map(r.entries), levels)
    ensures Joined(front + [part]) == data[offset..r.offset]
  {
    hide EncodesEntry, EncodesEntries, Joined, Lists;
    JoinedSnoc(front, part);
    AtJoined(data, offset, before.offset, r.offset);
    MoreListed(order, before.entries.Keys, k);
    EntriesStay(front, order, before.entries, r.entries, part, k, levels);
  }

  lemma NoEntries(levels: int)
    ensures Lists([], {}) && EncodesEntries([], [], Map(map[]), levels) && Joined([]) == []
  {
  }

  /** The entries before the last. */
  lemma EntriesBefore(data: Bytes, offset: nat, depth: nat, count: nat) returns (before: EntriesOutcome)
    requires offset <= |data| && depth <= MAX_DEPTH + 1 && count > 0 && Entries(data, offset, depth, count).ok
    ensures before == Entries(data, offset, depth, count - 1) && before.ok
    ensures Entries(data, offset, depth, count) == EntryAfter(data, before, depth)
  {
    hide EntryAfter;
    before := Entries(data, offset, depth, count - 1);
  }

  lemma EntriesStay(front: seq<Bytes>, order: seq<Key>, entries: map<Key, Value>, more: map<Key, Value>, part: Bytes,
                    k: Key, levels: int)
    requires EncodesEntries(front, order, Map(entries), levels) && EncodesEntry(part, k, Map(more), levels)
    requires Adds(entries, more, k)
    ensures EncodesEntries(front + [part], order + [k], Map(more), levels)
  {
    hide EncodesEntry;
    forall i | 0 <= i < |front|
      ensures EncodesEntry(front[i], order[i], Map(more), levels)
    {
      EntryKnown(front[i], order[i], Map(entries), levels);
      EntryStays(front[i], order[i], entries, more, levels);
    }
  }

  lemma EntryKnown(part: Bytes, k: Key, v: Value, levels: int)
    requires v.Map? && EncodesEntry(part, k, v, levels)
    ensures k in v.entries
  {
  }

  lemma MoreListed(order: seq<Key>, keys: set<Key>, k: Key)
    requires Lists(order, keys) && k !in keys
    ensures Lists(order + [k], keys + {k})
  {
    var more := order + [k];
    forall j
      ensures j in more <==> j in keys + {k}
    {
      assert j in more <==> j in order || j == k;
    }
    forall i, j | 0 <= i < j < |more|
      ensures more[i] != more[j]
    {
      assert more[i] == order[i] && order[i] in order;
    }
  }

  lemma EntryStays(part: Bytes, k: Key, entries: map<Key, Value>, more: map<Key, Value>, levels: int)
    requires EncodesEntry(part, k, Map(entries), levels) && k in more && more[k] == entries[k]
    ensures EncodesEntry(part, k, Map(more), levels)
  {
    hide Encodes, EncodesKey;
    var key: Bytes, item: Bytes :| EncodesKey(key, k) && Encodes(item, entries[k], levels) && part == key + item;
  }

  lemma {:induction false} EntryEncodes(data: Bytes, before: EntriesOutcome, depth: nat) returns (k: Key, part: Bytes)
    requires before.offset <= |data| && depth <= MAX_DEPTH + 1 && EntryAfter(data, before, depth).ok
    ensures var r := EntryAfter(data, before, depth);
            && Adds(before.entries, r.entries, k)
            && part == data[before.offset..r.offset] && EncodesEntry(part, k, Map(r.entries), MAX_DEPTH - depth)
    decreases MAX_DEPTH + 1 - depth, 1, 0
  {
    hide Decoding;
    var r := EntryAfter(data, before, depth);
    var key := Decoding(data, before.offset, depth);
    var item := Decoding(data, key.offset, depth);
    k := AsKey(key.value.value).value;
    part := data[before.offset..r.offset];
    DecodingEncodes(data, before.offset, depth);
    DecodingEncodes(data, key.offset, depth);
    AtJoined(data, before.offset, key.offset, item.offset);
    KeyIsEncoded(data[before.offset..key.offset], key.value.value, MAX_DEPTH - depth);
    assert EncodesKey(data[before.offset..key.offset], k);
    assert Encodes(data[key.offset..item.offset], r.entries[k], MAX_DEPTH - depth);
  }

  lemma KeyIsEncoded(bytes: Bytes, v: Value, levels: int)
    requires Encodes(bytes, v, levels) && AsKey(v).Some?
    ensures EncodesKey(bytes, AsKey(v).value) && levels >= 0
  {
  }

  // ----- what is encoded is decoded -----

  /** Every encoding of a value is decoded as that value, whatever follows it. */
  lemma {:induction false} EncodingDecodes(data: Bytes, offset: nat, bytes: Bytes, v: Value, depth: nat)
    requires At(data, offset, bytes) && depth <= MAX_DEPTH + 1 && Encodes(bytes, v, MAX_DEPTH - depth)
    ensures var r := Decoding(data, offset, depth); r.value == Some(v) && r.offset == offset + |bytes|
    decreases v, 3
  {
    hide Items, Entries, AnyHead, ReadHead, EncodesItems, EncodesEntries, EncodesScalar, DecodingString, SimpleValue;
    match v
    case Array(_) => ArrayDecodes(data, offset, bytes, v, depth);
    case Map(_) => MapDecodes(data, offset, bytes, v, depth);
    case Tag(_, _) => TagDecodes(data, offset, bytes, v, depth);
    case _ => ScalarDecodes(data, offset, bytes, v, depth);
  }

  lemma {:induction false} ArrayDecodes(data: Bytes, offset: nat, bytes: Bytes, v: Value, depth: nat)
    requires v.Array? && At(data, offset, bytes) && depth <= MAX_DEPTH && Encodes(bytes, v, MAX_DEPTH - depth)
    ensures var r := Decoding(data, offset, depth); r.value == Some(v) && r.offset == offset + |bytes|
    decreases v, 2
  {
    hide Items, Entries, AnyHead, ReadHead, EncodesItems, EncodesEntries, At, Joined;
    var count, levels := |v.items|, MAX_DEPTH - depth - 1;
    var head: Bytes, parts: seq<Bytes> :|
      AnyHead(head, 4, count) && EncodesItems(parts, v, levels) && bytes == head + Joined(parts);
    AtSplit(data, offset, head, Joined(parts));
    HeadFits(head, 4, count);
    HeadIsRead(data, offset, head, 4, count);
    PartsCount(parts, v, levels);
    PartsInside(data, offset + |head|, Joined(parts));
    ItemsDecode(data, offset + |head|, parts, v, count, depth + 1);
    assert parts[..count] == parts && v.items[..count] == v.items;
  }

  lemma PartsInside(data: Bytes, offset: nat, bytes: Bytes)
    requires At(data, offset, bytes)
    ensures offset + |bytes| <= |data|
  {
  }

  lemma {:induction false} MapDecodes(data: Bytes, offset: nat, bytes: Bytes, v: Value, depth: nat)
    requires v.Map? && At(data, offset, bytes) && depth <= MAX_DEPTH && Encodes(bytes, v, MAX_DEPTH - depth)
    ensures var r := Decoding(data, offset, depth); r.value == Some(v) && r.offset == offset + |bytes|
    decreases v, 2
  {
    hide Items, Entries, AnyHead, ReadHead, EncodesItems, EncodesEntries, At, Joined;
    var count, levels := |v.entries|, MAX_DEPTH - depth - 1;
    var head: Bytes, order: seq<Key>, parts: seq<Bytes> :|
      && AnyHead(head, 5, count) && Lists(order, v.entries.Keys) && EncodesEntries(parts, order, v, levels)
      && bytes == head + Joined(parts);
    AtSplit(data, offset, head, Joined(parts));
    HeadFits(head, 5, count);
    HeadIsRead(data, offset, head, 5, count);
    PartsInside(data, offset, head);
    AllEntriesDecode(data, offset + |head|, order, parts, v, depth + 1);
  }

  lemma {:induction false} TagDecodes(data: Bytes, offset: nat, bytes: Bytes, v: Value, depth: nat)
    requires v.Tag? && At(data, offset, bytes) && depth <= MAX_DEPTH && Encodes(bytes, v, MAX_DEPTH - depth)
    ensures var r := Decoding(data, offset, depth); r.value == Some(v) && r.offset == offset + |bytes|
    decreases v, 2
  {
    hide Items, Entries, AnyHead, ReadHead, EncodesItems, EncodesEntries, At, Joined;
    var head: Bytes, rest: Bytes :|
      AnyHead(head, 6, v.number) && Encodes(rest, v.content, MAX_DEPTH - depth - 1) && bytes == head + rest;
    AtSplit(data, offset, head, rest);
    HeadIsRead(data, offset, head, 6, v.number);
    EncodingDecodes(data, offset + |head|, rest, v.content, depth + 1);
  }

  lemma ScalarDecodes(data: Bytes, offset: nat, bytes: Bytes, v: Value, depth: nat)
    requires At(data, offset, bytes) && depth <= MAX_DEPTH && EncodesScalar(bytes, v)
    ensures var r := Decoding(data, offset, depth); r.value == Some(v) && r.offset == offset + |bytes|
  {
    hide Items, Entries, ReadHead, ValidText, AnyHead;
    match v
    case Null => OneByte(data, offset, bytes, 22);
    case Undefined => OneByte(data, offset, bytes, 23);
    case Boolean(b) => OneByte(data, offset, bytes, if b then 21 else 20);
    case Integer(n) =>
      HeadIsRead(data, offset, bytes, if n >= 0 then 0 else 1, if n >= 0 then n else -1 - n);
    case ByteString(b) => CountedDecodes(data, offset, bytes, 2, b, depth);
    case Text(b) => CountedDecodes(data, offset, bytes, 3, b, depth);
  }

  lemma OneByte(data: Bytes, offset: nat, bytes: Bytes, code: nat)
    requires code < 24 && bytes == [0xe0 + code] && At(data, offset, bytes)
    ensures ReadHead(data, offset) == HeadRead(Some(HeadParts(7, code, code)), offset + 1)
  {
    assert data[offset] == bytes[0];
  }

  lemma CountedDecodes(data: Bytes, offset: nat, bytes: Bytes, major: Major, b: Bytes, depth: nat)
    requires (major == 2 || major == 3) && At(data, offset, bytes) && depth <= MAX_DEPTH && Counted(bytes, major, b)
    requires major == 3 ==> ValidText(b)
    ensures var r := Decoding(data, offset, depth);
            && r.value == Some(if major == 2 then ByteString(b) else Text(b)) && r.offset == offset + |bytes|
  {
    hide Items, Entries, ReadHead, ValidText, AnyHead;
    var head: Bytes :| AnyHead(head, major, |b|) && bytes == head + b;
    AtSplit(data, offset, head, b);
    HeadFits(head, major, |b|);
    HeadIsRead(data, offset, head, major, |b|);
  }

  /** No encoding is empty, so there are bytes enough for what a head counts. */
  lemma EncodingNotEmpty(bytes: Bytes, v: Value, levels: int)
    requires Encodes(bytes, v, levels)
    ensures |bytes| >= 1
  {
    hide EncodesItems, EncodesEntries, ValidText;
  }

  lemma {:induction false} PartsCount(parts: seq<Bytes>, v: Value, levels: int)
    requires v.Array? && EncodesItems(parts, v, levels)
    ensures |Joined(parts)| >= |v.items| == |parts|
  {
    forall i | 0 <= i < |parts|
      ensures |parts[i]| >= 1
    {
      EncodingNotEmpty(parts[i], v.items[i], levels);
    }
    JoinedSize(parts, 1);
  }

  lemma {:induction false} JoinedSize(parts: seq<Bytes>, least: nat)
    requires forall i :: 0 <= i < |parts| ==> |parts[i]| >= least
    ensures |Joined(parts)| >= least * |parts|
  {
    if parts != [] {
      JoinedSize(parts[..|parts| - 1], least);
    }
  }

  /** A prefix of the parts comes first. */
  lemma {:induction false} JoinedPrefix(parts: seq<Bytes>, n: nat)
    requires n <= |parts|
    ensures Joined(parts[..n]) <= Joined(parts)
    decreases |parts|
  {
    if n < |parts| {
      JoinedPrefix(parts[..|parts| - 1], n);
      assert parts[..|parts| - 1][..n] == parts[..n];
    } else {
      assert parts[..n] == parts;
    }
  }

  /** The next part is found after those before it. */
  lemma NextPart(data: Bytes, offset: nat, parts: seq<Bytes>, n: nat)
    requires 0 < n <= |parts| && At(data, offset, Joined(parts))
    ensures Joined(parts[..n]) == Joined(parts[..n - 1]) + parts[n - 1]
    ensures At(data, offset + |Joined(parts[..n - 1])|, parts[n - 1])
  {
    var front := parts[..n - 1];
    assert parts[..n] == front + [parts[n - 1]];
    JoinedSnoc(front, parts[n - 1]);
    JoinedPrefix(parts, n);
    var all := Joined(parts);
    assert all == Joined(parts[..n]) + all[|Joined(parts[..n])|..];
    AtSplit(data, offset, Joined(parts[..n]), all[|Joined(parts[..n])|..]);
    AtSplit(data, offset, Joined(front), parts[n - 1]);
  }

  lemma {:induction false} ItemsDecode(data: Bytes, offset: nat, parts: seq<Bytes>, v: Value, n: nat, depth: nat)
    requires v.Array? && depth <= MAX_DEPTH + 1 && EncodesItems(parts, v, MAX_DEPTH - depth)
    requires At(data, offset, Joined(parts)) && n <= |parts|
    ensures var r := Items(data, offset, depth, n);
            r.ok && r.items == v.items[..n] && r.offset == offset + |Joined(parts[..n])|
    decreases v, 0, n
  {
    hide Encodes, Decoding, At, Joined;
    if n == 0 {
      NothingJoined(parts);
    } else {
      ItemsDecode(data, offset, parts, v, n - 1, depth);
      NextPart(data, offset, parts, n);
      PartInside(data, offset, parts, n - 1);
      EncodingDecodes(data, offset + |Joined(parts[..n - 1])|, parts[n - 1], v.items[n - 1], depth);
    }
  }

  lemma NothingJoined(parts: seq<Bytes>)
    ensures Joined(parts[..0]) == []
  {
  }

  lemma PartInside(data: Bytes, offset: nat, parts: seq<Bytes>, n: nat)
    requires n <= |parts| && At(data, offset, Joined(parts))
    ensures offset + |Joined(parts[..n])| <= |data|
  {
    JoinedPrefix(parts, n);
  }

  lemma {:induction false} AllEntriesDecode(data: Bytes, offset: nat, order: seq<Key>, parts: seq<Bytes>, v: Value,
                                            depth: nat)
    requires v.Map? && depth <= MAX_DEPTH + 1 && Lists(order, v.entries.Keys)
    requires EncodesEntries(parts, order, v, MAX_DEPTH - depth) && At(data, offset, Joined(parts))
    ensures var r := Entries(data, offset, depth, |v.entries|);
            r.ok && r.entries == v.entries && r.offset == offset + |Joined(parts)|
    ensures |v.entries| <= (|data| - offset) / 2
    decreases v, 1
  {
    hide EncodesEntry, Entries, Joined, FirstEntries, At, Lists;
    KeysCount(order, v);
    EntriesCount(parts, order, v, MAX_DEPTH - depth);
    PartsInside(data, offset, Joined(parts));
    EntriesDecode(data, offset, order, parts, v, |parts|, depth);
    assert parts[..|parts|] == parts;
    AllFirst(Entries(data, offset, depth, |parts|).entries, order, v);
  }

  lemma KeysCount(order: seq<Key>, v: Value)
    requires v.Map? && Lists(order, v.entries.Keys)
    ensures |order| == |v.entries| && NoKeyTwice(order)
  {
    ListsCount(order, v.entries.Keys);
    assert |v.entries| == |v.entries.Keys|;
  }

  lemma AllFirst(entries: map<Key, Value>, order: seq<Key>, v: Value)
    requires v.Map? && Lists(order, v.entries.Keys) && FirstEntries(entries, order, |order|, v)
    ensures entries == v.entries
  {
    assert order[..|order|] == order;
  }

  lemma EntriesCount(parts: seq<Bytes>, order: seq<Key>, v: Value, levels: int)
    requires v.Map? && EncodesEntries(parts, order, v, levels)
    ensures |Joined(parts)| >= 2 * |parts|
  {
    hide EncodesEntry;
    forall i | 0 <= i < |parts|
      ensures |parts[i]| >= 2
    {
      EntryNotEmpty(parts[i], order[i], v, levels);
    }
    JoinedSize(parts, 2);
  }

  lemma EntryNotEmpty(part: Bytes, k: Key, v: Value, levels: int)
    requires v.Map? && EncodesEntry(part, k, v, levels)
    ensures |part| >= 2
  {
    hide Encodes, ValidText;
    var key: Bytes, item: Bytes :| EncodesKey(key, k) && Encodes(item, v.entries[k], levels) && part == key + item;
    EncodingNotEmpty(item, v.entries[k], levels);
  }

  /** The first entries are those of the first keys. */
  ghost predicate FirstEntries(entries: map<Key, Value>, order: seq<Key>, n: nat, v: Value)
    requires v.Map? && n <= |order|
  {
    && (forall k :: k in entries <==> k in order[..n])
    && (forall k :: k in entries ==> k in v.entries && entries[k] == v.entries[k])
  }

  lemma {:induction false} EntriesDecode(data: Bytes, offset: nat, order: seq<Key>, parts: seq<Bytes>, v: Value, n: nat,
                                         depth: nat)
    requires v.Map? && depth <= MAX_DEPTH + 1 && NoKeyTwice(order)
    requires EncodesEntries(parts, order, v, MAX_DEPTH - depth)
    requires At(data, offset, Joined(parts)) && n <= |parts|
    ensures var r := Entries(data, offset, depth, n);
            r.ok && FirstEntries(r.entries, order, n, v) && r.offset == offset + |Joined(parts[..n])|
    decreases v, 0, n
  {
    hide Entries, EncodesEntry, EntryAfter, At, Joined, FirstEntries;
    PartInside(data, offset, parts, 0);
    if n == 0 {
      NothingJoined(parts);
      NoItems(data, offset, depth);
      assert FirstEntries(map[], order, 0, v) by {
        NoneFirst(order, v);
      }
    } else {
      EntriesDecode(data, offset, order, parts, v, n - 1, depth);
      var before := Entries(data, offset, depth, n - 1);
      EntriesStep(data, offset, depth, before, n - 1);
      NextPart(data, offset, parts, n);
      NotYet(before.entries, order, n - 1, v);
      EntryDecodes(data, before, parts[n - 1], order[n - 1], v, depth);
      OneMoreFirst(before.entries, order, n - 1, v);
    }
  }

  lemma NoneFirst(order: seq<Key>, v: Value)
    requires v.Map?
    ensures FirstEntries(map[], order, 0, v)
  {
  }

  lemma NotYet(entries: map<Key, Value>, order: seq<Key>, n: nat, v: Value)
    requires v.Map? && NoKeyTwice(order) && n < |order| && FirstEntries(entries, order, n, v)
    ensures order[n] !in entries
  {
    NewKey(order, n);
  }

  lemma OneMoreFirst(entries: map<Key, Value>, order: seq<Key>, n: nat, v: Value)
    requires v.Map? && NoKeyTwice(order) && n < |order| && FirstEntries(entries, order, n, v) && order[n] in v.entries
    ensures FirstEntries(entries[order[n] := v.entries[order[n]]], order, n + 1, v)
  {
    NewKey(order, n);
  }

  lemma NewKey(order: seq<Key>, n: nat)
    requires NoKeyTwice(order) && n < |order|
    ensures order[n] !in order[..n] && forall k :: k in order[..n + 1] <==> k in order[..n] || k == order[n]
  {
    assert order[..n + 1] == order[..n] + [order[n]];
    forall i | 0 <= i < n
      ensures order[..n][i] != order[n]
    {
      assert order[i] != order[n];
    }
  }

  lemma {:induction false} EntryDecodes(data: Bytes, before: EntriesOutcome, part: Bytes, k: Key, v: Value, depth: nat)
    requires v.Map? && depth <= MAX_DEPTH + 1 && before.offset <= |data| && k !in before.entries
    requires At(data, before.offset, part) && EncodesEntry(part, k, v, MAX_DEPTH - depth)
    ensures var r := EntryAfter(data, before, depth);
            && r.ok && r.offset == before.offset + |part|
            && k in v.entries && r.entries == before.entries[k := v.entries[k]]
    decreases v, 0, 0, 0
  {
    hide Decoding, Encodes, EncodesKey;
    var key: Bytes, item: Bytes :|
      EncodesKey(key, k) && Encodes(item, v.entries[k], MAX_DEPTH - depth) && part == key + item;
    AtSplit(data, before.offset, key, item);
    KeyDecodes(data, before.offset, key, k, depth);
    EncodingDecodes(data, before.offset + |key|, item, v.entries[k], depth);
  }

  lemma KeyDecodes(data: Bytes, offset: nat, key: Bytes, k: Key, depth: nat)
    requires At(data, offset, key) && EncodesKey(key, k) && depth <= MAX_DEPTH
    ensures var r := Decoding(data, offset, depth);
            r.value.Some? && AsKey(r.value.value) == Some(k) && r.offset == offset + |key|
  {
    hide Decoding, EncodesScalar;
    ScalarDecodes(data, offset, key, if k.Int64Key? then Integer(k.n) else Text(k.bytes), depth);
  }

  // ----- exactly -----

  /** At any offset and depth, the decoder returns a value and an offset if and
      only if the bytes between the offsets encode the value. */
  lemma DecodesIff(data: Bytes, offset: nat, depth: nat, v: Value, next: nat)
    requires offset <= |data| && depth <= MAX_DEPTH + 1
    ensures (Decoding(data, offset, depth).value == Some(v) && Decoding(data, offset, depth).offset == next)
            <==> offset <= next <= |data| && Encodes(data[offset..next], v, MAX_DEPTH - depth)
  {
    hide Decoding, Encodes;
    if Decoding(data, offset, depth).value == Some(v) {
      DecodingEncodes(data, offset, depth);
    }
    if offset <= next <= |data| && Encodes(data[offset..next], v, MAX_DEPTH - depth) {
      EncodingDecodes(data, offset, data[offset..next], v, depth);
    }
  }

  /** Decode returns a value if and only if all the data is an encoding of it. */
  lemma DecodeIff(data: Bytes, v: Value)
    ensures DecodedValue(data) == Some(v) <==> Encodes(data, v, 32)
  {
    hide Decoding, Encodes;
    DecodesIff(data, 0, 0, v, |data|);
    assert data[0..|data|] == data;
  }
}
