/** The decoder of pkg/cbor/cbor.go:160-380, as functions of the input and an
    offset, and the bounds that hold on every input. */
module CborDecoding {
  import opened Wrappers
  import opened ByteOrder
  import opened Utf8
  import opened CborValues

  const MAX_DEPTH: nat := 32

  /** A major type, its argument and additional information, or nothing; and the next offset. */
  datatype HeadRead = HeadRead(head: Option<HeadParts>, next: nat)

  type Major = m: int | 0 <= m < 8

  datatype HeadParts = HeadParts(major: Major, argument: Uint64, info: nat)

  /** How many bytes of argument an additional information from 24 to 27 announces. */
  function CodeSize(info: nat): nat
    requires 24 <= info <= 27
  {
    if info == 24 then 1 else if info == 25 then 2 else if info == 26 then 4 else 8
  }

  lemma ArgumentFits(b: Bytes)
    requires |b| in {1, 2, 4, 8}
    ensures 0 <= FromBigEndian(b) < TWO_64
  {
    FromBigEndianBound(b);
    Powers256();
  }

  function ReadHead(data: Bytes, offset: nat): (r: HeadRead)
    requires offset <= |data|
    ensures offset <= r.next <= |data|
    ensures r.head.Some? ==> r.next > offset
  {
    if offset >= |data| then HeadRead(None, offset)
    else
      var major, info := data[offset] / 32, data[offset] % 32;
      if info < 24 then HeadRead(Some(HeadParts(major, info, info)), offset + 1)
      else if info > 27 then HeadRead(None, offset + 1)
      else
        var size := CodeSize(info);
        if offset + 1 + size > |data| then HeadRead(None, offset + 1)
        else
          var bytes := data[offset + 1..offset + 1 + size];
          ArgumentFits(bytes);
          HeadRead(Some(HeadParts(major, FromBigEndian(bytes), info)), offset + 1 + size)
  }

  /** What decoding one value does: the value unless it fails, the offset it
      reaches, and how many slots it has allocated for arrays and maps. */
  datatype Outcome = Outcome(value: Option<Value>, offset: nat, slots: nat)

  datatype ItemsOutcome = ItemsOutcome(items: seq<Value>, ok: bool, offset: nat, slots: nat)

  datatype EntriesOutcome = EntriesOutcome(entries: map<Key, Value>, ok: bool, offset: nat, slots: nat)

  /** The key that a decoded value is, if it can be one. */
  function AsKey(v: Value): Option<Key> {
    match v
    case Integer(n) => Some(Int64Key(n))
    case Text(b) => Some(TextKey(b))
    case _ => None
  }

  function Decoding(data: Bytes, offset: nat, depth: nat): (r: Outcome)
    requires offset <= |data| && depth <= MAX_DEPTH + 1
    ensures offset <= r.offset <= |data|
    ensures r.value.Some? ==> r.offset > offset
    decreases MAX_DEPTH + 1 - depth, 0
  {
    if depth > MAX_DEPTH then Outcome(None, offset, 0)
    else
      var read := ReadHead(data, offset);
      if read.head.None? then Outcome(None, read.next, 0)
      else
        var major, argument := read.head.value.major, read.head.value.argument;
        if major == 0 then Outcome(if argument < TWO_63 then Some(Integer(argument)) else None, read.next, 0)
        else if major == 1 then Outcome(if argument < TWO_63 then Some(Integer(-1 - argument)) else None, read.next, 0)
        else if major == 2 || major == 3 then DecodingString(data, read.next, major, argument)
        else if major == 4 then
          if argument > |data| - read.next then Outcome(None, read.next, 0)
          else
            var r := Items(data, read.next, depth + 1, argument);
            Outcome(if r.ok then Some(Array(r.items)) else None, r.offset, argument + r.slots)
        else if major == 5 then
          if argument > (|data| - read.next) / 2 then Outcome(None, read.next, 0)
          else
            var r := Entries(data, read.next, depth + 1, argument);
            Outcome(if r.ok then Some(Map(r.entries)) else None, r.offset, argument + r.slots)
        else if major == 6 then
          var r := Decoding(data, read.next, depth + 1);
          r.(value := if r.value.Some? then Some(Tag(argument, r.value.value)) else None)
        else Outcome(if read.head.value.info >= 24 then None else SimpleValue(argument), read.next, 0)
  }

  function SimpleValue(argument: Uint64): Option<Value> {
    if argument == 20 then Some(Boolean(false))
    else if argument == 21 then Some(Boolean(true))
    else if argument == 22 then Some(Null)
    else if argument == 23 then Some(Undefined)
    else None
  }

  /** A byte string or a text string. */
  function DecodingString(data: Bytes, offset: nat, major: Major, length: Uint64): (r: Outcome)
    requires offset <= |data|
    ensures offset <= r.offset <= |data| && r.slots == 0
  {
    if length > |data| - offset then Outcome(None, offset, 0)
    else
      var end := offset + length;
      var bytes := data[offset..end];
      if major == 2 then Outcome(Some(ByteString(bytes)), end, 0)
      else Outcome(if ValidText(bytes) then Some(Text(bytes)) else None, end, 0)
  }

  /** The first items of an array, up to a failure. */
  function Items(data: Bytes, offset: nat, depth: nat, count: nat): (r: ItemsOutcome)
    requires offset <= |data| && depth <= MAX_DEPTH + 1
    ensures offset <= r.offset <= |data|
    ensures r.ok ==> |r.items| == count && r.offset >= offset + count
    decreases MAX_DEPTH + 1 - depth, 1, count
  {
    if count == 0 then ItemsOutcome([], true, offset, 0)
    else
      var before := Items(data, offset, depth, count - 1);
      if !before.ok then before
      else
        var item := Decoding(data, before.offset, depth);
        ItemsOutcome(before.items + (if item.value.Some? then [item.value.value] else []), item.value.Some?,
                     item.offset, before.slots + item.slots)
  }

  /** The first entries of a map, up to a failure. */
  function Entries(data: Bytes, offset: nat, depth: nat, count: nat): (r: EntriesOutcome)
    requires offset <= |data| && depth <= MAX_DEPTH + 1
    ensures offset <= r.offset <= |data|
    ensures r.ok ==> |r.entries| == count && r.offset >= offset + 2 * count
    decreases MAX_DEPTH + 1 - depth, 1, count
  {
    if count == 0 then EntriesOutcome(map[], true, offset, 0)
    else
      var before := Entries(data, offset, depth, count - 1);
      if !before.ok then before else EntryAfter(data, before, depth)
  }

  function EntryAfter(data: Bytes, before: EntriesOutcome, depth: nat): (r: EntriesOutcome)
    requires before.offset <= |data| && depth <= MAX_DEPTH + 1
    ensures before.offset <= r.offset <= |data|
    ensures r.ok ==> |r.entries| == |before.entries| + 1 && r.offset >= before.offset + 2
    decreases MAX_DEPTH + 1 - depth, 1, 0
  {
    var key := Decoding(data, before.offset, depth);
    if key.value.None? || AsKey(key.value.value).None? || AsKey(key.value.value).value in before.entries then
      EntriesOutcome(before.entries, false, key.offset, before.slots + key.slots)
    else
      var item := Decoding(data, key.offset, depth);
      var slots := before.slots + key.slots + item.slots;
      if item.value.None? then EntriesOutcome(before.entries, false, item.offset, slots)
      else EntriesOutcome(before.entries[AsKey(key.value.value).value := item.value.value], true, item.offset, slots)
  }

  // ----- one step -----

  lemma NoItems(data: Bytes, offset: nat, depth: nat)
    requires offset <= |data| && depth <= MAX_DEPTH + 1
    ensures Items(data, offset, depth, 0) == ItemsOutcome([], true, offset, 0)
    ensures Entries(data, offset, depth, 0) == EntriesOutcome(map[], true, offset, 0)
  {
  }

  lemma ItemsStep(data: Bytes, offset: nat, depth: nat, before: ItemsOutcome, item: Outcome, count: nat)
    requires offset <= |data| && depth <= MAX_DEPTH + 1
    requires before == Items(data, offset, depth, count) && before.ok && item == Decoding(data, before.offset, depth)
    ensures Items(data, offset, depth, count + 1)
         == ItemsOutcome(before.items + (if item.value.Some? then [item.value.value] else []), item.value.Some?,
                         item.offset, before.slots + item.slots)
  {
  }

  lemma EntriesStep(data: Bytes, offset: nat, depth: nat, before: EntriesOutcome, count: nat)
    requires offset <= |data| && depth <= MAX_DEPTH + 1
    requires before == Entries(data, offset, depth, count) && before.ok
    ensures Entries(data, offset, depth, count + 1) == EntryAfter(data, before, depth)
  {
  }

  // ----- a failure is final -----

  lemma {:induction false} ItemsStuck(data: Bytes, offset: nat, depth: nat, count: nat, all: nat)
    requires offset <= |data| && depth <= MAX_DEPTH + 1 && count <= all
    requires !Items(data, offset, depth, count).ok
    ensures Items(data, offset, depth, all) == Items(data, offset, depth, count)
  {
    if count < all {
      ItemsStuck(data, offset, depth, count, all - 1);
    }
  }

  lemma {:induction false} EntriesStuck(data: Bytes, offset: nat, depth: nat, count: nat, all: nat)
    requires offset <= |data| && depth <= MAX_DEPTH + 1 && count <= all
    requires !Entries(data, offset, depth, count).ok
    ensures Entries(data, offset, depth, all) == Entries(data, offset, depth, count)
  {
    if count < all {
      EntriesStuck(data, offset, depth, count, all - 1);
    }
  }

  // ----- how much is allocated -----

  /** No more slots than levels for every byte. */
  predicate Bounded(slots: nat, levels: nat, bytes: nat) {
    slots <= levels * bytes
  }

  lemma {:induction false} Looser(slots: nat, levels: nat, bytes: nat, more: nat)
    requires Bounded(slots, levels, bytes) && bytes <= more
    ensures Bounded(slots, levels, more)
  {
    Product(levels, bytes, more);
  }

  lemma {:induction false} Product(k: nat, a: nat, b: nat)
    requires a <= b
    ensures k * a <= k * b
  {
    if k > 0 {
      Product(k - 1, a, b);
      assert k * a == (k - 1) * a + a && k * b == (k - 1) * b + b;
    }
  }

  lemma OneLevelMore(argument: nat, slots: nat, levels: nat, inner: nat, outer: nat)
    requires Bounded(slots, levels, inner) && argument <= inner <= outer
    ensures Bounded(argument + slots, levels + 1, outer)
  {
    Product(levels, inner, outer);
    assert (levels + 1) * outer == levels * outer + outer;
  }

  lemma Together(s: nat, t: nat, levels: nat, a: nat, b: nat)
    requires Bounded(s, levels, a) && Bounded(t, levels, b)
    ensures Bounded(s + t, levels, a + b)
  {
    assert levels * (a + b) == levels * a + levels * b;
  }

  lemma NoSlots(levels: nat, bytes: nat)
    ensures Bounded(0, levels, bytes)
  {
    Product(levels, 0, bytes);
    assert levels * 0 == 0;
  }

  function Levels(depth: nat): nat
    requires depth <= MAX_DEPTH + 1
  {
    MAX_DEPTH + 1 - depth
  }

  /** The slots of a value, and of a failure, by the bytes it could read. */
  lemma {:induction false} SlotsBound(data: Bytes, offset: nat, depth: nat)
    requires offset <= |data| && depth <= MAX_DEPTH + 1
    ensures var r := Decoding(data, offset, depth);
            Bounded(r.slots, Levels(depth), if r.value.Some? then r.offset - offset else |data| - offset)
    decreases MAX_DEPTH + 1 - depth, 0
  {
    hide Bounded, DecodingString, SimpleValue, ReadHead, Items, Entries;
    var r := Decoding(data, offset, depth);
    NoSlots(Levels(depth), if r.value.Some? then r.offset - offset else |data| - offset);
    if depth <= MAX_DEPTH && ReadHead(data, offset).head.Some? {
      var next := ReadHead(data, offset).next;
      var major, argument := ReadHead(data, offset).head.value.major, ReadHead(data, offset).head.value.argument;
      if major == 4 && argument <= |data| - next {
        ArraySlots(data, offset, next, depth, argument);
      } else if major == 5 && argument <= (|data| - next) / 2 {
        MapSlots(data, offset, next, depth, argument);
      } else if major == 6 {
        TagSlots(data, offset, next, depth);
      }
    }
  }

  lemma {:induction false} ArraySlots(data: Bytes, offset: nat, next: nat, depth: nat, argument: nat)
    requires offset <= next <= |data| && depth <= MAX_DEPTH && argument <= |data| - next
    ensures var r := Items(data, next, depth + 1, argument);
            Bounded(argument + r.slots, Levels(depth), if r.ok then r.offset - offset else |data| - offset)
    decreases MAX_DEPTH + 1 - depth, 0, 0
  {
    hide Bounded, Items;
    var r := Items(data, next, depth + 1, argument);
    ItemsSlots(data, next, depth + 1, argument);
    var end := if r.ok then r.offset else |data|;
    OneLevelMore(argument, r.slots, Levels(depth + 1), end - next, end - offset);
  }

  lemma {:induction false} MapSlots(data: Bytes, offset: nat, next: nat, depth: nat, argument: nat)
    requires offset <= next <= |data| && depth <= MAX_DEPTH && argument <= (|data| - next) / 2
    ensures var r := Entries(data, next, depth + 1, argument);
            Bounded(argument + r.slots, Levels(depth), if r.ok then r.offset - offset else |data| - offset)
    decreases MAX_DEPTH + 1 - depth, 0, 0
  {
    hide Bounded, Entries;
    var r := Entries(data, next, depth + 1, argument);
    EntriesSlots(data, next, depth + 1, argument);
    var end := if r.ok then r.offset else |data|;
    OneLevelMore(argument, r.slots, Levels(depth + 1), end - next, end - offset);
  }

  lemma {:induction false} TagSlots(data: Bytes, offset: nat, next: nat, depth: nat)
    requires offset <= next <= |data| && depth <= MAX_DEPTH
    ensures var r := Decoding(data, next, depth + 1);
            Bounded(r.slots, Levels(depth), if r.value.Some? then r.offset - offset else |data| - offset)
    decreases MAX_DEPTH + 1 - depth, 0, 0
  {
    hide Bounded, Decoding;
    var r := Decoding(data, next, depth + 1);
    SlotsBound(data, next, depth + 1);
    var end := if r.value.Some? then r.offset else |data|;
    OneLevelMore(0, r.slots, Levels(depth + 1), end - next, end - offset);
  }

  lemma {:induction false} ItemsSlots(data: Bytes, offset: nat, depth: nat, count: nat)
    requires offset <= |data| && depth <= MAX_DEPTH + 1
    ensures var r := Items(data, offset, depth, count);
            Bounded(r.slots, Levels(depth), if r.ok then r.offset - offset else |data| - offset)
    decreases MAX_DEPTH + 1 - depth, 1, count
  {
    hide Bounded, Decoding;
    if count == 0 {
      NoSlots(Levels(depth), 0);
    } else {
      var before := Items(data, offset, depth, count - 1);
      ItemsSlots(data, offset, depth, count - 1);
      if before.ok {
        var item := Decoding(data, before.offset, depth);
        SlotsBound(data, before.offset, depth);
        Together(before.slots, item.slots, Levels(depth), before.offset - offset,
                 if item.value.Some? then item.offset - before.offset else |data| - before.offset);
      }
    }
  }

  lemma {:induction false} EntriesSlots(data: Bytes, offset: nat, depth: nat, count: nat)
    requires offset <= |data| && depth <= MAX_DEPTH + 1
    ensures var r := Entries(data, offset, depth, count);
            Bounded(r.slots, Levels(depth), if r.ok then r.offset - offset else |data| - offset)
    decreases MAX_DEPTH + 1 - depth, 1, count
  {
    hide Bounded, EntryAfter;
    if count == 0 {
      NoSlots(Levels(depth), 0);
    } else {
      var before := Entries(data, offset, depth, count - 1);
      EntriesSlots(data, offset, depth, count - 1);
      if before.ok {
        EntrySlots(data, offset, before, depth);
      }
    }
  }

  lemma {:induction false} EntrySlots(data: Bytes, offset: nat, before: EntriesOutcome, depth: nat)
    requires offset <= before.offset <= |data| && depth <= MAX_DEPTH + 1
    requires Bounded(before.slots, Levels(depth), before.offset - offset)
    ensures var r := EntryAfter(data, before, depth);
            Bounded(r.slots, Levels(depth), if r.ok then r.offset - offset else |data| - offset)
    decreases MAX_DEPTH + 1 - depth, 1, 0
  {
    hide Bounded, Decoding, AsKey;
    var key := Decoding(data, before.offset, depth);
    SlotsBound(data, before.offset, depth);
    var reached := if key.value.Some? then key.offset else |data|;
    Together(before.slots, key.slots, Levels(depth), before.offset - offset, reached - before.offset);
    Looser(before.slots + key.slots, Levels(depth), reached - offset, |data| - offset);
    if key.value.Some? {
      var item := Decoding(data, key.offset, depth);
      SlotsBound(data, key.offset, depth);
      var end := if item.value.Some? then item.offset else |data|;
      Together(before.slots + key.slots, item.slots, Levels(depth), key.offset - offset, end - key.offset);
    }
  }

  /** On every input, accepted or not, the slots allocated for arrays and maps
      are at most one more than the depth limit for every byte. */
  lemma AllocationBound(data: Bytes)
    ensures Decoding(data, 0, 0).slots <= (MAX_DEPTH + 1) * |data|
  {
    hide Decoding;
    SlotsBound(data, 0, 0);
    var r := Decoding(data, 0, 0);
    Looser(r.slots, Levels(0), if r.value.Some? then r.offset else |data|, |data|);
  }

  // ----- the program -----

  class Decoder {
    const data: Bytes
    var offset: nat
    ghost var slots: nat

    ghost predicate Valid()
      reads this
    {
      offset <= |data|
    }

    constructor (data: Bytes)
      ensures Valid() && this.data == data && offset == 0 && slots == 0
    {
      this.data, this.offset, this.slots := data, 0, 0;
    }

    method ReadTypeAndArgument() returns (head: Option<HeadParts>)
      requires Valid()
      modifies this
      ensures Valid() && slots == old(slots)
      ensures HeadRead(head, offset) == ReadHead(data, old(offset))
    {
      if offset >= |data| {
        return None;
      }
      var initialByte := data[offset];
      offset := offset + 1;
      var majorType, additionalInformation := initialByte / 32, initialByte % 32;
      if additionalInformation < 24 {
        return Some(HeadParts(majorType, additionalInformation, additionalInformation));
      }
      if additionalInformation == 31 {
        return None;
      }
      if additionalInformation > 27 {
        return None;
      }
      var argumentSize := CodeSize(additionalInformation);
      if offset + argumentSize > |data| {
        return None;
      }
      var bytes := data[offset..offset + argumentSize];
      ArgumentFits(bytes);
      var argument: nat := 0;
      for n := 0 to argumentSize
        invariant argument == FromBigEndian(bytes[..n])
      {
        argument := argument * 256 + bytes[n];
        assert bytes[..n + 1][..n] == bytes[..n];
      }
      assert bytes[..argumentSize] == bytes;
      offset := offset + argumentSize;
      return Some(HeadParts(majorType, argument, additionalInformation));
    }

    /** The next bytes of the input. */
    method ReadSlice(length: Uint64) returns (slice: Option<Bytes>)
      requires Valid()
      modifies this
      ensures Valid() && slots == old(slots)
      ensures slice.None? <==> length > |data| - old(offset)
      ensures slice.None? ==> offset == old(offset)
      ensures slice.Some? ==> offset == old(offset) + length && slice.value == data[old(offset)..offset]
    {
      if length > |data| - offset {
        return None;
      }
      var end := offset + length;
      slice := Some(data[offset..end]);
      offset := end;
    }

    method DecodeValue(depth: nat) returns (value: Option<Value>)
      requires Valid() && depth <= MAX_DEPTH + 1
      modifies this
      ensures Valid() && slots >= old(slots)
      ensures Outcome(value, offset, slots - old(slots)) == Decoding(data, old(offset), depth)
      decreases MAX_DEPTH + 1 - depth, 0
    {
      hide ReadHead, Items, Entries, ValidText, SimpleValue;
      if depth > MAX_DEPTH {
        return None;
      }
      var head := ReadTypeAndArgument();
      if head.None? {
        return None;
      }
      var argument := head.value.argument;
      match head.value.major {
        case 0 =>
          if argument >= TWO_63 {
            return None;
          }
          return Some(Integer(argument));
        case 1 =>
          if argument >= TWO_63 {
            return None;
          }
          return Some(Integer(-1 - argument));
        case 2 =>
          var bytes := ReadSlice(argument);
          return if bytes.None? then None else Some(ByteString(bytes.value));
        case 3 =>
          var bytes := ReadSlice(argument);
          if bytes.None? || !ValidText(bytes.value) {
            return None;
          }
          return Some(Text(bytes.value));
        case 4 =>
          if argument > |data| - offset {
            return None;
          }
          value := DecodeArray(argument, depth);
        case 5 =>
          if argument > (|data| - offset) / 2 {
            return None;
          }
          value := DecodeMap(argument, depth);
        case 6 =>
          var content := DecodeValue(depth + 1);
          return if content.None? then None else Some(Tag(argument, content.value));
        case _ =>
          if head.value.info >= 24 {
            return None;
          }
          return SimpleValue(argument);
      }
    }

    method DecodeArray(argument: Uint64, depth: nat) returns (value: Option<Value>)
      requires Valid() && depth <= MAX_DEPTH
      modifies this
      ensures Valid()
      ensures var r := Items(data, old(offset), depth + 1, argument);
              && value == (if r.ok then Some(Array(r.items)) else None)
              && offset == r.offset && slots == old(slots) + argument + r.slots
      decreases MAX_DEPTH + 1 - depth, 0, 1
    {
      hide Items, Entries, EntryAfter, Decoding;
      ghost var start, before := offset, slots + argument;
      slots := before;
      var items: seq<Value> := [];
      NoItems(data, start, depth + 1);
      for n := 0 to argument
        invariant Valid() && slots >= before && |items| == n
        invariant ItemsOutcome(items, true, offset, slots - before) == Items(data, start, depth + 1, n)
      {
        var item := DecodeItem(items, depth, start, before);
        if item.None? {
          ItemsStuck(data, start, depth + 1, n + 1, argument);
          return None;
        }
        items := items + [item.value];
      }
      return Some(Array(items));
    }

    method DecodeItem(items: seq<Value>, depth: nat, ghost start: nat, ghost before: nat) returns (item: Option<Value>)
      requires Valid() && depth <= MAX_DEPTH && slots >= before && start <= |data|
      requires ItemsOutcome(items, true, offset, slots - before) == Items(data, start, depth + 1, |items|)
      modifies this
      ensures Valid() && slots >= before
      ensures ItemsOutcome(items + (if item.Some? then [item.value] else []), item.Some?, offset, slots - before)
           == Items(data, start, depth + 1, |items| + 1)
      decreases MAX_DEPTH + 1 - depth, 0, 0
    {
      hide *;
      ghost var o, s := offset, slots;
      item := DecodeValue(depth + 1);
      ItemsStep(data, start, depth + 1, ItemsOutcome(items, true, o, s - before), Outcome(item, offset, slots - s),
                |items|);
    }

    method DecodeMap(argument: Uint64, depth: nat) returns (value: Option<Value>)
      requires Valid() && depth <= MAX_DEPTH
      modifies this
      ensures Valid()
      ensures var r := Entries(data, old(offset), depth + 1, argument);
              && value == (if r.ok then Some(Map(r.entries)) else None)
              && offset == r.offset && slots == old(slots) + argument + r.slots
      decreases MAX_DEPTH + 1 - depth, 0, 1
    {
      hide Items, Entries, EntryAfter, Decoding;
      ghost var start, before := offset, slots + argument;
      slots := before;
      var entries: map<Key, Value> := map[];
      NoItems(data, start, depth + 1);
      for n := 0 to argument
        invariant Valid() && slots >= before
        invariant EntriesOutcome(entries, true, offset, slots - before) == Entries(data, start, depth + 1, n)
      {
        EntriesStep(data, start, depth + 1, EntriesOutcome(entries, true, offset, slots - before), n);
        var ok: bool;
        entries, ok := DecodeEntry(entries, depth, before);
        if !ok {
          EntriesStuck(data, start, depth + 1, n + 1, argument);
          return None;
        }
      }
      return Some(Map(entries));
    }

    method DecodeEntry(entries: map<Key, Value>, depth: nat, ghost before: nat)
      returns (next: map<Key, Value>, ok: bool)
      requires Valid() && depth <= MAX_DEPTH && slots >= before
      modifies this
      ensures Valid() && slots >= before
      ensures EntriesOutcome(next, ok, offset, slots - before)
           == EntryAfter(data, EntriesOutcome(entries, true, old(offset), old(slots) - before), depth + 1)
      decreases MAX_DEPTH + 1 - depth, 0, 0
    {
      hide Decoding, AsKey;
      var key := DecodeValue(depth + 1);
      if key.None? || AsKey(key.value).None? || AsKey(key.value).value in entries {
        return entries, false;
      }
      var item := DecodeValue(depth + 1);
      if item.None? {
        return entries, false;
      }
      return entries[AsKey(key.value).value := item.value], true;
    }
  }

  /** What the bytes decode to, trailing data refused. */
  function DecodedValue(data: Bytes): Option<Value> {
    var r := Decoding(data, 0, 0);
    if r.offset == |data| then r.value else None
  }

  method Decode(data: Bytes) returns (value: Option<Value>)
    ensures value == DecodedValue(data)
  {
    var parser := new Decoder(data);
    value := parser.DecodeValue(0);
    if value.None? {
      return None;
    }
    if parser.offset != |data| {
      return None;
    }
  }

  /** The first value of the data, and the bytes that follow it. */
  method DecodeFirst(data: Bytes) returns (value: Option<Value>, rest: Bytes)
    ensures value == Decoding(data, 0, 0).value
    ensures value.Some? ==> rest == data[Decoding(data, 0, 0).offset..]
  {
    var parser := new Decoder(data);
    value := parser.DecodeValue(0);
    rest := if value.None? then [] else data[parser.offset..];
  }
}
