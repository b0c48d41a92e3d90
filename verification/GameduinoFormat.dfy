/**
 The packed format of libraries/Gameduino/GD.cpp written out, and its round trip: packing any legal list of items and
 parsing the bits of the bytes gives the items back.
 */
module GameduinoFormat {
  import opened Arithmetic
  import opened Gameduino
  import opened Wrappers

  /** A field of `n` bits, highest first. */
  function Field(v: nat, n: nat): (bits: seq<bool>)
    ensures |bits| == n
  {
    if n == 0 then [] else Field(v / 2, n - 1) + [v % 2 == 1]
  }

  lemma {:induction false} FieldValue(v: nat, n: nat)
    requires v < Pow2(n)
    ensures Value(Field(v, n)) == v
  {
    if n > 0 {
      FieldValue(v / 2, n - 1);
      assert Field(v, n)[..n - 1] == Field(v / 2, n - 1);
    }
  }

  /** What the fields of a header can express. */
  predicate LegalHeader(h: Header) {
    h.offsetBits < 16 && h.lengthBits < 16 && h.minLength < 4
  }

  predicate LegalItem(h: Header, item: Item) {
    match item
    case Literal(value) => value < 0x100
    case Copy(distance, length) =>
      1 <= distance <= Pow2(h.offsetBits) && h.minLength <= length < h.minLength + Pow2(h.lengthBits)
  }

  ghost predicate LegalItems(h: Header, items: seq<Item>) {
    forall i :: 0 <= i < |items| ==> LegalItem(h, items[i])
  }

  function ItemBits(h: Header, item: Item): seq<bool>
    requires LegalItem(h, item)
  {
    match item
    case Literal(value) => [false] + Field(value, 8)
    case Copy(distance, length) =>
      [true] + (Field(distance - 1, h.offsetBits) + Field(length - h.minLength, h.lengthBits))
  }

  function ItemsBits(h: Header, items: seq<Item>): seq<bool>
    requires LegalItems(h, items)
  {
    if items == [] then [] else ItemBits(h, items[0]) + ItemsBits(h, items[1..])
  }

  function HeaderBits(h: Header, count: nat): seq<bool> {
    Field(h.offsetBits, 4) + Field(h.lengthBits, 4) + Field(h.minLength, 2) + Field(count, 16)
  }

  lemma LiteralParses(h: Header, value: nat, rest: seq<bool>)
    requires value < 0x100
    ensures ParseItem(h, [false] + Field(value, 8) + rest) == Some((Literal(value), rest))
  {
    assert Pow2(4) == 0x10 && Pow2(6) == 0x40 && Pow2(8) == 0x100;
    FieldValue(value, 8);
    var left := Field(value, 8) + rest;
    assert [false] + Field(value, 8) + rest == [false] + left;
    ItemByTag([false] + left, false, left, h);
    assert left[..8] == Field(value, 8) && left[8..] == rest;
  }

  lemma CopyParses(h: Header, back: nat, more: nat, rest: seq<bool>)
    requires back < Pow2(h.offsetBits) && more < Pow2(h.lengthBits)
    ensures ParseItem(h, [true] + (Field(back, h.offsetBits) + Field(more, h.lengthBits)) + rest)
         == Some((Copy(back + 1, more + h.minLength), rest))
  {
    var f, g := Field(back, h.offsetBits), Field(more, h.lengthBits);
    FieldValue(back, h.offsetBits);
    FieldValue(more, h.lengthBits);
    var left := f + g + rest;
    assert [true] + (f + g) + rest == [true] + left;
    ItemByTag([true] + left, true, left, h);
    assert left[..|f|] == f && left[|f|..|f| + |g|] == g && left[|f| + |g|..] == rest;
  }

  lemma ItemParses(h: Header, item: Item, rest: seq<bool>)
    requires LegalItem(h, item)
    ensures ParseItem(h, ItemBits(h, item) + rest) == Some((item, rest))
  {
    match item
    case Literal(value) => LiteralParses(h, value, rest);
    case Copy(distance, length) => CopyParses(h, distance - 1, length - h.minLength, rest);
  }

  lemma {:induction false} ItemsParse(h: Header, items: seq<Item>, bits: seq<bool>, rest: seq<bool>)
    requires LegalItems(h, items) && bits == ItemsBits(h, items) + rest
    ensures ParseItems(h, bits, |items|) == Some((items, rest))
    decreases |items|
  {
    if items == [] {
      assert bits == rest;
    } else {
      var more := ItemsBits(h, items[1..]) + rest;
      assert bits == ItemBits(h, items[0]) + more;
      ItemParses(h, items[0], more);
      ItemsParse(h, items[1..], more, rest);
      assert [items[0]] + items[1..] == items;
    }
  }

  lemma HeaderPowers()
    ensures Pow2(2) == 4 && Pow2(4) == 0x10 && Pow2(16) == 0x1_0000
  {
    assert Pow2(6) == 0x40 && Pow2(8) == 0x100 && Pow2(10) == 0x400 && Pow2(12) == 0x1000 && Pow2(14) == 0x4000;
  }

  lemma HeaderParses(h: Header, count: nat, bits: seq<bool>, rest: seq<bool>)
    requires LegalHeader(h) && count < 0x1_0000 && bits == HeaderBits(h, count) + rest
    ensures |bits| >= 26 && ParseHeader(bits) == h && Value(bits[10..26]) == count && bits[26..] == rest
  {
    hide Pow2, Value, Field;
    HeaderPowers();
    FieldValue(h.offsetBits, 4);
    FieldValue(h.lengthBits, 4);
    FieldValue(h.minLength, 2);
    FieldValue(count, 16);
    assert bits[..4] == Field(h.offsetBits, 4) && bits[4..8] == Field(h.lengthBits, 4);
    assert bits[8..10] == Field(h.minLength, 2) && bits[10..26] == Field(count, 16);
  }

  lemma ParseFrom(bits: seq<bool>, h: Header, count: nat, body: seq<bool>, items: seq<Item>, rest: seq<bool>)
    requires |bits| >= 26 && ParseHeader(bits) == h && Value(bits[10..26]) == count && bits[26..] == body
    requires ParseItems(h, body, count) == Some((items, rest))
    ensures Parse(bits) == Some(Parsed(h, items, rest))
  {
  }

  lemma StreamParses(h: Header, items: seq<Item>, bits: seq<bool>, body: seq<bool>, rest: seq<bool>)
    requires LegalHeader(h) && LegalItems(h, items) && |items| < 0x1_0000
    requires bits == HeaderBits(h, |items|) + body && body == ItemsBits(h, items) + rest
    ensures Parse(bits) == Some(Parsed(h, items, rest))
  {
    HeaderParses(h, |items|, bits, body);
    ItemsParse(h, items, body, rest);
    ParseFrom(bits, h, |items|, body, items, rest);
  }

  // ----- Bytes -----

  function Bit(bits: seq<bool>, k: nat): bv8
    requires k < 8
  {
    if k < |bits| && bits[k] then MaskOf(k) else 0
  }

  /** A byte from up to eight bits, the first one lowest. */
  function ByteOf(bits: seq<bool>): bv8 {
    Bit(bits, 0) | Bit(bits, 1) | Bit(bits, 2) | Bit(bits, 3)
    | Bit(bits, 4) | Bit(bits, 5) | Bit(bits, 6) | Bit(bits, 7)
  }

  function BytesOf(bits: seq<bool>): seq<bv8> {
    if |bits| <= 8 then [ByteOf(bits)] else [ByteOf(bits[..8])] + BytesOf(bits[8..])
  }

  lemma ByteHasBits(bits: seq<bool>, k: nat)
    requires k < 8
    ensures ByteOf(bits) & MaskOf(k) != 0 <==> k < |bits| && bits[k]
  {
  }

  /** A bit of the later bytes. */
  lemma LaterBit(first: bv8, rest: seq<bv8>, k: nat)
    requires 8 <= k < 8 + 8 * |rest|
    ensures Bits([first] + rest)[k] == Bits(rest)[k - 8]
  {
    assert (k - 8) / 8 == k / 8 - 1 && (k - 8) % 8 == k % 8;
    assert ([first] + rest)[k / 8] == rest[k / 8 - 1];
  }

  /** The bytes carry the bits, padded with zeros. */
  lemma {:induction false} BytesHaveBits(bits: seq<bool>)
    ensures |bits| <= 8 * |BytesOf(bits)| && Bits(BytesOf(bits))[..|bits|] == bits
  {
    if |bits| > 8 {
      BytesHaveBits(bits[8..]);
    }
    forall k | 0 <= k < |bits| ensures Bits(BytesOf(bits))[k] == bits[k] {
      if k < 8 {
        ByteHasBits(if |bits| <= 8 then bits else bits[..8], k);
      } else {
        var later := bits[8..];
        LaterBit(ByteOf(bits[..8]), BytesOf(later), k);
        assert Bits(BytesOf(later))[..|later|][k - 8] == later[k - 8];
      }
    }
  }

  /** The bytes of a packed stream. */
  function Pack(h: Header, items: seq<Item>): seq<bv8>
    requires LegalItems(h, items)
  {
    BytesOf(HeaderBits(h, |items|) + ItemsBits(h, items))
  }

  /** What was packed is what the unpacker reads. */
  lemma PackParses(h: Header, items: seq<Item>)
    requires LegalHeader(h) && LegalItems(h, items) && |items| < 0x1_0000
    ensures var parsed := Parse(Bits(Pack(h, items)));
            parsed.Some? && parsed.value.header == h && parsed.value.items == items
  {
    hide HeaderBits, ItemsBits, BytesOf, Bits, Parse;
    var bits := HeaderBits(h, |items|) + ItemsBits(h, items);
    var all := Bits(BytesOf(bits));
    BytesHaveBits(bits);
    assert all == bits + all[|bits|..] by {
      assert all == all[..|bits|] + all[|bits|..];
    }
    StreamParses(h, items, all, ItemsBits(h, items) + all[|bits|..], all[|bits|..]);
  }

  // ----- Which bit is which -----

  /** The first bit of a field is worth the most. */
  lemma {:induction false} ValueByPlaces(bit: bool, rest: seq<bool>)
    ensures Value([bit] + rest) == (if bit then Pow2(|rest|) else 0) + Value(rest)
    decreases |rest|
  {
    var bits := [bit] + rest;
    if rest == [] {
      assert bits[..0] == [];
    } else {
      var last := |rest| - 1;
      ValueByPlaces(bit, rest[..last]);
      assert bits[..|bits| - 1] == [bit] + rest[..last];
    }
  }

  lemma ByteBit(b: bv8, k: nat)
    requires k < 8
    ensures b & MaskOf(k) != 0 <==> (b >> k) & 1 == 1
  {
  }

  /** The first bit of a byte is worth the least. */
  lemma BitsOfBytes(data: seq<bv8>, j: nat, k: nat)
    requires j < |data| && k < 8
    ensures Bits(data)[8 * j + k] <==> (data[j] >> k) & 1 == 1
  {
    hide MaskOf;
    ByteBit(data[j], k);
    assert (8 * j + k) / 8 == j && (8 * j + k) % 8 == k;
  }

  // ----- What is unpacked -----

  /** How many bytes the first i items unpack to. */
  function Place(items: seq<Item>, i: nat): nat
    requires i <= |items|
  {
    if i == 0 then 0 else ItemSize(items[0]) + Place(items[1..], i - 1)
  }

  /** The bytes from `at` on are those of the item: a literal is its value, and each byte of a copy is the one
      `distance` before it. */
  ghost predicate Shows(all: seq<nat>, at: nat, item: Item) {
    && at + ItemSize(item) <= |all|
    && match item
       case Literal(value) => all[at] == value
       case Copy(distance, length) =>
         1 <= distance <= at && forall j :: at <= j < at + length ==> all[j] == all[j - distance]
  }

  lemma {:induction false} ExpandGrows(history: seq<nat>, items: seq<Item>, limit: nat)
    requires Expandable(|history|, items, limit)
    ensures var all := Expand(history, items, limit);
      |all| == |history| + Place(items, |items|) && all[..|history|] == history
    decreases |items|
  {
    hide ItemBytes;
    if items == [] {
      assert history[..|history|] == history;
    } else {
      var more := history + ItemBytes(history, items[0]);
      ExpandGrows(more, items[1..], limit);
      assert more[..|history|] == history;
    }
  }

  lemma FirstShows(history: seq<nat>, item: Item, all: seq<nat>)
    requires item.Copy? ==> 1 <= item.distance <= |history|
    requires history + ItemBytes(history, item) <= all
    ensures Shows(all, |history|, item)
  {
    var more := history + ItemBytes(history, item);
    assert forall j :: 0 <= j < |more| ==> all[j] == more[j];
    match item
    case Literal(value) => assert more[|history|] == value;
    case Copy(distance, length) =>
      forall j | |history| <= j < |history| + length ensures all[j] == all[j - distance] {
        CopyLooksBack(history, distance, length, j - |history|);
      }
  }

  /** The expansion consists of what its items say, one after the other, behind what was there. */
  lemma {:induction false} ExpandMeans(history: seq<nat>, items: seq<Item>, limit: nat, i: nat)
    requires Expandable(|history|, items, limit) && i < |items|
    ensures Shows(Expand(history, items, limit), |history| + Place(items, i), items[i])
    decreases |items|
  {
    hide ItemBytes, Shows;
    var more := history + ItemBytes(history, items[0]);
    if i == 0 {
      ExpandGrows(more, items[1..], limit);
      FirstShows(history, items[0], Expand(history, items, limit));
    } else {
      ExpandMeans(more, items[1..], limit, i - 1);
    }
  }

  /** Unpacking what was packed: every item is there, and nothing else has changed. */
  lemma PackedUnpacks(h: Header, items: seq<Item>, before: seq<nat>, address: nat, after: seq<nat>)
    requires LegalHeader(h) && LegalItems(h, items) && |items| < 0x1_0000
    requires Uncompressed(before, address, Pack(h, items), after)
    ensures var end := address + Place(items, |items|);
      && |after| == |before| && end <= |before|
      && after[..address] == before[..address] && after[end..] == before[end..]
      && forall i :: 0 <= i < |items| ==> Shows(after, address + Place(items, i), items[i])
  {
    hide Bits, Parse, Pack, Place, Expand, Expandable, Shows;
    PackParses(h, items);
    var history := before[..address];
    var all := Expand(history, items, |before|);
    ExpandGrows(history, items, |before|);
    assert after[..address] == all[..address];
    forall i | 0 <= i < |items| ensures Shows(after, address + Place(items, i), items[i]) {
      ExpandMeans(history, items, |before|, i);
      ShowsLonger(all, after, address + Place(items, i), items[i]);
    }
  }

  lemma ShowsLonger(all: seq<nat>, after: seq<nat>, at: nat, item: Item)
    requires all <= after && Shows(all, at, item)
    ensures Shows(after, at, item)
  {
    assert forall j :: 0 <= j < |all| ==> after[j] == all[j];
  }

  /** What was packed can be unpacked, if every copy reaches back into what is there, and there is room. */
  lemma Unpacks(h: Header, items: seq<Item>, length: nat, limit: nat)
    requires LegalHeader(h) && LegalItems(h, items) && |items| < 0x1_0000
    ensures Parse(Bits(Pack(h, items))).Some?
    ensures Expandable(length, Parse(Bits(Pack(h, items))).value.items, limit) <==>
      && length + Place(items, |items|) <= limit
      && forall i :: 0 <= i < |items| && items[i].Copy? ==> 1 <= items[i].distance <= length + Place(items, i)
  {
    hide Bits, Parse, Pack, Expandable;
    PackParses(h, items);
    ExpandableMeans(length, items, limit);
  }

  lemma {:induction false} ExpandableMeans(length: nat, items: seq<Item>, limit: nat)
    ensures Expandable(length, items, limit) <==>
      && length + Place(items, |items|) <= limit
      && forall i :: 0 <= i < |items| && items[i].Copy? ==> 1 <= items[i].distance <= length + Place(items, i)
    decreases |items|
  {
    if items != [] {
      var rest, n := items[1..], ItemSize(items[0]);
      ExpandableMeans(length + n, rest, limit);
      assert forall i :: 0 < i <= |items| ==> Place(items, i) == n + Place(rest, i - 1);
      if Expandable(length, items, limit) {
        forall i | 0 <= i < |items| && items[i].Copy? ensures 1 <= items[i].distance <= length + Place(items, i) {
          if i > 0 {
            assert items[i] == rest[i - 1];
          }
        }
      } else if length + Place(items, |items|) <= limit {
        if items[0].Copy? ==> 1 <= items[0].distance <= length {
          var i :| 0 <= i < |rest| && rest[i].Copy? && !(1 <= rest[i].distance <= length + n + Place(rest, i));
          assert items[i + 1] == rest[i];
        } else {
          assert Place(items, 0) == 0;
        }
      }
    }
  }
}
