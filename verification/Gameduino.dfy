/**
 The unpacker of libraries/Gameduino/GD.cpp: the bit reader GDflashbits and `uncompress`.

 A packed stream is a sequence of bytes in program memory; the reader takes their bits lowest first. A field is a
 number whose bits come highest first.
 */
module Gameduino {
  import opened Arithmetic
  import opened Wrappers

  // ----- Bits -----

  /** The mask 1 << k of an eight-bit byte. */
  function MaskOf(k: nat): bv8
    requires k < 8
  {
    match k
    case 0 => 0x01 case 1 => 0x02 case 2 => 0x04 case 3 => 0x08
    case 4 => 0x10 case 5 => 0x20 case 6 => 0x40 case 7 => 0x80
  }

  function BitAt(data: seq<bv8>, k: nat): bool
    requires k < 8 * |data|
  {
    data[k / 8] & MaskOf(k % 8) != 0
  }

  /** All bits of the stream in the order in which they are read. */
  function Bits(data: seq<bv8>): (bits: seq<bool>)
    ensures |bits| == 8 * |data|
  {
    seq(8 * |data|, k requires 0 <= k < 8 * |data| => BitAt(data, k))
  }

  /** The number whose bits, highest first, are these. */
  function Value(bits: seq<bool>): nat {
    if bits == [] then 0
    else 2 * Value(bits[..|bits| - 1]) + if bits[|bits| - 1] then 1 else 0
  }

  lemma {:induction false} ValueBound(bits: seq<bool>)
    ensures Value(bits) < Pow2(|bits|)
  {
    if bits != [] {
      ValueBound(bits[..|bits| - 1]);
    }
  }

  lemma {:induction false} Pow2Monotone(a: nat, b: nat)
    requires a <= b
    ensures Pow2(a) <= Pow2(b)
  {
    if a < b {
      Pow2Monotone(a, b - 1);
    }
  }

  lemma ShortField(bits: seq<bool>)
    requires |bits| <= 16
    ensures Value(bits) < 0x1_0000
  {
    ValueBound(bits);
    Pow2Monotone(|bits|, 16);
    assert Pow2(4) == 0x10 && Pow2(6) == 0x40 && Pow2(8) == 0x100 && Pow2(10) == 0x400;
    assert Pow2(12) == 0x1000 && Pow2(14) == 0x4000 && Pow2(16) == 0x1_0000;
  }

  // ----- The packed format -----

  /** An item of a packed stream: a byte, or a copy of `length` bytes from `distance` bytes back. */
  datatype Item = Literal(value: nat) | Copy(distance: nat, length: nat)

  datatype Header = Header(offsetBits: nat, lengthBits: nat, minLength: nat)

  /** What is packed, with the bits that follow it. */
  datatype Parsed = Parsed(header: Header, items: seq<Item>, rest: seq<bool>)

  function ParseItem(h: Header, bits: seq<bool>): Option<(Item, seq<bool>)> {
    if bits == [] then None
    else if !bits[0] then
      if |bits| < 9 then None else Some((Literal(Value(bits[1..9])), bits[9..]))
    else
      var a := 1 + h.offsetBits;
      var b := a + h.lengthBits;
      if |bits| < b then None
      else Some((Copy(Value(bits[1..a]) + 1, Value(bits[a..b]) + h.minLength), bits[b..]))
  }

  function ParseItems(h: Header, bits: seq<bool>, n: nat): Option<(seq<Item>, seq<bool>)> {
    if n == 0 then Some(([], bits))
    else
      match ParseItem(h, bits)
      case None => None
      case Some((item, rest)) =>
        match ParseItems(h, rest, n - 1)
        case None => None
        case Some((items, rest')) => Some(([item] + items, rest'))
  }

  function ParseHeader(bits: seq<bool>): Header
    requires |bits| >= 26
  {
    Header(Value(bits[..4]), Value(bits[4..8]), Value(bits[8..10]))
  }

  function Parse(bits: seq<bool>): Option<Parsed> {
    if |bits| < 26 then None
    else
      match ParseItems(ParseHeader(bits), bits[26..], Value(bits[10..26]))
      case None => None
      case Some((items, rest)) => Some(Parsed(ParseHeader(bits), items, rest))
  }

  /** The bytes of an item, after the bytes unpacked so far: a copy repeats the last `distance` of them, over and over
      if it is longer than that. */
  function ItemBytes(history: seq<nat>, item: Item): (bytes: seq<nat>)
    requires item.Copy? ==> 1 <= item.distance <= |history|
    ensures |bytes| == if item.Literal? then 1 else item.length
  {
    match item
    case Literal(value) => [value]
    case Copy(distance, length) =>
      seq(length, i requires 0 <= i < length => history[|history| - distance + i % distance])
  }

  /** Every copy reaches back into what is there, and no more than `limit` bytes are written. */
  predicate Expandable(length: nat, items: seq<Item>, limit: nat)
    decreases |items|
  {
    if items == [] then length <= limit
    else
      && (items[0].Copy? ==> 1 <= items[0].distance <= length)
      && Expandable(length + (if items[0].Literal? then 1 else items[0].length), items[1..], limit)
  }

  /** The reference expansion. */
  function Expand(history: seq<nat>, items: seq<Item>, limit: nat): (all: seq<nat>)
    requires Expandable(|history|, items, limit)
    ensures |history| <= |all| <= limit
    decreases |items|
  {
    if items == [] then history else Expand(history + ItemBytes(history, items[0]), items[1..], limit)
  }

  // ----- The bit reader -----

  lemma FirstBit(data: seq<bv8>, k: nat)
    requires k < 8 * |data|
    ensures k / 8 < |data| && Bits(data)[k..] == [BitAt(data, k)] + Bits(data)[k + 1..]
    ensures if k % 8 == 7 then (k + 1) / 8 == k / 8 + 1 && (k + 1) % 8 == 0
            else (k + 1) / 8 == k / 8 && (k + 1) % 8 == k % 8 + 1
  {
    hide BitAt;
  }

  lemma NextMask(k: nat)
    requires k < 8
    ensures if k == 7 then MaskOf(k) << 1 == 0 else MaskOf(k) << 1 == MaskOf(k + 1) != 0
    ensures MaskOf(0) == 1
  {
  }

  class FlashBits {
    const data: seq<bv8>  // program memory from the start of the stream on
    var src: nat
    var mask: bv8
    ghost var left: seq<bool>  // the bits not taken yet

    /** After k bits the reader is at byte k / 8 with mask 1 << (k % 8). */
    ghost predicate Valid()
      reads this
    {
      var k := 8 * |data| - |left|;
      k >= 0 && left == Bits(data)[k..] && src == k / 8 && mask == MaskOf(k % 8)
    }

    constructor (source: seq<bv8>)
      ensures Valid() && left == Bits(source)
    {
      data := source;
      src := 0;
      mask := 0x01;
      left := Bits(source);
    }

    method Get1() returns (r: bool)
      requires Valid() && left != []
      modifies this
      ensures Valid() && [r] + left == old(left)
    {
      hide MaskOf;
      ghost var k := 8 * |data| - |left|;
      FirstBit(data, k);
      NextMask(k % 8);
      assert Bits(data)[k..][1..] == Bits(data)[k + 1..];
      r := data[src] & mask != 0;
      mask := mask << 1;
      if mask == 0 {
        mask := 1;
        src := src + 1;
      }
      left := left[1..];
    }

    method GetN(n: nat) returns (r: nat)
      requires Valid() && |left| >= n
      modifies this
      ensures Valid() && left == old(left)[n..]
      ensures r == Value(old(left)[..n]) % 0x1_0000
      ensures n <= 16 ==> r == Value(old(left)[..n])
    {
      hide FlashBits.Valid;
      ghost var all := left;
      r := 0;
      for i := 0 to n
        invariant Valid() && left == all[i..]
        invariant r == Value(all[..i]) % 0x1_0000
      {
        r := r * 2 % 0x1_0000;
        var bit := Get1();
        ShiftIn(all, i, bit, left);
        r := r + if bit then 1 else 0;
      }
      if n <= 16 {
        ShortField(all[..n]);
      }
    }
  }

  /** One turn of getn: the next bit of `all` is shifted into the number. */
  lemma ShiftIn(all: seq<bool>, i: nat, bit: bool, left: seq<bool>)
    requires i < |all| && [bit] + left == all[i..]
    ensures left == all[i + 1..]
    ensures Value(all[..i]) % 0x1_0000 * 2 % 0x1_0000 + (if bit then 1 else 0) == Value(all[..i + 1]) % 0x1_0000
  {
    assert ([bit] + left)[0] == bit && ([bit] + left)[1..] == left;
    assert all[..i + 1][..i] == all[..i];
    Doubled(Value(all[..i]), bit);
  }

  lemma Doubled(v: nat, bit: bool)
    ensures var b := if bit then 1 else 0;
            v % 0x1_0000 * 2 % 0x1_0000 + b == (2 * v + b) % 0x1_0000
  {
    var q, r, b := v / 0x1_0000, v % 0x1_0000, if bit then 1 else 0;
    assert v == 0x1_0000 * q + r;
    if r < 0x8000 {
      QuotientIs(2 * r, 0x1_0000, 0, 2 * r);
      QuotientIs(2 * v + b, 0x1_0000, 2 * q, 2 * r + b);
    } else {
      QuotientIs(2 * r, 0x1_0000, 1, 2 * r - 0x1_0000);
      QuotientIs(2 * v + b, 0x1_0000, 2 * q + 1, 2 * r - 0x1_0000 + b);
    }
  }

  lemma ModBack(j: nat, d: nat)
    requires 0 < d <= j
    ensures (j - d) % d == j % d
  {
    var q, r := j / d, j % d;
    assert j - d == d * (q - 1) + r;
    QuotientIs(j - d, d, q - 1, r);
  }

  /** Each byte of a copy is the one `distance` before it, which the copy itself may have written. */
  lemma CopyLooksBack(history: seq<nat>, distance: nat, length: nat, j: nat)
    requires 1 <= distance <= |history| && j < length
    ensures var bytes := ItemBytes(history, Copy(distance, length));
            (history + bytes)[|history| + j - distance] == bytes[j]
  {
    hide ItemBytes;
    CopyByte(history, distance, length, j);
    if j >= distance {
      CopyByte(history, distance, length, j - distance);
      ModBack(j, distance);
    } else {
      QuotientIs(j, distance, 0, j);
    }
  }

  lemma CopyByte(history: seq<nat>, distance: nat, length: nat, j: nat)
    requires 1 <= distance <= |history| && j < length
    ensures 0 <= j % distance < distance
    ensures ItemBytes(history, Copy(distance, length))[j] == history[|history| - distance + j % distance]
  {
  }

  /** What is unpacked of an item: `before` is the memory that was there, `after` what is there now. */
  ghost predicate Unpacked(before: seq<nat>, addr: nat, item: Item, after: seq<nat>, next: nat)
    requires addr <= |before| && (item.Copy? ==> 1 <= item.distance <= addr)
  {
    var bytes := ItemBytes(before[..addr], item);
    && next == addr + |bytes| <= |before| == |after|
    && after[..next] == before[..addr] + bytes && after[next..] == before[next..]
  }

  method CopyBytes(ram: array<nat>, addr: nat, offset: int, length: nat, ghost item: Item) returns (next: nat)
    requires 1 <= -offset <= addr && addr + length <= ram.Length && item == Copy(-offset, length)
    modifies ram
    ensures Unpacked(old(ram[..]), addr, item, ram[..], next)
  {
    hide ItemBytes;
    ghost var before := ram[..];
    ghost var all := before[..addr] + ItemBytes(before[..addr], Copy(-offset, length));
    next := addr;
    var l := length;
    while l > 0
      invariant 0 <= l <= length && next == addr + (length - l)
      invariant ram[..next] == all[..next]
      invariant ram[addr + length..] == before[addr + length..]
    {
      l := l - 1;
      CopyLooksBack(before[..addr], -offset, length, next - addr);
      ghost var known := ram[..next];
      assert ram[next + offset] == known[next + offset] == all[next];
      ram[next] := ram[next + offset];
      assert ram[..next] == known && ram[..next + 1] == known + [all[next]];
      next := next + 1;
    }
    assert all[..next] == all;
    assert ram[..][..next] == ram[..next] && ram[..][next..] == ram[next..];
  }

  method UnpackLiteral(fb: FlashBits, ram: array<nat>, addr: nat, ghost item: Item) returns (next: nat)
    requires fb.Valid() && |fb.left| >= 8 && addr < ram.Length && item == Literal(Value(fb.left[..8]))
    modifies fb, ram
    ensures fb.Valid() && fb.left == old(fb.left)[8..]
    ensures Unpacked(old(ram[..]), addr, item, ram[..], next)
  {
    var v := fb.GetN(8);
    ram[addr] := v;
    next := addr + 1;
    assert ram[..next] == old(ram[..])[..addr] + [v];
  }

  method ReadCopy(fb: FlashBits, b_off: nat, b_len: nat, minlen: nat) returns (offset: int, l: nat)
    requires fb.Valid() && b_off <= 15 && b_len <= 15 && |fb.left| >= b_off + b_len
    modifies fb
    ensures fb.Valid() && fb.left == old(fb.left)[b_off + b_len..]
    ensures var bits := old(fb.left);
            -offset == Value(bits[..b_off]) + 1 && l == Value(bits[b_off..b_off + b_len]) + minlen
  {
    ghost var bits := fb.left;
    assert bits[b_off..][..b_len] == bits[b_off..b_off + b_len];
    assert bits[b_off..][b_len..] == bits[b_off + b_len..];
    var back: int := fb.GetN(b_off);
    offset := -back - 1;
    l := fb.GetN(b_len);
    l := l + minlen;
  }

  method UnpackCopy(fb: FlashBits, b_off: nat, b_len: nat, minlen: nat, ram: array<nat>, addr: nat, ghost item: Item)
    returns (next: nat)
    requires fb.Valid() && b_off <= 15 && b_len <= 15 && |fb.left| >= b_off + b_len
    requires item == Copy(Value(fb.left[..b_off]) + 1, Value(fb.left[b_off..b_off + b_len]) + minlen)
    requires item.distance <= addr && addr + item.length <= ram.Length
    modifies fb, ram
    ensures fb.Valid() && fb.left == old(fb.left)[b_off + b_len..]
    ensures Unpacked(old(ram[..]), addr, item, ram[..], next)
  {
    ghost var before := ram[..];
    var offset, l := ReadCopy(fb, b_off, b_len, minlen);
    assert ram[..] == before;
    next := CopyBytes(ram, addr, offset, l, item);
  }

  function ItemSize(item: Item): nat {
    match item { case Literal(_) => 1 case Copy(_, length) => length }
  }

  /** An item by its first bit, in terms of the bits after it. */
  lemma ItemByTag(bits: seq<bool>, tag: bool, left: seq<bool>, h: Header)
    requires [tag] + left == bits
    ensures !tag ==> ParseItem(h, bits) == if |left| < 8 then None else Some((Literal(Value(left[..8])), left[8..]))
    ensures tag ==>
              var a, b := h.offsetBits, h.offsetBits + h.lengthBits;
              ParseItem(h, bits) == if |left| < b then None
                                    else Some((Copy(Value(left[..a]) + 1, Value(left[a..b]) + h.minLength), left[b..]))
  {
    var a, b := h.offsetBits, h.offsetBits + h.lengthBits;
    if |left| >= 8 {
      assert left[..8] == bits[1..9] && left[8..] == bits[9..];
    }
    if |left| >= b {
      assert left[..a] == bits[1..1 + a] && left[a..b] == bits[1 + a..1 + b] && left[b..] == bits[1 + b..];
    }
  }

  /** The first bit of an item, and what it says about the bits after it. */
  method ReadTag(fb: FlashBits, ghost h: Header, ghost item: Item, ghost rest: seq<bool>) returns (tag: bool)
    requires fb.Valid() && ParseItem(h, fb.left) == Some((item, rest))
    modifies fb
    ensures fb.Valid()
    ensures !tag ==> |fb.left| >= 8 && item == Literal(Value(fb.left[..8])) && rest == fb.left[8..]
    ensures tag ==> var a, b := h.offsetBits, h.offsetBits + h.lengthBits;
              |fb.left| >= b && rest == fb.left[b..]
              && item == Copy(Value(fb.left[..a]) + 1, Value(fb.left[a..b]) + h.minLength)
  {
    ghost var bits := fb.left;
    tag := fb.Get1();
    ItemByTag(bits, tag, fb.left, h);
  }

  /** One turn of the unpacking loop: one item is read and its bytes are written at `addr`. */
  method UnpackItem(fb: FlashBits, b_off: nat, b_len: nat, minlen: nat, ram: array<nat>, addr: nat,
                    ghost item: Item, ghost rest: seq<bool>)
    returns (next: nat)
    requires fb.Valid() && b_off <= 15 && b_len <= 15
    requires ParseItem(Header(b_off, b_len, minlen), fb.left) == Some((item, rest))
    requires (item.Copy? ==> 1 <= item.distance <= addr) && addr + ItemSize(item) <= ram.Length
    modifies fb, ram
    ensures fb.Valid() && fb.left == rest
    ensures Unpacked(old(ram[..]), addr, item, ram[..], next)
  {
    hide Unpacked, FlashBits.Valid, ParseItem;
    ghost var before := ram[..];
    var tag := ReadTag(fb, Header(b_off, b_len, minlen), item, rest);
    assert ram[..] == before;
    if !tag {
      next := UnpackLiteral(fb, ram, addr, item);
    } else {
      next := UnpackCopy(fb, b_off, b_len, minlen, ram, addr, item);
    }
  }

  /** The next `n` items of the bits that are left are `todo`. */
  ghost predicate Pending(h: Header, bits: seq<bool>, n: nat, todo: seq<Item>) {
    ParseItems(h, bits, n).Some? && ParseItems(h, bits, n).value.0 == todo
  }

  lemma PendingNext(h: Header, bits: seq<bool>, n: nat, todo: seq<Item>)
    requires Pending(h, bits, n, todo) && n > 0
    ensures todo != [] && ParseItem(h, bits).Some? && ParseItem(h, bits).value.0 == todo[0]
    ensures Pending(h, ParseItem(h, bits).value.1, n - 1, todo[1..])
  {
  }

  lemma {:induction false} PendingLength(h: Header, bits: seq<bool>, n: nat, todo: seq<Item>)
    requires Pending(h, bits, n, todo)
    ensures |todo| == n
    decreases n
  {
    if n > 0 {
      PendingNext(h, bits, n, todo);
      PendingLength(h, ParseItem(h, bits).value.1, n - 1, todo[1..]);
    }
  }

  /** The memory in front of `addr` leads, with the items still to come, to `goal`. */
  ghost predicate Leads(ram: seq<nat>, addr: nat, todo: seq<Item>, goal: seq<nat>)
  {
    addr <= |ram| && Expandable(addr, todo, |ram|) && Expand(ram[..addr], todo, |ram|) == goal
  }

  lemma LeadsOn(before: seq<nat>, addr: nat, todo: seq<Item>, goal: seq<nat>)
    requires Leads(before, addr, todo, goal) && todo != []
    ensures (todo[0].Copy? ==> 1 <= todo[0].distance <= addr) && addr + ItemSize(todo[0]) <= |before|
    ensures forall after: seq<nat>, next: nat :: Unpacked(before, addr, todo[0], after, next) ==>
              addr <= next && Leads(after, next, todo[1..], goal)
  {
    hide Unpacked, Leads, Expand;
    LeadsInside(before, addr, todo, goal);
    forall after: seq<nat>, next: nat | Unpacked(before, addr, todo[0], after, next)
      ensures addr <= next && Leads(after, next, todo[1..], goal)
    {
      LeadsTo(before, addr, todo, goal, after, next);
    }
  }

  lemma LeadsInside(before: seq<nat>, addr: nat, todo: seq<Item>, goal: seq<nat>)
    requires Leads(before, addr, todo, goal) && todo != []
    ensures addr <= |before|
    ensures (todo[0].Copy? ==> 1 <= todo[0].distance <= addr) && addr + ItemSize(todo[0]) <= |before|
  {
    hide Expand, ItemBytes;
    ExpandableLimit(addr + ItemSize(todo[0]), todo[1..], |before|);
  }

  lemma LeadsTo(before: seq<nat>, addr: nat, todo: seq<Item>, goal: seq<nat>, after: seq<nat>, next: nat)
    requires Leads(before, addr, todo, goal) && todo != [] && addr <= |before|
    requires todo[0].Copy? ==> 1 <= todo[0].distance <= addr
    requires Unpacked(before, addr, todo[0], after, next)
    ensures addr <= next && Leads(after, next, todo[1..], goal)
  {
    hide ItemBytes;
  }

  lemma {:induction false} ExpandableLimit(length: nat, items: seq<Item>, limit: nat)
    requires Expandable(length, items, limit)
    ensures length <= limit
    decreases |items|
  {
    if items != [] {
      ExpandableLimit(length + ItemSize(items[0]), items[1..], limit);
    }
  }

  lemma TailKept(before: seq<nat>, was: seq<nat>, from: nat, next: nat)
    requires from <= next <= |before| == |was| && was[from..] == before[from..]
    ensures was[next..] == before[next..]
  {
    assert was[next..] == was[from..][next - from..];
    assert before[next..] == before[from..][next - from..];
  }

  /** The unpacking loop. */
  method UnpackItems(fb: FlashBits, b_off: nat, b_len: nat, minlen: nat, count: nat, ram: array<nat>, address: nat,
                     ghost all: seq<Item>, ghost goal: seq<nat>)
    requires fb.Valid() && b_off <= 15 && b_len <= 15
    requires Pending(Header(b_off, b_len, minlen), fb.left, count, all)
    requires Leads(ram[..], address, all, goal)
    modifies fb, ram
    ensures |goal| <= ram.Length && ram[..] == goal + old(ram[..])[|goal|..]
  {
    ghost var before := ram[..];
    ghost var todo := all;
    PendingLength(Header(b_off, b_len, minlen), fb.left, count, all);
    var addr, items := address, count;
    while items > 0
      invariant fb.Valid() && address <= addr <= ram.Length && |todo| == items
      invariant Pending(Header(b_off, b_len, minlen), fb.left, items, todo)
      invariant Leads(ram[..], addr, todo, goal)
      invariant ram[..][addr..] == before[addr..]
    {
      items := items - 1;
      PendingNext(Header(b_off, b_len, minlen), fb.left, items + 1, todo);
      LeadsOn(ram[..], addr, todo, goal);
      ghost var was, from, rest := ram[..], addr, ParseItem(Header(b_off, b_len, minlen), fb.left).value.1;
      addr := UnpackItem(fb, b_off, b_len, minlen, ram, addr, todo[0], rest);
      todo := todo[1..];
      TailKept(before, was, from, addr);
    }
    assert ram[..] == ram[..][..addr] + ram[..][addr..];
  }

  method ReadHeader(fb: FlashBits) returns (b_off: nat, b_len: nat, minlen: nat, items: nat)
    requires fb.Valid() && |fb.left| >= 26
    modifies fb
    ensures fb.Valid() && fb.left == old(fb.left)[26..] && b_off <= 15 && b_len <= 15
    ensures ParseHeader(old(fb.left)) == Header(b_off, b_len, minlen) && items == Value(old(fb.left)[10..26])
  {
    HeaderFields(fb.left);
    b_off := fb.GetN(4);
    b_len := fb.GetN(4);
    minlen := fb.GetN(2);
    items := fb.GetN(16);
  }

  /** What uncompress has unpacked behind `address`: `after` is the memory that it leaves of `before`. */
  ghost predicate Uncompressed(before: seq<nat>, address: nat, src: seq<bv8>, after: seq<nat>) {
    && address <= |before| && Parse(Bits(src)).Some?
    && Expandable(address, Parse(Bits(src)).value.items, |before|)
    && var all := Expand(before[..address], Parse(Bits(src)).value.items, |before|);
       after == all + before[|all|..]
  }

  /** uncompress: the items packed in `src` are expanded into the memory of the device at `address`. */
  method Uncompress(ram: array<nat>, address: nat, src: seq<bv8>)
    requires address <= ram.Length && Parse(Bits(src)).Some?
    requires Expandable(address, Parse(Bits(src)).value.items, ram.Length)
    modifies ram
    ensures Uncompressed(old(ram[..]), address, src, ram[..])
  {
    ghost var all := Parse(Bits(src)).value.items;
    ghost var goal := Expand(ram[..address], all, ram.Length);
    assert ram[..][..address] == ram[..address];
    var fb := new FlashBits(src);
    var b_off, b_len, minlen, items := ReadHeader(fb);
    UnpackItems(fb, b_off, b_len, minlen, items, ram, address, all, goal);
  }

  /** The four fields at the front of a stream, read one after the other. */
  lemma HeaderFields(bits: seq<bool>)
    requires |bits| >= 26
    ensures Value(bits[..4]) <= 15 && Value(bits[4..][..4]) <= 15 && Value(bits[8..][..2]) <= 3
    ensures bits[4..][4..] == bits[8..] && bits[8..][2..] == bits[10..] && bits[10..][16..] == bits[26..]
    ensures bits[4..][..4] == bits[4..8] && bits[8..][..2] == bits[8..10] && bits[10..][..16] == bits[10..26]
  {
    assert Pow2(2) == 4 && Pow2(4) == 16;
    ValueBound(bits[..4]);
    ValueBound(bits[4..][..4]);
    ValueBound(bits[8..][..2]);
  }
}
