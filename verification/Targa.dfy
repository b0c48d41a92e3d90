/**
 The run-length Targa writer `saveTGA` of core/methods/demo/PImage.java and the reader `loadImageTGA` of
 core/methods/demo/PApplet.java.

 A pixel is the 32-bit pattern of a Java int, as a number below 2^32; masks and shifts are written as
 remainders and quotients of that number.
 */
module Targa {
  import opened Arithmetic
  import opened Ints
  import opened Rows
  import opened Wrappers

  type Byte = b: nat | b < 0x100
  type Pixel = p: nat | p < 0x1_0000_0000

  datatype Format = Alpha | Rgb | Argb

  /** The fields of a PImage; its constructor allocates one pixel per point, and their number is an int. */
  datatype Image = Image(format: Format, width: nat, height: nat, pixels: seq<Pixel>) {
    ghost predicate Valid() { |pixels| == width * height < INT_LIMIT }
  }

  // ----- The writer -----

  /** What the writer compares and writes of a pixel. */
  function Key(f: Format, p: Pixel): Pixel {
    if f == Alpha then p % 0x100 else p
  }

  function Keys(f: Format, pixels: seq<Pixel>): (keys: seq<Pixel>)
    ensures |keys| == |pixels|
  {
    seq(|pixels|, i requires 0 <= i < |pixels| => Key(f, pixels[i]))
  }

  datatype Packet = Run(count: nat, color: Pixel) | Raw(colors: seq<Pixel>)

  /** How far the search for repeats of k[0] gets, having matched `rle` pixels. */
  function RunEnd(k: seq<Pixel>, rle: nat): (end: nat)
    requires 1 <= rle <= |k| && rle <= 128
    ensures rle <= end <= |k| && end <= 128
    decreases |k| - rle
  {
    if rle < |k| && k[0] == k[rle] && rle != 128 then RunEnd(k, rle + 1) else rle
  }

  /** How many pixels the plain packet gets, having taken `rle` of them: it is cut short two pixels
      before a repeat. */
  function RawEnd(k: seq<Pixel>, rle: nat): (end: nat)
    requires 1 <= rle <= |k| && rle <= 128
    ensures 1 <= end <= |k| && end <= 128
    decreases |k| - rle
  {
    if rle == |k| then rle
    else if (k[rle - 1] != k[rle] && rle < 128) || rle < 3 then RawEnd(k, rle + 1)
    else if k[rle - 1] == k[rle] then rle - 2
    else rle
  }

  /** A run is only taken when the search was stopped by another pixel or by the maximal length,
      not when it ran into the end of the image. */
  function FirstPacket(k: seq<Pixel>): Packet
    requires k != []
  {
    var run := RunEnd(k, 1);
    if 1 < run < |k| then Run(run, k[0]) else Raw(k[..RawEnd(k, 1)])
  }

  function Size(packet: Packet): nat {
    match packet
    case Run(count, _) => count
    case Raw(colors) => |colors|
  }

  function Packets(k: seq<Pixel>): (packets: seq<Packet>)
    ensures AllLegal(packets)
  {
    if k == [] then [] else [FirstPacket(k)] + Packets(k[Size(FirstPacket(k))..])
  }

  function PixelBytes(f: Format, p: Pixel): seq<Byte> {
    match f
    case Alpha => [p % 0x100]
    case Rgb => [p % 0x100, p / 0x100 % 0x100, p / 0x1_0000 % 0x100]
    case Argb => [p % 0x100, p / 0x100 % 0x100, p / 0x1_0000 % 0x100, p / 0x100_0000 % 0x100]
  }

  function ColorBytes(f: Format, colors: seq<Pixel>): seq<Byte> {
    if colors == [] then [] else PixelBytes(f, colors[0]) + ColorBytes(f, colors[1..])
  }

  /** A packet may hold 1 to 128 pixels. */
  predicate Legal(packet: Packet) {
    1 <= Size(packet) <= 128
  }

  function PacketBytes(f: Format, packet: Packet): seq<Byte>
    requires Legal(packet)
  {
    match packet
    case Run(count, color) => [128 + (count - 1)] + PixelBytes(f, color)
    case Raw(colors) => [|colors| - 1] + ColorBytes(f, colors)
  }

  ghost predicate AllLegal(packets: seq<Packet>) {
    forall i :: 0 <= i < |packets| ==> Legal(packets[i])
  }

  function Encode(f: Format, packets: seq<Packet>): seq<Byte>
    requires AllLegal(packets)
  {
    if packets == [] then [] else PacketBytes(f, packets[0]) + Encode(f, packets[1..])
  }

  function Header(f: Format, width: nat, height: nat): (h: seq<Byte>)
    ensures |h| == 18
  {
    [0, 0, if f == Alpha then 0x0B else 0x0A,
     0, 0, 0, 0, 0, 0, 0, 0, 0,
     width % 0x100, width / 0x100 % 0x100, height % 0x100, height / 0x100 % 0x100,
     match f { case Alpha => 8 case Rgb => 24 case Argb => 32 },
     if f == Rgb then 0x20 else 0x28]
  }

  /** The search for a run at `index`. */
  method FindRun(f: Format, pixels: seq<Pixel>, index: nat) returns (isRLE: bool, rle: nat)
    requires index < |pixels|
    ensures rle == RunEnd(Keys(f, pixels)[index..], 1)
    ensures isRLE == (1 < rle < |pixels| - index)
  {
    ghost var k := Keys(f, pixels)[index..];
    isRLE, rle := false, 1;
    var col := Key(f, pixels[index]);
    while index + rle < |pixels|
      invariant 1 <= rle <= |k| && rle <= 128 && !isRLE && col == k[0]
      invariant RunEnd(k, 1) == RunEnd(k, rle)
    {
      if col != Key(f, pixels[index + rle]) || rle == 128 {
        isRLE := rle > 1;
        break;
      }
      rle := rle + 1;
    }
  }

  /** The collection of a plain packet at `index` in the chunk buffer. */
  method FillChunk(f: Format, pixels: seq<Pixel>, index: nat, currChunk: array<Pixel>) returns (rle: nat)
    requires index < |pixels| && currChunk.Length == 128
    modifies currChunk
    ensures 1 <= rle <= 128 && rle <= |pixels| - index
    ensures rle == RawEnd(Keys(f, pixels)[index..], 1)
    ensures currChunk[..rle] == Keys(f, pixels)[index..][..rle]
  {
    ghost var k := Keys(f, pixels)[index..];
    var col := Key(f, pixels[index]);
    currChunk[0] := col;
    rle := 1;
    while index + rle < |pixels|
      invariant 1 <= rle <= |k| && rle <= 128 && col == k[rle - 1]
      invariant currChunk[..rle] == k[..rle]
      invariant RawEnd(k, 1) == RawEnd(k, rle)
    {
      var cscan := Key(f, pixels[index + rle]);
      if (col != cscan && rle < 128) || rle < 3 {
        currChunk[rle] := cscan;
        col := cscan;
      } else {
        if col == cscan {
          rle := rle - 2;
        }
        break;
      }
      rle := rle + 1;
    }
  }

  method WriteColors(f: Format, currChunk: array<Pixel>, rle: nat) returns (out: seq<Byte>)
    requires rle <= currChunk.Length
    ensures out == ColorBytes(f, currChunk[..rle])
  {
    out := [];
    ghost var colors := currChunk[..rle];
    for i := 0 to rle
      invariant out + ColorBytes(f, colors[i..]) == ColorBytes(f, colors)
    {
      Regroup(out, PixelBytes(f, colors[i]), ColorBytes(f, colors[i + 1..]));
      assert colors[i..][1..] == colors[i + 1..];
      out := out + PixelBytes(f, currChunk[i]);
    }
  }

  /** One turn of the writer's loop: a packet, and the number of pixels in it. */
  method WritePacket(f: Format, pixels: seq<Pixel>, index: nat, currChunk: array<Pixel>)
    returns (out: seq<Byte>, rle: nat)
    requires index < |pixels| && currChunk.Length == 128
    modifies currChunk
    ensures var packet := FirstPacket(Keys(f, pixels)[index..]);
            rle == Size(packet) && Legal(packet) && out == PacketBytes(f, packet)
    ensures 1 <= rle <= |pixels| - index
  {
    var isRLE;
    isRLE, rle := FindRun(f, pixels, index);
    if isRLE {
      out := [0x80 + (rle - 1)] + PixelBytes(f, Key(f, pixels[index]));
    } else {
      rle := FillChunk(f, pixels, index, currChunk);
      var colors := WriteColors(f, currChunk, rle);
      out := [rle - 1] + colors;
    }
  }

  lemma {:induction false} EncodeAppend(f: Format, a: seq<Packet>, packet: Packet)
    requires AllLegal(a) && Legal(packet)
    ensures AllLegal(a + [packet]) && Encode(f, a + [packet]) == Encode(f, a) + PacketBytes(f, packet)
  {
    if a == [] {
      assert a + [packet] == [packet] && [packet][1..] == [];
    } else {
      EncodeAppend(f, a[1..], packet);
      var longer := a + [packet];
      assert longer[0] == a[0] && longer[1..] == a[1..] + [packet];
      Regroup(PacketBytes(f, a[0]), Encode(f, a[1..]), PacketBytes(f, packet));
    }
  }

  lemma Regroup<T>(a: seq<T>, b: seq<T>, c: seq<T>)
    ensures a + b + c == a + (b + c)
  {
  }

  lemma PacketsUnfold(keys: seq<Pixel>, index: nat)
    requires index < |keys|
    ensures var packet := FirstPacket(keys[index..]);
            index + Size(packet) <= |keys| && Packets(keys[index..]) == [packet] + Packets(keys[index + Size(packet)..])
  {
    var packet := FirstPacket(keys[index..]);
    assert keys[index..][Size(packet)..] == keys[index + Size(packet)..];
  }

  lemma NextPending(keys: seq<Pixel>, index: nat, done: seq<Packet>, packet: Packet)
    requires index < |keys| && packet == FirstPacket(keys[index..])
    ensures index + Size(packet) <= |keys|
    ensures done + [packet] + Packets(keys[index + Size(packet)..]) == done + Packets(keys[index..])
  {
    PacketsUnfold(keys, index);
    Regroup(done, [packet], Packets(keys[index + Size(packet)..]));
  }

  /** The packets that are written, once those that are `done` are followed by the packets of the rest. */
  ghost predicate Completes(f: Format, keys: seq<Pixel>, index: nat, done: seq<Packet>, out: seq<Byte>) {
    index <= |keys| && AllLegal(done) && out == Encode(f, done) && done + Packets(keys[index..]) == Packets(keys)
  }

  lemma CompletesNext(f: Format, keys: seq<Pixel>, index: nat, done: seq<Packet>, out: seq<Byte>,
                      packet: Packet, bytes: seq<Byte>)
    requires Completes(f, keys, index, done, out) && index < |keys|
    requires packet == FirstPacket(keys[index..]) && Legal(packet) && bytes == PacketBytes(f, packet)
    ensures Completes(f, keys, index + Size(packet), done + [packet], out + bytes)
  {
    NextPending(keys, index, done, packet);
    EncodeAppend(f, done, packet);
  }

  lemma StartsOut(f: Format, keys: seq<Pixel>)
    ensures Completes(f, keys, 0, [], [])
  {
    assert keys[0..] == keys && [] + Packets(keys) == Packets(keys);
  }

  lemma EndsUp(f: Format, keys: seq<Pixel>, done: seq<Packet>, out: seq<Byte>)
    requires Completes(f, keys, |keys|, done, out)
    ensures out == Encode(f, Packets(keys))
  {
    assert keys[|keys|..] == [] && done + [] == done;
  }

  /** The writer's loop. */
  method WritePackets(f: Format, pixels: seq<Pixel>, maxLen: nat) returns (out: seq<Byte>)
    requires maxLen == |pixels|
    ensures out == Encode(f, Packets(Keys(f, pixels)))
  {
    hide FirstPacket, Packets, Encode, Keys, PacketBytes, Legal;
    var index := 0;
    var currChunk := new Pixel[128];
    out := [];
    ghost var done: seq<Packet> := [];
    StartsOut(f, Keys(f, pixels));
    while index < maxLen
      invariant Completes(f, Keys(f, pixels), index, done, out)
    {
      ghost var packet := FirstPacket(Keys(f, pixels)[index..]);
      var bytes, rle := WritePacket(f, pixels, index, currChunk);
      CompletesNext(f, Keys(f, pixels), index, done, out, packet, bytes);
      done := done + [packet];
      out := out + bytes;
      index := index + rle;
    }
    EndsUp(f, Keys(f, pixels), done, out);
  }

  /** saveTGA: the bytes it writes to the output stream. */
  method SaveTGA(image: Image) returns (out: seq<Byte>)
    requires image.Valid()
    ensures out == Header(image.format, image.width, image.height)
                   + Encode(image.format, Packets(Keys(image.format, image.pixels)))
  {
    out := Header(image.format, image.width, image.height);
    var maxLen := image.height * image.width;
    var packets := WritePackets(image.format, image.pixels, maxLen);
    out := out + packets;
  }

  // ----- The reader -----

  /** What the reader makes of a stream: an image, or nothing. `Hangs` says that its loop never ends, and `Failed` is
      an exception. */
  datatype Loaded = Loaded(image: Image) | NotLoaded(why: Reason)

  datatype Reason = Null | Hangs | Failed

  datatype Pixels = Pixels(pixels: seq<Pixel>) | NoPixels(why: Reason)

  function Width(f: Format): nat {
    match f { case Alpha => 1 case Rgb => 3 case Argb => 4 }
  }

  /** The pixel made of the bytes that could be read; a read at the end of the stream yields -1, whose bits are
      all ones at its place and above. */
  function Assemble(f: Format, got: seq<Byte>): Pixel
    requires |got| <= Width(f)
  {
    var n := |got|;
    var b0: int := if n > 0 then got[0] else 0;
    var b1: int := if n > 1 then got[1] else 0;
    var b2: int := if n > 2 then got[2] else 0;
    var b3: int := if n > 3 then got[3] else 0;
    var known := b0 + 0x100 * b1 + 0x1_0000 * b2 + 0x100_0000 * b3;
    if n == 0 then 0xFFFF_FFFF
    else if f == Alpha || n == 4 then known
    else if n == 1 then 0xFFFF_FF00 + known
    else if n == 2 then 0xFFFF_0000 + known
    else 0xFF00_0000 + known
  }

  /** One pixel off the stream, and what is left of the stream. */
  function ReadPixel(f: Format, s: seq<Byte>): (Pixel, seq<Byte>) {
    var n := if Width(f) <= |s| then Width(f) else |s|;
    (Assemble(f, s[..n]), s[n..])
  }

  function ReadPixels(f: Format, s: seq<Byte>, count: nat): (r: (seq<Pixel>, seq<Byte>))
    ensures |r.0| == count && |r.1| <= |s|
    decreases count
  {
    if count == 0 then ([], s)
    else
      var (p, rest) := ReadPixel(f, s);
      var (ps, rest') := ReadPixels(f, rest, count - 1);
      ([p] + ps, rest')
  }

  function Repeat(p: Pixel, n: nat): (ps: seq<Pixel>)
    ensures |ps| == n
  {
    seq(n, _ => p)
  }

  function Prepend(ps: seq<Pixel>, more: Pixels): Pixels {
    match more
    case Pixels(qs) => Pixels(ps + qs)
    case NoPixels(_) => more
  }

  /** What one read yields: -1 at the end of the stream. */
  function FirstByte(s: seq<Byte>): int { if s == [] then -1 else s[0] }

  function AfterByte(s: seq<Byte>): seq<Byte> { if s == [] then [] else s[1..] }

  /** (num & 0x80) != 0, also of -1. */
  predicate IsRun(num: int) { num / 0x80 % 2 != 0 }

  /** How many of `num` pixels of a run are written when `n` are missing: none for a negative number. */
  function RunLength(num: int, n: nat): nat { if num < 0 then 0 else if num <= n then num else n }

  /** What one turn of the loop adds to the pixels, and what is left of the stream. */
  datatype Next = Got(pixels: seq<Pixel>, rest: seq<Byte>) | Overrun

  /** One turn of the loop, when `n` pixels are missing. A run may go past the last pixel, a plain packet may not. */
  function NextPacket(f: Format, s: seq<Byte>, n: nat): (next: Next)
    requires n > 0
    ensures next.Got? ==> |next.pixels| <= n && (s != [] ==> 1 <= |next.pixels| && |next.rest| < |s|)
  {
    var num, left := FirstByte(s), AfterByte(s);
    if IsRun(num) then
      var (p, rest) := ReadPixel(f, left);
      Got(Repeat(p, RunLength(num - 127, n)), rest)
    else if num + 1 > n then Overrun
    else
      var (ps, rest) := ReadPixels(f, left, num + 1);
      Got(ps, rest)
  }

  /** The loop after some turns: the pixels that are filled in, and what is left of the stream; or an exception. */
  datatype Reading = Reading(done: seq<Pixel>, rest: seq<Byte>) | Thrown

  /** The loop has ended. */
  predicate Over(r: Reading, n: nat) { r.Thrown? || |r.done| >= n }

  function OneTurn(f: Format, r: Reading, n: nat): Reading
    requires !Over(r, n)
  {
    match NextPacket(f, r.rest, n - |r.done|)
    case Got(ps, rest) => Reading(r.done + ps, rest)
    case Overrun => Thrown
  }

  function Turns(f: Format, r: Reading, n: nat, turns: nat): (end: Reading)
    ensures end.Reading? && (r.Reading? ==> |r.done| <= n) ==> |end.done| <= n
    decreases turns
  {
    if turns == 0 || Over(r, n) then r else Turns(f, OneTurn(f, r, n), n, turns - 1)
  }

  /** What the loop comes to in the end, for `n` pixels. */
  function Decode(f: Format, s: seq<Byte>, n: nat): (end: Pixels)
    ensures end.Pixels? ==> |end.pixels| == n
    decreases n
  {
    if n == 0 then Pixels([])
    else if s == [] then NoPixels(Hangs)
    else
      match NextPacket(f, s, n)
      case Overrun => NoPixels(Failed)
      case Got(ps, rest) => Prepend(ps, Decode(f, rest, n - |ps|))
  }

  function HeaderFormat(h: seq<Byte>): (f: (bool, Format))
    requires |h| == 18
  {
    if (h[2] == 3 || h[2] == 11) && h[16] == 8 && (h[17] == 0x08 || h[17] == 0x28) then (true, Alpha)
    else if (h[2] == 2 || h[2] == 10) && h[16] == 24 && (h[17] == 0x20 || h[17] == 0) then (true, Rgb)
    else if (h[2] == 2 || h[2] == 10) && h[16] == 32 && (h[17] == 0x08 || h[17] == 0x28) then (true, Argb)
    else (false, Alpha)
  }

  function Word(high: nat, low: nat): nat { high * 0x100 + low }

  /** What a header says; the reader takes `reversed` for an image whose first row is the upper one. */
  datatype Start = Start(f: Format, width: nat, height: nat, packed: bool, reversed: bool) {
    function Count(): nat { Offset(width, height) }
  }

  function Describe(s: seq<Byte>): (start: Option<Start>)
    ensures start.Some? ==> |s| >= 18 && start.value.width < 0x1_0000 && start.value.height < 0x1_0000
  {
    if |s| < 18 then None
    else
      var h := s[..18];
      var (known, f) := HeaderFormat(h);
      if !known then None
      else Some(Start(f, Word(h[13], h[12]), Word(h[15], h[14]), h[2] != 2 && h[2] != 3, h[17] / 0x20 % 2 != 0))
  }

  datatype Checked = Go(start: Start) | No(why: Reason)

  /** The header checks, and the allocation of the pixels: it throws when an int holds a negative number of them. */
  function CheckHeader(s: seq<Byte>): (c: Checked)
    ensures c.Go? ==> |s| >= 18
  {
    match Describe(s)
    case None => No(Null)
    case Some(start) => if Wrap(start.Count()) < 0 then No(Failed) else Go(start)
  }

  /** The image once all pixels are there. Packed rows from the lower one on are turned over, and so are plain ones
      from the upper one on. */
  function Finished(start: Start, ps: seq<Pixel>): Loaded
    requires |ps| == start.Count()
  {
    var asRead := start.packed == start.reversed;
    Loaded(Image(start.f, start.width, start.height,
                 if asRead then ps else Flipped(ps, start.width, start.height)))
  }

  /** What the reader returns if its loop ends within so many turns. */
  function LoadWithin(s: seq<Byte>, turns: nat): Option<Loaded> {
    match CheckHeader(s)
    case No(why) => Some(NotLoaded(why))
    case Go(start) =>
      var n := start.Count();
      if !start.packed then Some(Finished(start, ReadPixels(start.f, s[18..], n).0))
      else
        var r := Turns(start.f, Reading([], s[18..]), n, turns);
        if !Over(r, n) then None else if r.Thrown? then Some(NotLoaded(Failed)) else Some(Finished(start, r.done))
  }

  /** What the reader comes to in the end. */
  function Load(s: seq<Byte>): Loaded {
    match CheckHeader(s)
    case No(why) => NotLoaded(why)
    case Go(start) =>
      var n := start.Count();
      if !start.packed then Finished(start, ReadPixels(start.f, s[18..], n).0)
      else
        match Decode(start.f, s[18..], n)
        case NoPixels(why) => NotLoaded(why)
        case Pixels(ps) => Finished(start, ps)
  }

  /** A run of `num` pixels from `from` on, cut off at the end of the image. */
  method FillRun(px: array<Pixel>, from: nat, num: int, pixel: Pixel) returns (index: nat)
    requires from < px.Length
    modifies px
    ensures index == from + RunLength(num, px.Length - from)
    ensures px[..index] == old(px[..from]) + Repeat(pixel, index - from)
  {
    index := from;
    var i := 0;
    while i < num
      invariant 0 <= i && index == from + i <= px.Length && (i <= num || i == 0) && (i < num ==> index < px.Length)
      invariant px[..index] == old(px[..from]) + Repeat(pixel, i)
    {
      px[index] := pixel;
      index := index + 1;
      assert px[..index] == old(px[..from]) + Repeat(pixel, i) + [pixel];
      assert Repeat(pixel, i + 1) == Repeat(pixel, i) + [pixel];
      if index == px.Length {
        break;
      }
      i := i + 1;
    }
  }

  /** `got` has been read of `num` pixels, and `rest` is left of the stream `s`. */
  ghost predicate ReadSoFar(f: Format, s: seq<Byte>, num: nat, got: seq<Pixel>, rest: seq<Byte>)
    requires |got| <= num
  {
    var more := ReadPixels(f, rest, num - |got|);
    ReadPixels(f, s, num) == (got + more.0, more.1)
  }

  lemma ReadStep(f: Format, s: seq<Byte>, num: nat, got: seq<Pixel>, rest: seq<Byte>)
    requires |got| < num && ReadSoFar(f, s, num, got, rest)
    ensures var (p, left) := ReadPixel(f, rest); ReadSoFar(f, s, num, got + [p], left)
  {
    var (p, left) := ReadPixel(f, rest);
    var (ps, end) := ReadPixels(f, left, num - |got| - 1);
    assert got + ([p] + ps) == got + [p] + ps;
  }

  /** Of the pixels that were there, those from `from` on have been overwritten. */
  ghost predicate Filled(cells: seq<Pixel>, was: seq<Pixel>, from: nat, got: seq<Pixel>) {
    from + |got| <= |was| && cells == was[..from] + got + was[from + |got|..]
  }

  lemma StartFilling(was: seq<Pixel>, from: nat)
    requires from <= |was|
    ensures Filled(was, was, from, [])
  {
  }

  lemma FilledNext(cells: seq<Pixel>, was: seq<Pixel>, from: nat, got: seq<Pixel>, pixel: Pixel)
    requires Filled(cells, was, from, got) && from + |got| < |was|
    ensures |cells| == |was| && Filled(cells[from + |got| := pixel], was, from, got + [pixel])
  {
  }

  /** Plain pixels from `from` on. */
  method FillPlain(f: Format, s: seq<Byte>, px: array<Pixel>, from: nat, num: nat) returns (rest: seq<Byte>)
    requires from + num <= px.Length
    modifies px
    ensures px[..] == old(px[..from]) + ReadPixels(f, s, num).0 + old(px[from + num..])
    ensures rest == ReadPixels(f, s, num).1
  {
    ghost var got: seq<Pixel>;
    rest, got := FillPixels(f, s, px, from, num);
  }

  method FillPixels(f: Format, s: seq<Byte>, px: array<Pixel>, from: nat, num: nat)
    returns (rest: seq<Byte>, ghost got: seq<Pixel>)
    requires from + num <= px.Length
    modifies px
    ensures (got, rest) == ReadPixels(f, s, num) && Filled(px[..], old(px[..]), from, got)
  {
    hide ReadSoFar, ReadPixel, ReadPixels, Filled;
    rest, got := s, [];
    ghost var was := px[..];
    StartReading(f, s, num);
    StartFilling(was, from);
    for i := 0 to num
      invariant |got| == i && Filled(px[..], was, from, got)
      invariant ReadSoFar(f, s, num, got, rest)
    {
      ReadStep(f, s, num, got, rest);
      var (pixel, left) := ReadPixel(f, rest);
      ghost var cells := px[..];
      FilledNext(cells, was, from, got, pixel);
      px[from + i] := pixel;
      assert px[..] == cells[from + i := pixel];
      rest, got := left, got + [pixel];
    }
    AllRead(f, s, num, got, rest);
  }

  lemma StartReading(f: Format, s: seq<Byte>, num: nat)
    ensures ReadSoFar(f, s, num, [], s)
  {
    assert [] + ReadPixels(f, s, num).0 == ReadPixels(f, s, num).0;
  }

  lemma AllRead(f: Format, s: seq<Byte>, num: nat, got: seq<Pixel>, rest: seq<Byte>)
    requires |got| == num && ReadSoFar(f, s, num, got, rest)
    ensures ReadPixels(f, s, num) == (got, rest)
  {
    assert got + [] == got;
  }

  /** One turn of the reader's loop: one packet, filled in from `from` on. */
  method ReadPacket(f: Format, s: seq<Byte>, px: array<Pixel>, from: nat)
    returns (thrown: bool, index: nat, rest: seq<Byte>)
    requires from < px.Length
    modifies px
    ensures match NextPacket(f, s, px.Length - from)
            case Overrun => thrown
            case Got(ps, left) => !thrown && index == from + |ps| && px[..index] == old(px[..from]) + ps && rest == left
  {
    thrown, index, rest := false, from, s;
    var num: int := -1;
    if s != [] {
      num := s[0];
      rest := s[1..];
    }
    var isRLE := IsRun(num);
    if isRLE {
      num := num - 127;
      var (pixel, left) := ReadPixel(f, rest);
      index := FillRun(px, from, num, pixel);
      rest := left;
    } else {
      num := num + 1;
      if from + num > px.Length {
        thrown := true;
        return;
      }
      rest := FillPlain(f, rest, px, from, num);
      index := from + num;
    }
  }

  /** The packet loop of loadImageTGA, filling the pixels of the new image, observed for so many turns: the source goes
      on until it has ended. */
  method ReadPackets(f: Format, s: seq<Byte>, px: array<Pixel>, turns: nat)
    returns (thrown: bool, index: nat, rest: seq<Byte>)
    modifies px
    ensures index <= px.Length
    ensures Turns(f, Reading([], s), px.Length, turns) == if thrown then Thrown else Reading(px[..index], rest)
  {
    hide NextPacket;
    thrown, index, rest := false, 0, s;
    var turn := 0;
    assert px[..0] == [];
    while index < px.Length && turn < turns
      invariant index <= px.Length && turn <= turns
      invariant Turns(f, Reading([], s), px.Length, turns)
             == Turns(f, Reading(px[..index], rest), px.Length, turns - turn)
    {
      ghost var before := Reading(px[..index], rest);
      thrown, index, rest := ReadPacket(f, rest, px, index);
      assert thrown ==> OneTurn(f, before, px.Length) == Thrown;
      if thrown {
        index := 0;
        return;
      }
      assert OneTurn(f, before, px.Length) == Reading(px[..index], rest);
      turn := turn + 1;
    }
  }

  lemma PrependNothing(more: Pixels)
    ensures Prepend([], more) == more
  {
    if more.Pixels? {
      assert [] + more.pixels == more.pixels;
    }
  }

  lemma PrependTwice(a: seq<Pixel>, b: seq<Pixel>, more: Pixels)
    ensures Prepend(a, Prepend(b, more)) == Prepend(a + b, more)
  {
    if more.Pixels? {
      assert a + (b + more.pixels) == a + b + more.pixels;
    }
  }

  // ----- Plain images -----

  lemma {:induction false} ReadMore(f: Format, s: seq<Byte>, a: nat, b: nat)
    ensures var (ps, rest) := ReadPixels(f, s, a);
      ReadPixels(f, s, a + b) == (ps + ReadPixels(f, rest, b).0, ReadPixels(f, rest, b).1)
    decreases a
  {
    hide ReadPixel;
    if a > 0 {
      var (p, left) := ReadPixel(f, s);
      ReadMore(f, left, a - 1, b);
      var (ps, rest) := ReadPixels(f, left, a - 1);
      assert [p] + (ps + ReadPixels(f, rest, b).0) == [p] + ps + ReadPixels(f, rest, b).0;
    } else {
      assert [] + ReadPixels(f, s, b).0 == ReadPixels(f, s, b).0;
    }
  }

  lemma NoRows(f: Format, s: seq<Byte>, w: nat)
    ensures Offset(w, 0) == 0 && ReadPixels(f, s, 0) == ([], s) && Flipped<Pixel>([], w, 0) == []
  {
  }

  /** Another row has been read, and filled in above the others. */
  lemma RowAbove(f: Format, s: seq<Byte>, got: seq<Pixel>, rest: seq<Byte>, row: seq<Pixel>, w: nat, k: nat)
    requires (got, rest) == ReadPixels(f, s, Offset(w, k)) && row == ReadPixels(f, rest, w).0
    ensures ReadPixels(f, s, Offset(w, k + 1)) == (got + row, ReadPixels(f, rest, w).1)
    ensures Flipped(got + row, w, k + 1) == row + Flipped(got, w, k)
  {
    hide Offset, ReadPixels, Flipped;
    NextRow(w, k);
    ReadMore(f, s, Offset(w, k), w);
    FlippedNext(got, row, w, k);
  }

  /** The loops of loadImageTGA over a plain image from its last row up. */
  method ReadUpward(f: Format, s: seq<Byte>, px: array<Pixel>, w: nat, h: nat)
    requires px.Length == Offset(w, h)
    modifies px
    ensures px[..] == Flipped(ReadPixels(f, s, Offset(w, h)).0, w, h)
  {
    hide Flipped, ReadPixels;
    var index: int := (h - 1) * w;
    var y: int := h - 1;
    var rest := s;
    ghost var got: seq<Pixel> := [];
    NoRows(f, s, w);
    while y >= 0
      invariant -1 <= y < h && index == y * w
      invariant (got, rest) == ReadPixels(f, s, Offset(w, h - 1 - y))
      invariant index + w == Offset(w, y + 1) <= px.Length && px[index + w..] == Flipped(got, w, h - 1 - y)
    {
      ghost var below, row := px[index + w..], ReadPixels(f, rest, w).0;
      RowAbove(f, s, got, rest, row, w, h - 1 - y);
      NextRow(w, y);
      rest := FillPlain(f, rest, px, index, w);
      assert px[index..] == row + below;
      got := got + row;
      index := index - w;
      y := y - 1;
    }
    assert px[0..] == px[..];
  }

  /** The branch of loadImageTGA for a plain image. */
  method ReadPlain(f: Format, s: seq<Byte>, px: array<Pixel>, w: nat, h: nat, reversed: bool)
    requires px.Length == Offset(w, h)
    modifies px
    ensures var ps := ReadPixels(f, s, Offset(w, h)).0; px[..] == if reversed then Flipped(ps, w, h) else ps
  {
    if reversed {
      ReadUpward(f, s, px, w, h);
    } else {
      var rest := FillPlain(f, s, px, 0, w * h);
    }
  }

  lemma Sides(w: nat, h: nat)
    requires w < 0x1_0000 && h < 0x1_0000
    ensures w * h < 2 * INT_LIMIT
  {
    Grows(h, w, 0xFFFF);
  }

  /** Of sides of sixteen bits, an int holds a negative number of pixels exactly when there are too many for it. */
  lemma Allocates(w: nat, h: nat, n: nat)
    requires w < 0x1_0000 && h < 0x1_0000 && n == w * h
    ensures Wrap(n) < 0 <==> n >= INT_LIMIT
  {
    hide Wrap;
    Sides(w, h);
  }

  /** loadImageTGA on a stream, if its loop ends within so many turns. */
  method LoadImageTGA(s: seq<Byte>, turns: nat) returns (r: Option<Loaded>)
    ensures r == LoadWithin(s, turns)
  {
    hide Flipped, ReadPixels, Turns;
    if |s| < 18 {
      return Some(NotLoaded(Null));
    }
    var header := s[..18];
    var (known, f) := HeaderFormat(header);
    if !known {
      return Some(NotLoaded(Null));
    }
    var w := Word(header[13], header[12]);
    var h := Word(header[15], header[14]);
    if Wrap(w * h) < 0 {
      return Some(NotLoaded(Failed));
    }
    var px := new Pixel[w * h];
    var reversed := header[17] / 0x20 % 2 != 0;
    if header[2] == 2 || header[2] == 3 {
      ReadPlain(f, s[18..], px, w, h, reversed);
    } else {
      var thrown, index, rest := ReadPackets(f, s[18..], px, turns);
      if thrown {
        return Some(NotLoaded(Failed));
      }
      if index < px.Length {
        return None;
      }
      assert px[..index] == px[..];
      if !reversed {
        FlipRows(px, w, h);
      }
    }
    r := Some(Loaded(Image(f, w, h, px[..])));
  }
}
