/**
 Saving an image and loading it again: the run-length packets tile the image, and the reader undoes the writer.
 */
module TargaProofs {
  import opened Ints
  import opened Rows
  import opened Targa
  import opened Wrappers

  /** What becomes of a pixel that is saved and loaded: the low byte, an opaque color, or itself. */
  function Restore(f: Format, p: Pixel): Pixel {
    match f
    case Alpha => p % 0x100
    case Rgb => 0xFF00_0000 + p % 0x100_0000
    case Argb => p
  }

  function RestoreAll(f: Format, ps: seq<Pixel>): (r: seq<Pixel>)
    ensures |r| == |ps|
  {
    seq(|ps|, i requires 0 <= i < |ps| => Restore(f, ps[i]))
  }

  // ----- The packets -----

  function Content(packet: Packet): (ps: seq<Pixel>)
    ensures |ps| == Size(packet)
  {
    match packet
    case Run(count, color) => Repeat(color, count)
    case Raw(colors) => colors
  }

  function Expand(packets: seq<Packet>): seq<Pixel> {
    if packets == [] then [] else Content(packets[0]) + Expand(packets[1..])
  }

  /** A run is what it looks for: it repeats one color, and it ends at another color or at 128 pixels
      unless it ends the image. */
  lemma {:induction false} RunEndMeans(k: seq<Pixel>, rle: nat)
    requires 1 <= rle <= |k| && rle <= 128
    requires forall i :: 0 <= i < rle ==> k[i] == k[0]
    ensures var end := RunEnd(k, rle);
            && (forall i :: 0 <= i < end ==> k[i] == k[0])
            && (end == |k| || end == 128 || k[end] != k[0])
    decreases |k| - rle
  {
    if rle < |k| && k[0] == k[rle] && rle != 128 {
      RunEndMeans(k, rle + 1);
    }
  }

  lemma FirstPacketTiles(k: seq<Pixel>)
    requires k != []
    ensures var packet := FirstPacket(k); Size(packet) <= |k| && Content(packet) == k[..Size(packet)]
  {
    RunEndMeans(k, 1);
  }

  /** The packets tile the image exactly, with 1 to 128 pixels in each; a run is at least two pixels long. */
  lemma {:induction false} PacketsTile(k: seq<Pixel>)
    ensures Expand(Packets(k)) == k
    ensures forall i :: 0 <= i < |Packets(k)| ==>
      Legal(Packets(k)[i]) && (Packets(k)[i].Run? ==> Size(Packets(k)[i]) > 1)
    decreases |k|
  {
    hide FirstPacket, Content, Size;
    if k != [] {
      FirstPacketTiles(k);
      FirstPacketLegal(k);
      var n := Size(FirstPacket(k));
      PacketsTile(k[n..]);
      assert k == k[..n] + k[n..];
    }
  }

  lemma FirstPacketLegal(k: seq<Pixel>)
    requires k != []
    ensures Legal(FirstPacket(k)) && (FirstPacket(k).Run? ==> Size(FirstPacket(k)) > 1)
  {
  }

  /** Pixels other than the one before them, from the fourth on. */
  ghost predicate Changing(k: seq<Pixel>, n: nat)
    requires n <= |k|
  {
    forall i :: 3 <= i < n ==> k[i - 1] != k[i]
  }

  /** A plain packet ends with the image, or at 128 pixels, or two pixels before the first repeat after the third. */
  ghost predicate PlainEnd(k: seq<Pixel>, end: nat) {
    || (end == |k| <= 128 && Changing(k, end))
    || (end == 128 < |k| && Changing(k, end) && k[127] != k[128])
    || (1 <= end <= 126 && end + 2 < |k| && Changing(k, end + 2) && k[end + 1] == k[end + 2])
  }

  /** There is one such end only. */
  lemma PlainEndUnique(k: seq<Pixel>, a: nat, b: nat)
    requires PlainEnd(k, a) && PlainEnd(k, b)
    ensures a == b
  {
  }

  lemma {:induction false} RawEndMeans(k: seq<Pixel>, rle: nat)
    requires 1 <= rle <= |k| && rle <= 128 && Changing(k, rle)
    ensures PlainEnd(k, RawEnd(k, rle))
    decreases |k| - rle
  {
    if rle < |k| && ((k[rle - 1] != k[rle] && rle < 128) || rle < 3) {
      RawEndMeans(k, rle + 1);
    }
  }

  /** A run is written exactly when the first two pixels are equal, unless all that is left is 128 equal pixels or
      fewer; it takes all pixels up to the first other one, but no more than 128. */
  lemma FirstPacketMeans(k: seq<Pixel>)
    requires k != []
    ensures var packet := FirstPacket(k);
      && (packet.Run? <==> |k| > 1 && k[0] == k[1] && (|k| > 128 || exists i :: 0 <= i < |k| && k[i] != k[0]))
      && match packet
         case Run(n, color) => color == k[0] && 1 < n < |k| && (forall i :: 0 <= i < n ==> k[i] == k[0])
                               && n <= 128 && (n < 128 ==> k[n] != k[0])
         case Raw(colors) => PlainEnd(k, |colors|) && colors == k[..|colors|]
  {
    RunEndMeans(k, 1);
    RawEndMeans(k, 1);
    if |k| > 1 && k[0] == k[1] {
      assert RunEnd(k, 1) == RunEnd(k, 2);
    }
  }

  // ----- An image of one color -----

  /** Packets of one pixel each but for the last one, which holds what is left when there are three. */
  function Singles(n: nat, color: Pixel): (packets: seq<Packet>)
    requires n > 0
    decreases n
  {
    if n <= 3 then [Raw(Repeat(color, n))] else [Raw([color])] + Singles(n - 1, color)
  }

  /** Runs of 128 pixels as long as there are more, and then no run at all. */
  function UniformPackets(n: nat, color: Pixel): (packets: seq<Packet>)
    requires n > 0
    decreases n
  {
    if n > 128 then [Run(128, color)] + UniformPackets(n - 128, color) else Singles(n, color)
  }

  lemma RepeatRest(color: Pixel, n: nat, m: nat)
    requires m <= n
    ensures Repeat(color, n)[m..] == Repeat(color, n - m) && Repeat(color, n)[..m] == Repeat(color, m)
  {
  }

  lemma UniformFirst(n: nat, color: Pixel)
    requires n > 0
    ensures FirstPacket(Repeat(color, n))
         == if n > 128 then Run(128, color) else Raw(Repeat(color, if n <= 3 then n else 1))
  {
    var k := Repeat(color, n);
    FirstPacketMeans(k);
    if n > 128 {
      assert k[0] == k[1] == color;
    } else {
      var end := if n <= 3 then n else 1;
      assert PlainEnd(k, end);
      PlainEndUnique(k, |FirstPacket(k).colors|, end);
      RepeatRest(color, n, end);
    }
  }

  /** The packets of an image of one color: the last 128 pixels or fewer are written one by one, but for three. */
  lemma {:induction false} UniformSaved(n: nat, color: Pixel)
    requires n > 0
    ensures Packets(Repeat(color, n)) == UniformPackets(n, color)
    decreases n
  {
    hide FirstPacket;
    UniformFirst(n, color);
    var m := Size(FirstPacket(Repeat(color, n)));
    RepeatRest(color, n, m);
    if m < n {
      UniformSaved(n - m, color);
      assert Repeat(color, 1) == [color];
    } else {
      assert Repeat(color, n)[m..] == [];
    }
  }

  lemma {:induction false} SinglesCount(n: nat, color: Pixel)
    requires n > 0
    ensures |Singles(n, color)| == if n <= 3 then 1 else n - 2
    decreases n
  {
    if n > 3 {
      SinglesCount(n - 1, color);
    }
  }

  /** So 128 equal pixels take 126 packets, and one pixel more makes it two. */
  lemma UniformCounts(color: Pixel)
    ensures |Packets(Repeat(color, 128))| == 126 && |Packets(Repeat(color, 129))| == 2
  {
    UniformSaved(128, color);
    UniformSaved(129, color);
    SinglesCount(128, color);
    SinglesCount(1, color);
    assert UniformPackets(129, color) == [Run(128, color)] + Singles(1, color);
  }

  // ----- Reading back -----

  predicate IsKey(f: Format, p: Pixel) { Key(f, p) == p }

  lemma LowWord(n: nat)
    ensures n % 0x100 + 0x100 * (n / 0x100 % 0x100) == n % 0x1_0000
    ensures n / 0x100 / 0x100 == n / 0x1_0000
  {
  }

  lemma PixelDigits(p: Pixel)
    ensures p % 0x100 + 0x100 * (p / 0x100 % 0x100) + 0x1_0000 * (p / 0x1_0000 % 0x100) == p % 0x100_0000
    ensures p % 0x100_0000 + 0x100_0000 * (p / 0x100_0000 % 0x100) == p
  {
    LowWord(p);
    assert p % 0x1_0000 + 0x1_0000 * (p / 0x1_0000 % 0x100) == p % 0x100_0000;
    assert p / 0x100_0000 < 0x100;
  }

  /** The bytes of a pixel are written lowest first: blue, green, red and alpha. */
  lemma PixelPlaces(f: Format, p: Pixel)
    ensures var b: seq<int> := PixelBytes(f, p);
      match f
      case Alpha => |b| == 1 && b[0] == p % 0x100
      case Rgb => |b| == 3 && b[0] + 0x100 * b[1] + 0x1_0000 * b[2] == p % 0x100_0000
      case Argb => |b| == 4 && b[0] + 0x100 * b[1] + 0x1_0000 * b[2] + 0x100_0000 * b[3] == p
  {
    PixelDigits(p);
  }

  function ByteAt(p: Pixel, i: nat): nat
    requires i < 4
  {
    match i case 0 => p % 0x100 case 1 => p / 0x100 % 0x100 case 2 => p / 0x1_0000 % 0x100 case 3 => p / 0x100_0000
  }

  /** A pixel holds the bytes that were read at their places; a byte that was not read is all ones, and so is the top
      byte of an opaque pixel. Above a gray value there is nothing, if it was read. */
  lemma AssembledBytes(f: Format, got: seq<Byte>, i: nat)
    requires |got| <= Width(f) && i < 4
    ensures ByteAt(Assemble(f, got), i)
         == if i < |got| then got[i] else if f == Alpha && |got| == 1 then 0 else 0xff
  {
    var n, fill := |got|, if f == Alpha && |got| == 1 then 0 else 0xff;
    var b0: int, b1: int := if n > 0 then got[0] else fill, if n > 1 then got[1] else fill;
    var b2: int, b3: int := if n > 2 then got[2] else fill, if n > 3 then got[3] else fill;
    assert Assemble(f, got) == b0 + 0x100 * b1 + 0x1_0000 * b2 + 0x100_0000 * b3;
    FourBytes(b0, b1, b2, b3, Assemble(f, got), i);
  }

  lemma FourBytes(b0: int, b1: int, b2: int, b3: int, p: Pixel, i: nat)
    requires 0 <= b0 < 0x100 && 0 <= b1 < 0x100 && 0 <= b2 < 0x100 && 0 <= b3 < 0x100 && i < 4
    requires p == b0 + 0x100 * b1 + 0x1_0000 * b2 + 0x100_0000 * b3
    ensures ByteAt(p, i) == match i case 0 => b0 case 1 => b1 case 2 => b2 case 3 => b3
  {
    assert p / 0x100 == b1 + 0x100 * b2 + 0x1_0000 * b3;
    assert p / 0x1_0000 == b2 + 0x100 * b3;
    assert p / 0x100_0000 == b3;
  }

  lemma PixelAssembles(f: Format, p: Pixel)
    requires IsKey(f, p)
    ensures |PixelBytes(f, p)| == Width(f) && Assemble(f, PixelBytes(f, p)) == Restore(f, p)
  {
    PixelDigits(p);
  }

  lemma PixelReads(f: Format, p: Pixel, tail: seq<Byte>)
    requires IsKey(f, p)
    ensures ReadPixel(f, PixelBytes(f, p) + tail) == (Restore(f, p), tail)
  {
    PixelAssembles(f, p);
    var bytes := PixelBytes(f, p);
    assert (bytes + tail)[..|bytes|] == bytes && (bytes + tail)[|bytes|..] == tail;
  }

  lemma {:induction false} ColorsRead(f: Format, ps: seq<Pixel>, tail: seq<Byte>)
    requires AreKeys(f, ps)
    ensures ReadPixels(f, ColorBytes(f, ps) + tail, |ps|) == (RestoreAll(f, ps), tail)
  {
    hide ReadPixel, PixelBytes, Restore, Key;
    if ps == [] {
      assert ColorBytes(f, ps) + tail == tail;
    } else {
      var more := ColorBytes(f, ps[1..]) + tail;
      assert ColorBytes(f, ps) + tail == PixelBytes(f, ps[0]) + more;
      PixelReads(f, ps[0], more);
      ColorsRead(f, ps[1..], tail);
      assert [Restore(f, ps[0])] + RestoreAll(f, ps[1..]) == RestoreAll(f, ps);
    }
  }

  ghost predicate AreKeys(f: Format, ps: seq<Pixel>) {
    forall i :: 0 <= i < |ps| ==> IsKey(f, ps[i])
  }

  lemma RunReads(f: Format, count: nat, color: Pixel, tail: seq<Byte>, n: nat)
    requires 1 <= count <= 128 && count <= n && IsKey(f, color)
    ensures NextPacket(f, PacketBytes(f, Run(count, color)) + tail, n) == Got(RestoreAll(f, Repeat(color, count)), tail)
  {
    PixelReads(f, color, tail);
    assert (PacketBytes(f, Run(count, color)) + tail)[1..] == PixelBytes(f, color) + tail;
    assert RestoreAll(f, Repeat(color, count)) == Repeat(Restore(f, color), count);
  }

  lemma RawReads(f: Format, colors: seq<Pixel>, tail: seq<Byte>, n: nat)
    requires 1 <= |colors| <= 128 && |colors| <= n && AreKeys(f, colors)
    ensures NextPacket(f, PacketBytes(f, Raw(colors)) + tail, n) == Got(RestoreAll(f, colors), tail)
  {
    hide ReadPixels, ColorBytes, RestoreAll, AreKeys;
    ColorsRead(f, colors, tail);
    Behind(|colors| - 1, ColorBytes(f, colors), tail);
  }

  lemma Behind<T>(first: T, body: seq<T>, tail: seq<T>)
    ensures var s := [first] + body + tail; s != [] && s[0] == first && s[1..] == body + tail
  {
  }

  /** Any legal packet is read back, when at least as many pixels are expected. */
  lemma PacketReads(f: Format, packet: Packet, tail: seq<Byte>, n: nat)
    requires Legal(packet) && Size(packet) <= n && AreKeys(f, Content(packet))
    ensures NextPacket(f, PacketBytes(f, packet) + tail, n) == Got(RestoreAll(f, Content(packet)), tail)
  {
    match packet
    case Run(count, color) =>
      assert Content(packet)[0] == color;
      RunReads(f, count, color, tail, n);
    case Raw(colors) =>
      RawReads(f, colors, tail, n);
  }

  lemma RestoreAppend(f: Format, a: seq<Pixel>, b: seq<Pixel>)
    ensures RestoreAll(f, a + b) == RestoreAll(f, a) + RestoreAll(f, b)
  {
  }

  lemma KeysAppend(f: Format, a: seq<Pixel>, b: seq<Pixel>)
    requires AreKeys(f, a + b)
    ensures AreKeys(f, a) && AreKeys(f, b)
  {
    assert forall i :: 0 <= i < |a| ==> a[i] == (a + b)[i];
    assert forall i :: 0 <= i < |b| ==> b[i] == (a + b)[|a| + i];
  }

  lemma DecodeNext(f: Format, s: seq<Byte>, n: nat)
    requires n > 0 && s != []
    ensures var next := NextPacket(f, s, n);
      Decode(f, s, n) == if next.Overrun? then NoPixels(Failed)
                         else Prepend(next.pixels, Decode(f, next.rest, n - |next.pixels|))
  {
    hide NextPacket, Prepend;
  }

  lemma PacketStarts(f: Format, packet: Packet, tail: seq<Byte>)
    requires Legal(packet)
    ensures PacketBytes(f, packet) + tail != []
  {
  }

  lemma DecodePacket(f: Format, packet: Packet, s: seq<Byte>, n: nat, tail: seq<Byte>, left: nat)
    requires Legal(packet) && AreKeys(f, Content(packet))
    requires s == PacketBytes(f, packet) + tail && n == Size(packet) + left
    ensures Decode(f, s, n) == Prepend(RestoreAll(f, Content(packet)), Decode(f, tail, left))
  {
    hide NextPacket, PacketBytes, Prepend, RestoreAll, AreKeys, Content, Decode;
    PacketStarts(f, packet, tail);
    PacketReads(f, packet, tail, n);
    DecodeNext(f, s, n);
  }

  lemma PrependJoined(f: Format, a: seq<Pixel>, b: seq<Pixel>, end: Pixels)
    ensures Prepend(RestoreAll(f, a), Prepend(RestoreAll(f, b), end)) == Prepend(RestoreAll(f, a + b), end)
  {
    PrependTwice(RestoreAll(f, a), RestoreAll(f, b), end);
    RestoreAppend(f, a, b);
  }

  /** The reader undoes any list of legal packets, and goes on with what follows. */
  lemma {:induction false} PacketsRead(f: Format, packets: seq<Packet>, s: seq<Byte>, n: nat, tail: seq<Byte>,
                                    left: nat)
    requires AllLegal(packets) && AreKeys(f, Expand(packets))
    requires s == Encode(f, packets) + tail && n == |Expand(packets)| + left
    ensures Decode(f, s, n) == Prepend(RestoreAll(f, Expand(packets)), Decode(f, tail, left))
    decreases |packets|
  {
    hide PacketBytes, NextPacket, Decode, RestoreAll, AreKeys, Legal, Prepend;
    if packets == [] {
      assert s == tail;
      NothingRestored(f, Decode(f, tail, left));
    } else {
      var head, more := Content(packets[0]), Expand(packets[1..]);
      var rest, m := Encode(f, packets[1..]) + tail, |more| + left;
      KeysAppend(f, head, more);
      Regroup(PacketBytes(f, packets[0]), Encode(f, packets[1..]), tail);
      DecodePacket(f, packets[0], s, n, rest, m);
      PacketsRead(f, packets[1..], rest, m, tail, left);
      PrependJoined(f, head, more, Decode(f, tail, left));
    }
  }

  lemma NothingRestored(f: Format, more: Pixels)
    ensures Prepend(RestoreAll(f, []), more) == more
  {
    PrependNothing(more);
  }

  function Saved(image: Image): seq<Byte> {
    Header(image.format, image.width, image.height) + Encode(image.format, Packets(Keys(image.format, image.pixels)))
  }

  /** A header as the reader takes it: packed or plain, and with the upper row first or last. */
  function TypedHeader(f: Format, packed: bool, reversed: bool, width: nat, height: nat): (h: seq<Byte>)
    ensures |h| == 18
  {
    [0, 0, (if f == Alpha then 3 else 2) + if packed then 8 else 0,
     0, 0, 0, 0, 0, 0, 0, 0, 0,
     width % 0x100, width / 0x100 % 0x100, height % 0x100, height / 0x100 % 0x100,
     match f { case Alpha => 8 case Rgb => 24 case Argb => 32 },
     (if f == Rgb then 0 else 0x08) + if reversed then 0x20 else 0]
  }

  lemma WordRead(n: nat)
    ensures Word(n / 0x100 % 0x100, n % 0x100) == n % 0x1_0000
  {
    LowWord(n);
  }

  lemma HeaderMeans(f: Format, packed: bool, reversed: bool, width: nat, height: nat, body: seq<Byte>)
    ensures var s := TypedHeader(f, packed, reversed, width, height) + body;
      && Describe(s) == Some(Start(f, width % 0x1_0000, height % 0x1_0000, packed, reversed)) && s[18..] == body
  {
    var header := TypedHeader(f, packed, reversed, width, height);
    WordRead(width);
    WordRead(height);
    assert (header + body)[..18] == header && (header + body)[18..] == body;
  }

  /** Nothing else is taken for a header: of the bytes that are looked at, all are as in one of these. */
  lemma HeaderKnown(s: seq<Byte>)
    ensures Describe(s).Some? ==>
      var start := Describe(s).value;
      var h := TypedHeader(start.f, start.packed, start.reversed, start.width, start.height);
      |s| >= 18 && s[2] == h[2] && s[12..18] == h[12..]
  {
    hide HeaderFormat, Word;
    if Describe(s).Some? {
      var h := s[..18];
      FormatKnown(h);
      WordBytes(h[13], h[12]);
      WordBytes(h[15], h[14]);
      assert forall i :: 0 <= i < 18 ==> h[i] == s[i];
    }
  }

  lemma WordBytes(high: Byte, low: Byte)
    ensures Word(high, low) % 0x100 == low && Word(high, low) / 0x100 % 0x100 == high
  {
  }

  lemma FormatKnown(h: seq<Byte>)
    requires |h| == 18
    ensures var (known, f) := HeaderFormat(h);
      known ==>
        && h[2] == (if f == Alpha then 3 else 2) + (if h[2] != 2 && h[2] != 3 then 8 else 0)
        && h[16] == (match f { case Alpha => 8 case Rgb => 24 case Argb => 32 })
        && h[17] == (if f == Rgb then 0 else 0x08) + if h[17] / 0x20 % 2 != 0 then 0x20 else 0
  {
  }

  /** The reader understands the header, but for the sides being taken modulo 2^16, and throws when it has no int for
      the number of pixels. */
  lemma HeaderReads(f: Format, width: nat, height: nat, body: seq<Byte>, w: nat, h: nat, n: nat)
    requires w == width % 0x1_0000 && h == height % 0x1_0000 && n == w * h
    ensures Load(Header(f, width, height) + body) ==
            if n >= INT_LIMIT then NotLoaded(Failed)
            else match Decode(f, body, n)
                 case NoPixels(why) => NotLoaded(why)
                 case Pixels(ps) => Loaded(Image(f, w, h, ps))
  {
    hide Describe, Decode, Wrap;
    assert Header(f, width, height) == TypedHeader(f, true, true, width, height);
    HeaderMeans(f, true, true, width, height, body);
    Allocates(w, h, n);
  }

  lemma LoadedSides(s: seq<Byte>)
    ensures Load(s).Loaded? ==> Load(s).image.width < 0x1_0000 && Load(s).image.height < 0x1_0000
  {
  }

  /** Reading the packets of all pixels of an image, or of too few. */
  lemma BodyReads(f: Format, k: seq<Pixel>, n: nat)
    requires |k| <= n && AreKeys(f, k)
    ensures Decode(f, Encode(f, Packets(k)), n) == if |k| == n then Pixels(RestoreAll(f, k)) else NoPixels(Hangs)
  {
    PacketsTile(k);
    var body := Encode(f, Packets(k));
    assert body + [] == body;
    PacketsRead(f, Packets(k), body, n, [], n - |k|);
    assert RestoreAll(f, k) + [] == RestoreAll(f, k);
  }

  lemma SaveLoadFits(f: Format, width: nat, height: nat, n: nat, k: seq<Pixel>)
    requires width < 0x1_0000 && height < 0x1_0000 && n == width * height < INT_LIMIT
    requires |k| <= n && AreKeys(f, k)
    ensures Load(Header(f, width, height) + Encode(f, Packets(k)))
         == if |k| == n then Loaded(Image(f, width, height, RestoreAll(f, k))) else NotLoaded(Hangs)
  {
    assert width % 0x1_0000 == width && height % 0x1_0000 == height;
    HeaderReads(f, width, height, Encode(f, Packets(k)), width, height, n);
    BodyReads(f, k, n);
  }

  /** Loading what was saved gives the image back, with the pixels its format can hold: exactly when both sides
      fit in the sixteen bits that the header has for them. */
  lemma SaveLoad(image: Image)
    requires image.Valid()
    ensures Load(Saved(image)) == Loaded(image.(pixels := RestoreAll(image.format, image.pixels)))
       <==> image.width < 0x1_0000 && image.height < 0x1_0000
  {
    var f, k := image.format, Keys(image.format, image.pixels);
    if image.width < 0x1_0000 && image.height < 0x1_0000 {
      SaveLoadFits(f, image.width, image.height, |image.pixels|, k);
      assert RestoreAll(f, k) == RestoreAll(f, image.pixels);
    } else {
      LoadedSides(Saved(image));
    }
  }

  // ----- Which row is the upper one -----

  /** Reading the packets of all pixels, or the plain pixels. */
  lemma BothRead(f: Format, packets: seq<Packet>, n: nat)
    requires AllLegal(packets) && AreKeys(f, Expand(packets)) && |Expand(packets)| == n
    ensures var ps := Expand(packets);
      && Decode(f, Encode(f, packets), n) == Pixels(RestoreAll(f, ps))
      && ReadPixels(f, ColorBytes(f, ps), n).0 == RestoreAll(f, ps)
  {
    hide AreKeys, ReadPixels;
    var ps, body := Expand(packets), Encode(f, packets);
    assert body + [] == body && ColorBytes(f, ps) + [] == ColorBytes(f, ps);
    PacketsRead(f, packets, body, n, [], 0);
    assert RestoreAll(f, ps) + [] == RestoreAll(f, ps);
    ColorsRead(f, ps, []);
  }

  /** The same pixels under the same origin, once packed and once plain, are loaded upside down to each other; so they
      make the same image exactly when its rows are. */
  lemma PlainUpsideDown(f: Format, reversed: bool, w: nat, h: nat, packets: seq<Packet>)
    requires w < 0x1_0000 && h < 0x1_0000 && w * h < INT_LIMIT
    requires AllLegal(packets) && AreKeys(f, Expand(packets)) && |Expand(packets)| == w * h
    ensures var ps := RestoreAll(f, Expand(packets));
      var packed := Load(TypedHeader(f, true, reversed, w, h) + Encode(f, packets));
      var plain := Load(TypedHeader(f, false, reversed, w, h) + ColorBytes(f, Expand(packets)));
      && packed == Loaded(Image(f, w, h, if reversed then ps else Flipped(ps, w, h)))
      && plain == Loaded(Image(f, w, h, if reversed then Flipped(ps, w, h) else ps))
      && plain.image.pixels == Flipped(packed.image.pixels, w, h)
      && (packed == plain <==> Flipped(ps, w, h) == ps)
  {
    hide Describe, Decode, Wrap, ReadPixels, Encode, ColorBytes, RestoreAll, AreKeys, Flipped, TypedHeader;
    var ps := RestoreAll(f, Expand(packets));
    BothRead(f, packets, w * h);
    HeaderMeans(f, true, reversed, w, h, Encode(f, packets));
    HeaderMeans(f, false, reversed, w, h, ColorBytes(f, Expand(packets)));
    Allocates(w, h, w * h);
    FlippedTwice(ps, w, h);
  }

  // ----- Streams that are too short -----

  /** At the end of the stream a turn changes nothing: a read yields -1, which is taken for a run of -128 pixels. */
  lemma TurnAtEnd(f: Format, done: seq<Pixel>, n: nat)
    requires |done| < n
    ensures OneTurn(f, Reading(done, []), n) == Reading(done, [])
  {
    assert Repeat(Assemble(f, []), 0) == [] && done + [] == done;
  }

  /** So no number of turns ends the loop. */
  lemma {:induction false} StuckForever(f: Format, done: seq<Pixel>, n: nat, turns: nat)
    requires |done| < n
    ensures Turns(f, Reading(done, []), n, turns) == Reading(done, [])
    decreases turns
  {
    if turns > 0 {
      TurnAtEnd(f, done, n);
      StuckForever(f, done, n, turns - 1);
    }
  }

  /** What the loop comes to, from this reading on. */
  function Outcome(f: Format, r: Reading, n: nat): Pixels {
    if r.Thrown? then NoPixels(Failed)
    else if |r.done| > n then NoPixels(Null)
    else Prepend(r.done, Decode(f, r.rest, n - |r.done|))
  }

  lemma TurnKeepsOutcome(f: Format, r: Reading, n: nat)
    requires r.Reading? && |r.done| < n && r.rest != []
    ensures Outcome(f, OneTurn(f, r, n), n) == Outcome(f, r, n)
    ensures OneTurn(f, r, n).Reading? ==> |OneTurn(f, r, n).done| <= n && |OneTurn(f, r, n).rest| < |r.rest|
  {
    hide NextPacket, Decode;
    var m := n - |r.done|;
    DecodeNext(f, r.rest, m);
    var next := NextPacket(f, r.rest, m);
    if next.Got? {
      PrependTwice(r.done, next.pixels, Decode(f, next.rest, m - |next.pixels|));
    }
  }

  /** When the loop has ended within some turns, it has come to its outcome; it has within as many turns as the stream
      has bytes, unless the outcome is that it hangs. */
  lemma {:induction false} TurnsReach(f: Format, r: Reading, n: nat, turns: nat)
    requires r.Reading? ==> |r.done| <= n
    ensures var end := Turns(f, r, n, turns);
      Over(end, n) ==> Outcome(f, r, n) == if end.Thrown? then NoPixels(Failed) else Pixels(end.done)
    ensures r.Reading? && |r.rest| <= turns && Outcome(f, r, n) != NoPixels(Hangs) ==> Over(Turns(f, r, n, turns), n)
    decreases turns
  {
    if Over(r, n) {
      if r.Reading? {
        assert r.done + [] == r.done;
      }
    } else if r.rest == [] {
      StuckForever(f, r.done, n, turns);
    } else if turns > 0 {
      TurnKeepsOutcome(f, r, n);
      TurnsReach(f, OneTurn(f, r, n), n, turns - 1);
    }
  }

  lemma LoadAfter(s: seq<Byte>, turns: nat)
    ensures LoadWithin(s, turns).Some? ==> LoadWithin(s, turns).value == Load(s) != NotLoaded(Hangs)
    ensures Load(s) != NotLoaded(Hangs) && |s| <= turns ==> LoadWithin(s, turns).Some?
  {
    hide Describe, Turns, Decode, ReadPixels, Flipped, Wrap;
    if CheckHeader(s).Go? {
      var start := CheckHeader(s).start;
      var n := start.Count();
      PrependNothing(Decode(start.f, s[18..], n));
      TurnsReach(start.f, Reading([], s[18..]), n, turns);
    }
  }

  /** The loop ends, with the outcome, or else it has not ended after any number of turns. */
  lemma LoadIsLimit(s: seq<Byte>)
    ensures forall turns: nat :: LoadWithin(s, turns).Some? ==> LoadWithin(s, turns).value == Load(s)
    ensures Load(s) == NotLoaded(Hangs) <==> forall turns: nat :: LoadWithin(s, turns).None?
    ensures Load(s) != NotLoaded(Hangs) ==> LoadWithin(s, |s|) == Some(Load(s))
  {
    hide LoadWithin, Load;
    forall turns: nat
      ensures LoadWithin(s, turns).Some? ==> LoadWithin(s, turns).value == Load(s) != NotLoaded(Hangs)
    {
      LoadAfter(s, turns);
    }
    LoadAfter(s, |s|);
  }

  function Drop(s: seq<Byte>, n: nat): seq<Byte> { if n <= |s| then s[n..] else [] }

  /** How many pixels the packets of a stream announce, by their first bytes. */
  function Announced(f: Format, s: seq<Byte>): nat
    decreases |s|
  {
    if s == [] then 0
    else if s[0] >= 0x80 then s[0] - 127 + Announced(f, Drop(s[1..], Width(f)))
    else s[0] + 1 + Announced(f, Drop(s[1..], (s[0] + 1) * Width(f)))
  }

  lemma DropTwice(s: seq<Byte>, a: nat, b: nat)
    ensures Drop(Drop(s, a), b) == Drop(s, a + b)
  {
  }

  lemma {:induction false} PixelsDrop(f: Format, s: seq<Byte>, count: nat)
    ensures ReadPixels(f, s, count).1 == Drop(s, count * Width(f))
    decreases count
  {
    if count > 0 {
      var rest := ReadPixel(f, s).1;
      assert rest == Drop(s, Width(f));
      PixelsDrop(f, rest, count - 1);
      DropTwice(s, Width(f), (count - 1) * Width(f));
    }
  }

  lemma PacketDrops(f: Format, s: seq<Byte>, n: nat)
    requires n > 0 && s != []
    ensures var next := NextPacket(f, s, n);
      if s[0] >= 0x80 then next.Got? && |next.pixels| == RunLength(s[0] - 127, n) && next.rest == Drop(s[1..], Width(f))
      else if s[0] + 1 > n then next.Overrun?
      else next.Got? && |next.pixels| == s[0] + 1 && next.rest == Drop(s[1..], (s[0] + 1) * Width(f))
  {
    hide Assemble;
    if s[0] < 0x80 {
      PixelsDrop(f, s[1..], s[0] + 1);
    }
  }

  lemma PrependHangs(ps: seq<Pixel>, more: Pixels)
    ensures Prepend(ps, more) == NoPixels(Hangs) <==> more == NoPixels(Hangs)
  {
  }

  lemma {:induction false} HangsWhenShort(f: Format, s: seq<Byte>, n: nat)
    ensures Decode(f, s, n) == NoPixels(Hangs) <==> Announced(f, s) < n
    decreases |s|
  {
    hide NextPacket, Prepend, Width;
    if s != [] && n > 0 {
      PacketDrops(f, s, n);
      DecodeNext(f, s, n);
      var next := NextPacket(f, s, n);
      if next.Got? {
        HangsWhenShort(f, next.rest, n - |next.pixels|);
        PrependHangs(next.pixels, Decode(f, next.rest, n - |next.pixels|));
      }
    }
  }

  /** A header of packed pixels whose number is an int, with packets behind it that announce fewer. */
  predicate TooShort(s: seq<Byte>) {
    match Describe(s)
    case None => false
    case Some(start) =>
      start.packed && start.width * start.height < INT_LIMIT
      && Announced(start.f, s[18..]) < start.width * start.height
  }

  /** Of all streams exactly these keep the reader from ending, after however many turns. */
  lemma HangsExactlyWhenShort(s: seq<Byte>)
    ensures (forall turns: nat :: LoadWithin(s, turns).None?) <==> TooShort(s)
  {
    hide Describe, Decode, Wrap, Announced, LoadWithin;
    LoadIsLimit(s);
    var described := Describe(s);
    if described.Some? {
      var start := described.value;
      Allocates(start.width, start.height, start.Count());
      HangsWhenShort(start.f, s[18..], start.Count());
    }
  }

  /** A header alone, of more pixels than an int counts: nothing is announced, and the reader throws at once. */
  lemma HugeHeaderThrows()
    ensures var s := Header(Rgb, 65535, 65535);
      LoadWithin(s, 0) == Some(NotLoaded(Failed)) && Announced(Rgb, s[18..]) == 0 < 65535 * 65535
  {
    var s := Header(Rgb, 65535, 65535);
    assert s + [] == s;
    HeaderReads(Rgb, 65535, 65535, [], 65535, 65535, 65535 * 65535);
    LoadAtOnce(s);
  }

  lemma LoadAtOnce(s: seq<Byte>)
    requires CheckHeader(s).No?
    ensures LoadWithin(s, 0) == Some(Load(s))
  {
  }

  /** What the writer makes of too few pixels is too short, if an int counts those that are missing. */
  lemma ShortStreamHangs(f: Format, width: nat, height: nat, k: seq<Pixel>)
    requires width < 0x1_0000 && height < 0x1_0000 && |k| < width * height
    requires AreKeys(f, k)
    ensures Load(Header(f, width, height) + Encode(f, Packets(k)))
         == NotLoaded(if width * height < INT_LIMIT then Hangs else Failed)
  {
    if width * height < INT_LIMIT {
      SaveLoadFits(f, width, height, width * height, k);
    } else {
      assert width % 0x1_0000 == width && height % 0x1_0000 == height;
      HeaderReads(f, width, height, Encode(f, Packets(k)), width, height, width * height);
    }
  }
}
