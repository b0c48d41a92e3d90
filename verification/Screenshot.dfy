/**
 The screen dump of libraries/Gameduino/GD.cpp: lines are sent in the order in which the raster lets them be fetched,
 with a bitmap of the lines still to be sent, and runs of zero pixels are compressed.

 What the device is asked becomes a parameter: `raster[i]` is the register read before the i-th line is chosen, and
 `screen[y]` holds the 400 words of line y.
 */
module Screenshot {
  import opened Gameduino
  import opened Wrappers

  const LINES: nat := 300
  const WORDS: nat := 400

  // ----- The order of the lines -----

  /** The lines ahead of the raster, in the order in which they are tried. */
  function FirstTried(raster: nat): nat { (raster % 0x200 + 7) % LINES }

  function Following(y: nat): nat { (y + 1) % LINES }

  /** How far ahead of line `from` line `y` is, going round. */
  function Ahead(from: nat, y: nat): nat
    requires from < LINES && y < LINES
  {
    if y >= from then y - from else y + LINES - from
  }

  /** `y` is the first line of `pending` at or after `from`, going round. */
  ghost predicate IsNext(pending: set<nat>, from: nat, y: nat) {
    && from < LINES && y in pending
    && forall z :: z in pending ==> z < LINES && y < LINES && Ahead(from, y) <= Ahead(from, z)
  }

  predicate IsLine(y: nat) { y < LINES }

  ghost function AllLines(): set<nat> { set y: nat | y < LINES && IsLine(y) }

  lemma {:induction false} CountBelow(n: nat, lines: set<nat>)
    requires forall y: nat :: y in lines <==> y < n
    ensures |lines| == n
  {
    if n > 0 {
      CountBelow(n - 1, lines - {n - 1});
    } else {
      assert lines == {};
    }
  }

  lemma CountLines()
    ensures |AllLines()| == LINES && forall y: nat :: y in AllLines() <==> y < LINES
  {
    assert forall y: nat :: y < LINES ==> IsLine(y);
    CountBelow(LINES, AllLines());
  }

  ghost function Elements(s: seq<nat>): set<nat> { set y | y in s }

  /** The lines of `sent`, one after the other, each the next one ahead of the raster among those not sent yet. */
  ghost predicate Scheduled(sent: seq<nat>, raster: seq<nat>)
  {
    |sent| <= |raster|
    && forall i :: 0 <= i < |sent| ==> IsNext(AllLines() - Elements(sent[..i]), FirstTried(raster[i]), sent[i])
  }

  // ----- The bitmap -----

  /** (b >> k) & 1. */
  function ShiftedBit(b: bv8, k: nat): bv8
    requires k < 8
  {
    (match k
     case 0 => b case 1 => b >> 1 case 2 => b >> 2 case 3 => b >> 3
     case 4 => b >> 4 case 5 => b >> 5 case 6 => b >> 6 case 7 => b >> 7) & 1
  }

  predicate Pending(undone: seq<bv8>, y: nat)
    requires |undone| == 38 && y < 304
  {
    ShiftedBit(undone[y / 8], y % 8) != 0
  }

  /** The bitmap holds exactly this set. */
  ghost predicate Holds(undone: seq<bv8>, pending: set<nat>) {
    |undone| == 38 && forall y :: 0 <= y < 304 ==> (Pending(undone, y) <==> y in pending)
  }

  lemma ToggleBit(b: bv8, k: nat, j: nat)
    requires k < 8 && j < 8
    ensures j != k ==> ShiftedBit(b ^ MaskOf(k), j) == ShiftedBit(b, j)
    ensures ShiftedBit(b ^ MaskOf(k), k) != ShiftedBit(b, k)
    ensures ShiftedBit(b, j) == 0 || ShiftedBit(b, j) == 1
  {
  }

  lemma ToggleLine(undone: seq<bv8>, pending: set<nat>, y: nat)
    requires Holds(undone, pending) && y < LINES && y in pending
    ensures Holds(undone[y / 8 := undone[y / 8] ^ MaskOf(y % 8)], pending - {y})
  {
    var after := undone[y / 8 := undone[y / 8] ^ MaskOf(y % 8)];
    forall z | 0 <= z < 304 ensures Pending(after, z) <==> z in pending - {y} {
      ToggleBit(undone[y / 8], y % 8, z % 8);
      assert z / 8 == y / 8 && z % 8 == y % 8 ==> z == y;
    }
  }

  lemma AllSet(k: nat)
    requires k < 8
    ensures ShiftedBit(0xff, k) != 0 && (ShiftedBit(0x0f, k) != 0 <==> k < 4)
  {
  }

  lemma FullBitmap(undone: seq<bv8>)
    requires |undone| == 38 && (forall i :: 0 <= i < 37 ==> undone[i] == 0xff) && undone[37] == 0x0f
    ensures Holds(undone, AllLines())
  {
    CountLines();
    forall y | 0 <= y < 304 ensures Pending(undone, y) <==> y in AllLines() {
      AllSet(y % 8);
      if y / 8 == 37 {
        assert y % 8 == y - 296;
      } else {
        assert undone[y / 8] == 0xff && y < LINES;
      }
    }
  }

  // ----- A line -----

  /** The words sent for the words of a line that are left, `zeroes` zeros having been counted. */
  function Compress(words: seq<nat>, zeroes: nat): seq<nat> {
    if words == [] then Flush(zeroes)
    else if words[0] == 0 then Compress(words[1..], zeroes + 1)
    else Flush(zeroes) + [words[0]] + Compress(words[1..], 0)
  }

  function Flush(zeroes: nat): seq<nat> {
    if zeroes > 0 then [0x8000 + zeroes] else []
  }

  function WordBytes(w: nat): seq<nat> { [w % 0x100, w / 0x100 % 0x100] }

  /** The bytes of words sent low byte first. */
  function AllBytes(words: seq<nat>): seq<nat> {
    if words == [] then [] else WordBytes(words[0]) + AllBytes(words[1..])
  }

  lemma {:induction false} AllBytesAppend(a: seq<nat>, b: seq<nat>)
    ensures AllBytes(a + b) == AllBytes(a) + AllBytes(b)
  {
    if a == [] {
      assert a + b == b;
    } else {
      assert (a + b)[1..] == a[1..] + b;
      AllBytesAppend(a[1..], b);
    }
  }

  lemma BytesOfOne(w: nat)
    ensures AllBytes([w]) == WordBytes(w)
  {
    assert [w][1..] == [];
  }

  /** Everything sent after the first three bytes. */
  function Stream(sent: seq<nat>, screen: seq<seq<nat>>): seq<nat>
    requires forall i :: 0 <= i < |sent| ==> sent[i] < |screen|
  {
    if sent == [] then []
    else [sent[0]] + Compress(screen[sent[0]], 0) + Stream(sent[1..], screen)
  }

  // ----- The dump -----

  /** No pending line is less than n lines ahead. */
  ghost predicate NoneBefore(pending: set<nat>, from: nat, n: nat)
    requires from < LINES
  {
    forall z :: z in pending ==> z < LINES && Ahead(from, z) >= n
  }

  lemma TryFollowing(pending: set<nat>, from: nat, n: nat, yy: nat)
    requires from < LINES && yy < LINES && Ahead(from, yy) == n && NoneBefore(pending, from, n)
    requires yy !in pending && pending != {}
    ensures NoneBefore(pending, from, n + 1) && n + 1 < LINES && Ahead(from, Following(yy)) == n + 1
  {
    forall z | z in pending ensures Ahead(from, z) >= n + 1 {
      assert z != yy;
    }
    var z :| z in pending;
    assert Ahead(from, z) < LINES;
  }

  /** The search for a pending line; it ends because there is one. */
  method FindPending(undone: array<bv8>, raster: nat, ghost pending: set<nat>) returns (yy: nat)
    requires Holds(undone[..], pending) && pending != {} && pending <= AllLines()
    ensures IsNext(pending, FirstTried(raster), yy)
  {
    var hwline := raster % 0x200;
    yy := (hwline + 7) % LINES;
    ghost var from, n: nat := yy, 0;
    while ShiftedBit(undone[yy / 8], yy % 8) == 0
      invariant yy < LINES && n == Ahead(from, yy) && NoneBefore(pending, from, n)
      decreases LINES - n
    {
      assert !Pending(undone[..], yy);
      TryFollowing(pending, from, n, yy);
      yy := (yy + 1) % LINES;
      n := n + 1;
    }
    assert Pending(undone[..], yy);
  }

  /** The bytes `out` and the compression of the words from `xx` on make up the line. */
  ghost predicate LineSoFar(line: seq<nat>, xx: nat, zeroes: nat, out: seq<nat>)
    requires xx <= |line|
  {
    out + AllBytes(Compress(line[xx..], zeroes)) == AllBytes(Compress(line, 0))
  }

  lemma LineStep(line: seq<nat>, xx: nat, zeroes: nat, out: seq<nat>)
    requires xx < |line| && LineSoFar(line, xx, zeroes, out)
    ensures if line[xx] == 0 then LineSoFar(line, xx + 1, zeroes + 1, out)
            else LineSoFar(line, xx + 1, 0, out + AllBytes(Flush(zeroes)) + WordBytes(line[xx]))
  {
    var v := line[xx];
    assert line[xx..][1..] == line[xx + 1..];
    if v != 0 {
      var rest := Compress(line[xx + 1..], 0);
      AllBytesAppend(Flush(zeroes) + [v], rest);
      AllBytesAppend(Flush(zeroes), [v]);
      BytesOfOne(v);
      assert out + (AllBytes(Flush(zeroes)) + WordBytes(v) + AllBytes(rest))
          == out + AllBytes(Flush(zeroes)) + WordBytes(v) + AllBytes(rest);
    }
  }

  lemma NothingSent(line: seq<nat>)
    ensures LineSoFar(line, 0, 0, [])
  {
    assert line[0..] == line;
  }

  lemma LineSent(line: seq<nat>, zeroes: nat, out: seq<nat>)
    requires LineSoFar(line, |line|, zeroes, out)
    ensures out + AllBytes(Flush(zeroes)) == AllBytes(Compress(line, 0))
  {
    assert line[|line|..] == [];
  }

  lemma RunBytes(zeroes: nat)
    requires zeroes < 0x8000
    ensures AllBytes(Flush(zeroes)) == if zeroes > 0 then [zeroes % 0x100, 0x80 + zeroes / 0x100] else []
  {
    if zeroes > 0 {
      BytesOfOne(0x8000 + zeroes);
    }
  }

  /** The bytes of one line, with its runs of zeros compressed. */
  method SendLine(line: seq<nat>) returns (out: seq<nat>)
    requires |line| == WORDS
    ensures out == AllBytes(Compress(line, 0))
  {
    hide LineSoFar;
    var zeroes := 0;
    out := [];
    NothingSent(line);
    for xx := 0 to WORDS
      invariant zeroes <= xx && LineSoFar(line, xx, zeroes, out)
    {
      LineStep(line, xx, zeroes, out);
      RunBytes(zeroes);
      var v := line[xx];
      if v == 0 {
        zeroes := zeroes + 1;
      } else {
        ghost var flushed := out + AllBytes(Flush(zeroes));
        if zeroes > 0 {
          out := out + [zeroes % 0x100, 0x80 + zeroes / 0x100];
          zeroes := 0;
        }
        assert out == flushed;
        out := out + WordBytes(v);
      }
    }
    RunBytes(zeroes);
    LineSent(line, zeroes, out);
    if zeroes > 0 {
      out := out + [zeroes % 0x100, 0x80 + zeroes / 0x100];
    }
  }

  /** The lines sent and the lines pending are all lines, each once, and they are sent as scheduled. */
  ghost predicate Books(sent: seq<nat>, pending: set<nat>, raster: seq<nat>) {
    && |sent| + |pending| == LINES <= |raster|
    && pending == AllLines() - Elements(sent) && Elements(sent) <= AllLines()
    && Scheduled(sent, raster)
  }

  lemma SentSplit(sent: seq<nat>, yy: nat)
    ensures Elements(sent + [yy]) == Elements(sent) + {yy}
  {
  }

  lemma ScheduleNext(sent: seq<nat>, raster: seq<nat>, yy: nat)
    requires Scheduled(sent, raster) && |sent| < |raster|
    requires IsNext(AllLines() - Elements(sent), FirstTried(raster[|sent|]), yy)
    ensures Scheduled(sent + [yy], raster)
  {
    var next := sent + [yy];
    forall i | 0 <= i < |next| ensures IsNext(AllLines() - Elements(next[..i]), FirstTried(raster[i]), next[i]) {
      assert next[..i] == sent[..i];
      assert i == |sent| ==> sent[..i] == sent;
    }
  }

  lemma LessOne(all: set<nat>, gone: set<nat>, pending: set<nat>, yy: nat)
    requires pending == all - gone && gone <= all && yy in pending
    ensures pending - {yy} == all - (gone + {yy}) && gone + {yy} <= all && |pending - {yy}| == |pending| - 1
  {
  }

  /** Sending the next pending line keeps the books. */
  lemma SendNext(sent: seq<nat>, pending: set<nat>, raster: seq<nat>, yy: nat)
    requires Books(sent, pending, raster) && pending != {} && IsNext(pending, FirstTried(raster[|sent|]), yy)
    ensures Books(sent + [yy], pending - {yy}, raster)
  {
    SentSplit(sent, yy);
    ScheduleNext(sent, raster, yy);
    LessOne(AllLines(), Elements(sent), pending, yy);
  }

  lemma {:induction false} StreamAppend(sent: seq<nat>, screen: seq<seq<nat>>, yy: nat)
    requires yy < |screen| && forall i :: 0 <= i < |sent| ==> sent[i] < |screen|
    ensures Stream(sent + [yy], screen) == Stream(sent, screen) + ([yy] + Compress(screen[yy], 0))
  {
    if sent == [] {
      assert [yy][1..] == [];
    } else {
      var head := [sent[0]] + Compress(screen[sent[0]], 0);
      assert (sent + [yy])[1..] == sent[1..] + [yy];
      StreamAppend(sent[1..], screen, yy);
      assert head + (Stream(sent[1..], screen) + ([yy] + Compress(screen[yy], 0)))
          == head + Stream(sent[1..], screen) + ([yy] + Compress(screen[yy], 0));
    }
  }

  lemma StreamNext(sent: seq<nat>, screen: seq<seq<nat>>, yy: nat)
    requires yy < |screen| && forall i :: 0 <= i < |sent| ==> sent[i] < |screen|
    ensures AllBytes(Stream(sent + [yy], screen))
         == AllBytes(Stream(sent, screen)) + (WordBytes(yy) + AllBytes(Compress(screen[yy], 0)))
  {
    StreamAppend(sent, screen, yy);
    AllBytesAppend(Stream(sent, screen), [yy] + Compress(screen[yy], 0));
    AllBytesAppend([yy], Compress(screen[yy], 0));
    BytesOfOne(yy);
  }

  ghost predicate OnScreen(sent: seq<nat>) { forall i :: 0 <= i < |sent| ==> sent[i] < LINES }

  method MarkDone(undone: array<bv8>, yy: nat, ghost pending: set<nat>)
    requires Holds(undone[..], pending) && yy < LINES && yy in pending
    modifies undone
    ensures Holds(undone[..], pending - {yy})
  {
    ToggleLine(undone[..], pending, yy);
    ghost var goal := undone[..][yy / 8 := undone[yy / 8] ^ MaskOf(yy % 8)];
    undone[yy / 8] := undone[yy / 8] ^ MaskOf(yy % 8);
    assert undone[..] == goal;
  }

  /** One turn of the loop of `screenshot`: the next pending line is sent and no longer pending. */
  method SendOne(undone: array<bv8>, raster: nat, screen: seq<seq<nat>>, ghost pending: set<nat>)
    returns (yy: nat, out: seq<nat>)
    requires Holds(undone[..], pending) && pending != {} && pending <= AllLines()
    requires |screen| == LINES && forall y :: 0 <= y < LINES ==> |screen[y]| == WORDS
    modifies undone
    ensures IsNext(pending, FirstTried(raster), yy) && yy < LINES
    ensures Holds(undone[..], pending - {yy})
    ensures out == WordBytes(yy) + AllBytes(Compress(screen[yy], 0))
  {
    yy := FindPending(undone, raster, pending);
    MarkDone(undone, yy, pending);
    var line := SendLine(screen[yy]);
    out := WordBytes(yy) + line;
  }

  lemma EmptyStream(screen: seq<seq<nat>>)
    ensures AllBytes(Stream([], screen)) == []
  {
  }

  /** The loop of `screenshot`. */
  method SendLines(raster: seq<nat>, screen: seq<seq<nat>>) returns (out: seq<nat>, ghost sent: seq<nat>)
    requires |raster| >= LINES && |screen| == LINES && forall y :: 0 <= y < LINES ==> |screen[y]| == WORDS
    ensures Books(sent, {}, raster) && OnScreen(sent)
    ensures out == AllBytes(Stream(sent, screen))
  {
    hide AllBytes, Stream, Compress, WordBytes, Holds, IsNext;
    EmptyStream(screen);
    var undone := new bv8[38](i => 0xff);
    undone[37] := 0x0f;
    var nundone := LINES;
    out, sent := [], [];
    ghost var pending := AllLines();
    CountLines();
    FullBitmap(undone[..]);
    while nundone > 0
      invariant undone.Length == 38 && Holds(undone[..], pending) && nundone == |pending|
      invariant Books(sent, pending, raster) && OnScreen(sent)
      invariant out == AllBytes(Stream(sent, screen))
    {
      var yy, line := SendOne(undone, raster[LINES - nundone], screen, pending);
      SendNext(sent, pending, raster, yy);
      StreamNext(sent, screen, yy);
      out := out + line;
      nundone := nundone - 1;
      pending, sent := pending - {yy}, sent + [yy];
    }
  }

  /** The bytes of a dump in which these lines were sent, in this order: every line once, each as the next one ahead of
      the raster at its time. */
  ghost predicate IsDump(out: seq<nat>, frame: nat, raster: seq<nat>, screen: seq<seq<nat>>, sent: seq<nat>)
    requires |screen| == LINES
  {
    && Scheduled(sent, raster) && |sent| == LINES && Elements(sent) == AllLines() && OnScreen(sent)
    && out == [0xa5, frame % 0x100, frame / 0x100 % 0x100] + AllBytes(Stream(sent, screen))
  }

  /** `screenshot`. */
  method TakeScreenshot(frame: nat, raster: seq<nat>, screen: seq<seq<nat>>) returns (out: seq<nat>)
    requires |raster| >= LINES && |screen| == LINES && forall y :: 0 <= y < LINES ==> |screen[y]| == WORDS
    ensures exists sent :: IsDump(out, frame, raster, screen, sent)
  {
    out := [0xa5, frame % 0x100, frame / 0x100 % 0x100];
    var lines;
    ghost var sent;
    lines, sent := SendLines(raster, screen);
    out := out + lines;
    assert IsDump(out, frame, raster, screen, sent);
  }

  // ----- A slow raster -----

  /** The n lines from `first` on, going round. */
  ghost function LinesFrom(first: nat, n: nat): set<nat> {
    set y: nat | y < LINES && Ahead(first % LINES, y) < n
  }

  lemma GoingRound(first: nat, s: nat, j: nat)
    requires s <= j < LINES
    ensures Ahead((first + s) % LINES, (first + j) % LINES) == j - s
  {
  }

  lemma AheadIs(first: nat, y: nat)
    requires y < LINES
    ensures var j := Ahead(first % LINES, y); j < LINES && y == (first + j) % LINES
  {
  }

  lemma NextOf(first: nat, n: nat, s: nat, y: nat)
    requires s <= n < LINES && IsNext(AllLines() - LinesFrom(first, n), (first + s) % LINES, y)
    ensures y == (first + n) % LINES
  {
    hide IsLine, Ahead;
    CountLines();
    var j, z := Ahead(first % LINES, y), (first + n) % LINES;
    AheadIs(first, y);
    GoingRound(first, 0, n);
    assert z in AllLines() - LinesFrom(first, n);
    GoingRound(first, s, n);
    GoingRound(first, s, j);
  }

  lemma OneLineMore(first: nat, n: nat)
    requires n < LINES
    ensures LinesFrom(first, n + 1) == LinesFrom(first, n) + {(first + n) % LINES}
  {
    hide Ahead;
    GoingRound(first, 0, n);
    forall y: nat | y < LINES ensures Ahead(first % LINES, y) == n <==> y == (first + n) % LINES {
      AheadIs(first, y);
    }
  }

  /** While the raster does not move on faster than lines are sent, they are sent from the line 7 ahead of where it
      was at the start, one after the other, going round. */
  lemma {:induction false} SlowRaster(sent: seq<nat>, raster: seq<nat>, n: nat)
    requires Scheduled(sent, raster) && n <= |sent| <= LINES
    requires forall i :: 0 <= i < |sent| ==> raster[0] % 512 <= raster[i] % 512 <= raster[0] % 512 + i
    ensures forall i :: 0 <= i < n ==> sent[i] == (raster[0] % 512 + 7 + i) % 300
    ensures n > 0 ==> Elements(sent[..n]) == LinesFrom(raster[0] % 512 + 7, n)
  {
    hide AllLines, LinesFrom, IsNext, Elements;
    if n > 0 {
      var m, first := n - 1, raster[0] % 512 + 7;
      SlowRaster(sent, raster, m);
      if m == 0 {
        NoLines(first);
        assert sent[..0] == [];
      }
      assert Elements(sent[..m]) == LinesFrom(first, m);
      var s := raster[m] % 512 - raster[0] % 512;
      assert FirstTried(raster[m]) == (first + s) % LINES;
      NextOf(first, m, s, sent[m]);
      assert sent[..n] == sent[..m] + [sent[m]];
      SentSplit(sent[..m], sent[m]);
      OneLineMore(first, m);
    }
  }

  lemma NoLines(first: nat)
    ensures Elements([]) == LinesFrom(first, 0)
  {
  }

  // ----- The receiver -----

  /** A word that is not taken for a run of zeros. */
  predicate Plain(w: nat) { w < 0x8000 }

  ghost predicate AllPlain(words: seq<nat>) { forall i :: 0 <= i < |words| ==> Plain(words[i]) }

  function Zeros(n: nat): (zeros: seq<nat>)
    ensures |zeros| == n
  {
    seq(n, _ => 0)
  }

  /** What a receiver makes of the words of a line: `n` words of it, and the words that follow. */
  function Restore(ws: seq<nat>, n: nat): Option<(seq<nat>, seq<nat>)>
    decreases |ws|
  {
    if n == 0 then Some(([], ws))
    else if ws == [] then None
    else
      var run := if Plain(ws[0]) then 1 else ws[0] - 0x8000;
      if run > n then None
      else
        match Restore(ws[1..], n - run)
        case None => None
        case Some((line, rest)) => Some(((if Plain(ws[0]) then [ws[0]] else Zeros(run)) + line, rest))
  }

  /** A receiver of `count` lines. */
  function Receive(ws: seq<nat>, count: nat, screen: map<nat, seq<nat>>): Option<map<nat, seq<nat>>>
    decreases count
  {
    if count == 0 then Some(screen)
    else if ws == [] then None
    else
      match Restore(ws[1..], WORDS)
      case None => None
      case Some((line, rest)) => Receive(rest, count - 1, screen[ws[0] := line])
  }

  lemma RunRestores(zeroes: nat, n: nat, ws: seq<nat>, line: seq<nat>, rest: seq<nat>)
    requires zeroes < 0x8000 && Restore(ws, n) == Some((line, rest))
    ensures Restore(Flush(zeroes) + ws, zeroes + n) == Some((Zeros(zeroes) + line, rest))
  {
    if zeroes == 0 {
      assert Flush(zeroes) + ws == ws && Zeros(zeroes) + line == line;
    } else {
      assert (Flush(zeroes) + ws)[1..] == ws;
    }
  }

  lemma PlainWordRestores(words: seq<nat>, rest: seq<nat>, tail: seq<nat>)
    requires words != [] && Plain(words[0]) && Restore(tail, |words| - 1) == Some((words[1..], rest))
    ensures Restore([words[0]] + tail, |words|) == Some((words, rest))
  {
    hide Restore, Plain, Zeros;
    PlainFirst([words[0]] + tail, |words|, words[1..], rest);
    assert ([words[0]] + tail)[1..] == tail && [words[0]] + words[1..] == words;
  }

  lemma PlainFirst(ws: seq<nat>, n: nat, line: seq<nat>, rest: seq<nat>)
    requires ws != [] && Plain(ws[0]) && n > 0
    ensures Restore(ws[1..], n - 1) == Some((line, rest)) ==> Restore(ws, n) == Some(([ws[0]] + line, rest))
  {
    hide Zeros;
  }

  /** A word that stands for itself, behind a run of zeros. */
  lemma PlainRestores(words: seq<nat>, zeroes: nat, packed: seq<nat>, rest: seq<nat>)
    requires words != [] && Plain(words[0]) && zeroes < 0x8000
    requires Restore(packed + rest, |words| - 1) == Some((words[1..], rest))
    ensures Restore(Flush(zeroes) + [words[0]] + packed + rest, zeroes + |words|) == Some((Zeros(zeroes) + words, rest))
  {
    hide Restore, Flush;
    var ws := [words[0]] + (packed + rest);
    PlainWordRestores(words, rest, packed + rest);
    RunRestores(zeroes, |words|, ws, words, rest);
    assert Flush(zeroes) + [words[0]] + packed + rest == Flush(zeroes) + ws;
  }

  /** The receiver undoes the compression, whatever follows the line. */
  lemma {:induction false} LineRestores(words: seq<nat>, zeroes: nat, rest: seq<nat>)
    requires AllPlain(words) && zeroes + |words| < 0x8000
    ensures Restore(Compress(words, zeroes) + rest, zeroes + |words|) == Some((Zeros(zeroes) + words, rest))
    decreases |words|
  {
    if words == [] {
      RunRestores(zeroes, 0, rest, [], rest);
    } else if words[0] == 0 {
      LineRestores(words[1..], zeroes + 1, rest);
      assert Zeros(zeroes + 1) + words[1..] == Zeros(zeroes) + words;
    } else {
      LineRestores(words[1..], 0, rest);
      assert Zeros(0) + words[1..] == words[1..];
      PlainRestores(words, zeroes, Compress(words[1..], 0), rest);
    }
  }

  lemma {:induction false} RestoredIsPlain(ws: seq<nat>, n: nat)
    ensures Restore(ws, n).Some? ==> AllPlain(Restore(ws, n).value.0)
    decreases |ws|
  {
    if n > 0 && ws != [] {
      var run := if Plain(ws[0]) then 1 else ws[0] - 0x8000;
      if run <= n {
        RestoredIsPlain(ws[1..], n - run);
      }
    }
  }

  lemma {:induction false} CompressShrinks(words: seq<nat>, zeroes: nat)
    ensures |Compress(words, zeroes)| <= zeroes + |words|
    decreases |words|
  {
    if words != [] {
      CompressShrinks(words[1..], if words[0] == 0 then zeroes + 1 else 0);
    }
  }

  /** A line comes through the compression, in at most as many words, exactly when it has no word with the top
      bit set. */
  lemma LineComesThrough(line: seq<nat>)
    requires |line| == WORDS
    ensures Restore(Compress(line, 0), WORDS) == Some((line, []))
       <==> forall i :: 0 <= i < WORDS ==> line[i] < 0x8000
    ensures |Compress(line, 0)| <= WORDS
  {
    CompressShrinks(line, 0);
    RestoredIsPlain(Compress(line, 0), WORDS);
    if AllPlain(line) {
      LineRestores(line, 0, []);
      assert Compress(line, 0) + [] == Compress(line, 0) && Zeros(0) + line == line;
    }
  }

  ghost predicate PlainScreen(screen: seq<seq<nat>>) {
    |screen| == LINES && forall y :: 0 <= y < LINES ==> |screen[y]| == WORDS && AllPlain(screen[y])
  }

  lemma LineReceived(y: nat, line: seq<nat>, rest: seq<nat>, count: nat, got: map<nat, seq<nat>>)
    requires |line| == WORDS && AllPlain(line)
    ensures Receive([y] + Compress(line, 0) + rest, count + 1, got) == Receive(rest, count, got[y := line])
  {
    var ws := [y] + Compress(line, 0) + rest;
    LineRestores(line, 0, rest);
    assert Zeros(0) + line == line;
    assert ws[1..] == Compress(line, 0) + rest;
  }

  /** `r` is `got` with the lines `sent` of the screen. */
  ghost predicate GotLines(r: map<nat, seq<nat>>, got: map<nat, seq<nat>>, sent: seq<nat>, screen: seq<seq<nat>>)
    requires |screen| == LINES && OnScreen(sent)
  {
    && (forall y: nat :: y in r <==> y in got || y in sent)
    && (forall y: nat :: y in r ==> r[y] == if y in sent then screen[y] else got[y])
  }

  lemma GotMore(r: map<nat, seq<nat>>, got: map<nat, seq<nat>>, sent: seq<nat>, screen: seq<seq<nat>>)
    requires |screen| == LINES && OnScreen(sent) && sent != []
    requires GotLines(r, got[sent[0] := screen[sent[0]]], sent[1..], screen)
    ensures GotLines(r, got, sent, screen)
  {
    assert forall y :: y in sent <==> y == sent[0] || y in sent[1..];
  }

  lemma {:induction false} LinesReceived(sent: seq<nat>, screen: seq<seq<nat>>, got: map<nat, seq<nat>>)
    requires PlainScreen(screen) && OnScreen(sent)
    ensures var r := Receive(Stream(sent, screen), |sent|, got); r.Some? && GotLines(r.value, got, sent, screen)
    decreases |sent|
  {
    if sent != [] {
      var y := sent[0];
      LineReceived(y, screen[y], Stream(sent[1..], screen), |sent| - 1, got);
      LinesReceived(sent[1..], screen, got[y := screen[y]]);
      GotMore(Receive(Stream(sent[1..], screen), |sent| - 1, got[y := screen[y]]).value, got, sent, screen);
    }
  }

  /** End to end: from the words of a dump the whole screen is restored, whatever the raster did meanwhile. */
  lemma ScreenReceived(sent: seq<nat>, screen: seq<seq<nat>>)
    requires PlainScreen(screen) && OnScreen(sent) && |sent| == LINES && Elements(sent) == AllLines()
    ensures var r := Receive(Stream(sent, screen), LINES, map[]);
            r.Some? && forall y: nat :: y < LINES ==> y in r.value && r.value[y] == screen[y]
  {
    CountLines();
    LinesReceived(sent, screen, map[]);
    forall y: nat | y < LINES ensures y in sent {
      assert y in Elements(sent);
    }
  }

  // ----- From the bytes -----

  /** The words of a receiver that puts low and high bytes together. */
  function WordsOf(bytes: seq<nat>): seq<nat> {
    if |bytes| < 2 then [] else [bytes[0] + 0x100 * bytes[1]] + WordsOf(bytes[2..])
  }

  ghost predicate AreWords(ws: seq<nat>) { forall i :: 0 <= i < |ws| ==> ws[i] < 0x1_0000 }

  lemma {:induction false} WordsOfBytes(ws: seq<nat>)
    requires AreWords(ws)
    ensures WordsOf(AllBytes(ws)) == ws
  {
    if ws != [] {
      assert (WordBytes(ws[0]) + AllBytes(ws[1..]))[2..] == AllBytes(ws[1..]);
      WordsOfBytes(ws[1..]);
    }
  }

  lemma {:induction false} CompressGivesWords(words: seq<nat>, zeroes: nat)
    requires AllPlain(words) && zeroes + |words| < 0x8000
    ensures AreWords(Compress(words, zeroes))
    decreases |words|
  {
    if words != [] {
      assert Plain(words[0]);
      CompressGivesWords(words[1..], if words[0] == 0 then zeroes + 1 else 0);
    }
  }

  lemma {:induction false} StreamGivesWords(sent: seq<nat>, screen: seq<seq<nat>>)
    requires PlainScreen(screen) && OnScreen(sent)
    ensures AreWords(Stream(sent, screen))
  {
    if sent != [] {
      CompressGivesWords(screen[sent[0]], 0);
      StreamGivesWords(sent[1..], screen);
    }
  }

  /** A receiver of the bytes gets the number of the frame and the whole screen. */
  lemma DumpReceived(out: seq<nat>, frame: nat, raster: seq<nat>, screen: seq<seq<nat>>, sent: seq<nat>)
    requires PlainScreen(screen) && IsDump(out, frame, raster, screen, sent)
    ensures var r := Receive(WordsOf(out[3..]), LINES, map[]);
            r.Some? && forall y: nat :: y < LINES ==> y in r.value && r.value[y] == screen[y]
    ensures out[0] == 0xa5 && out[1] + 0x100 * out[2] == frame % 0x1_0000
  {
    hide AllBytes, Stream, Receive, WordsOf, Scheduled;
    assert out[3..] == AllBytes(Stream(sent, screen));
    StreamGivesWords(sent, screen);
    WordsOfBytes(Stream(sent, screen));
    ScreenReceived(sent, screen);
  }
}
