/**
 Runs of the player of libraries/modplayer/ptplay.cpp: everything stays within bounds, the clock accounts for every
 sample, which channels are heard, how long a pattern loop goes on, and where a volume slide leads.
 */
module PtPlayProofs {
  import opened Arithmetic
  import opened PtPlay

  // ----- Bounds -----

  predicate ValidVolume(v: Volume) {
    0 <= v.basevol <= 63 && 0 <= v.prevvol <= 63 && 0 <= v.vol <= 63 && -15 <= v.dvol <= 15 && 0 <= v.cutoff <= 16
  }

  predicate ValidWave(w: Wave) {
    0 <= w.speed < 16 && 0 <= w.active < 16 && 0 <= w.index < 64 && 0 <= w.depth <= 30
  }

  predicate ValidChannel(c: Channel) { ValidVolume(c.volume) && ValidWave(c.vibrato) && ValidWave(c.tremolo) }

  ghost predicate ValidChannels(channels: Channels) { forall i :: 0 <= i < 4 ==> ValidChannel(channels[i]) }

  const LONGEST_TICK: nat := 1328

  predicate ValidTempo(t: Tempo) { 1 <= t.speed <= 31 && 166 <= t.vbllen <= LONGEST_TICK }

  lemma TempoBetween(j: nat)
    requires 32 <= j < 256
    ensures 166 <= FREQ * 60 / (24 * j) <= LONGEST_TICK
  {
    var d := 24 * j;
    var q := FREQ * 60 / d;
    assert FREQ * 60 == q * d + FREQ * 60 % d;
    Cancel(166, q + 1, d);
    Cancel(q, LONGEST_TICK + 1, d);
  }

  /** No row of cells takes the tempo out of its bounds. */
  lemma {:induction false} RowKeepsTempo(t: Tempo, row: Row, n: nat)
    requires ValidTempo(t) && n <= 4
    ensures ValidTempo(RowTempo(t, row, n))
    decreases n
  {
    if n > 0 {
      RowKeepsTempo(t, row, n - 1);
      var j := row[n - 1].Efboth();
      if j >= 32 {
        TempoBetween(j);
      }
    }
  }

  /** No cell takes a channel out of its bounds, whatever the volumes of the samples. */
  lemma CellKeepsChannel(c: Channel, cell: Cell, cfg: Config, ppos: int)
    requires ValidChannel(c) && cell.Valid()
    ensures ValidChannel(EffectChannel(StartChannel(c, cell, cfg), cell, ppos, cfg))
  {
  }

  lemma {:induction false} RowKeepsSkip(p: Place, channels: Channels, row: Row, n: nat)
    requires 0 <= p.skip < 64 && n <= 4
    ensures 0 <= RowPlace(p, channels, row, n).skip < 64
    decreases n
  {
    if n > 0 {
      RowKeepsSkip(p, channels, row, n - 1);
    }
  }

  /** No tick takes a channel out of its bounds. */
  lemma TickKeepsChannel(c: Channel, tick: int, cfg: Config)
    requires ValidChannel(c)
    ensures ValidChannel(TickChannel(c, tick, cfg))
  {
  }

  /** What holds between two samples. */
  ghost predicate Bounded(g: Player) {
    && ValidChannels(g.channels) && ValidTempo(g.tempo)
    && 0 <= g.ppos < 64 && 0 <= g.skiptopos < 64 && 0 <= g.tick < g.tempo.speed
    && 0 <= g.bpos <= LONGEST_TICK
  }

  /** A module starts at a speed of 6 and as after F7D: with 125 beats a minute, in ticks of 1/50 second. */
  lemma StartIsBounded()
    ensures Bounded(START) && START.tempo.speed == 6 && START.tempo.vbllen * 50 == FREQ
    ensures EffectTempo(START.tempo, Cell(0, 0, 15, 7, 13)) == START.tempo
  {
  }

  lemma RowKeepsBounds(g: Player, row: Row, cfg: Config)
    requires Bounded(g)
    ensures var after := AfterRow(g, row, cfg);
      && ValidChannels(after.channels) && ValidTempo(after.tempo) && 0 <= after.ppos < 64 && 0 <= after.skiptopos < 64
  {
    var start := Place(g.ppos, g.spos, 0);
    RowKeepsTempo(g.tempo, row, 4);
    RowKeepsSkip(start, g.channels, row, 4);
    forall i | 0 <= i < 4 ensures ValidChannel(RowChannel(start, g.channels, row, cfg, i)) {
      CellKeepsChannel(g.channels[i], row[i], cfg, RowPlace(start, g.channels, row, i).ppos);
    }
  }

  lemma TickKeepsBounds(g: Player, row: Row, cfg: Config)
    requires Bounded(g)
    ensures Bounded(AfterTick(g, row, cfg))
  {
    hide AfterRow;
    RowKeepsBounds(g, row, cfg);
    SameClock(g, row, cfg);
    var played := if RowBegins(g) && !cfg.stopped then AfterRow(g, row, cfg) else g;
    var tick := AfterTick(g, row, cfg).tick;
    forall i | 0 <= i < 4 ensures ValidChannel(TickAll(played.channels, tick, cfg)[i]) {
      TickKeepsChannel(played.channels[i], tick, cfg);
    }
  }

  lemma SameClock(g: Player, row: Row, cfg: Config)
    ensures AfterRow(g, row, cfg).bpos == g.bpos && AfterRow(g, row, cfg).tick == g.tick
  {
  }

  lemma SampleKeepsBounds(g: Player, row: Row, cfg: Config)
    requires Bounded(g)
    ensures Bounded(AfterSample(g, row, cfg))
  {
    hide AfterTick;
    if TickDue(g) {
      var g1 := g.(bpos := g.bpos - g.tempo.vbllen);
      TickKeepsBounds(g1, row, cfg);
      TickKeepsClock(g1, row, cfg);
    }
  }

  lemma TickKeepsClock(g: Player, row: Row, cfg: Config)
    ensures AfterTick(g, row, cfg).bpos == g.bpos
  {
    SameClock(g, row, cfg);
  }

  /** Over any stream of rows everything stays within bounds: for as many samples as you like. */
  lemma {:induction false} RunKeepsBounds(g: Player, rowAt: nat -> Row, cfg: Config, n: nat)
    requires Bounded(g)
    ensures Bounded(AfterSamples(g, rowAt, cfg, n))
  {
    if n > 0 {
      RunKeepsBounds(g, rowAt, cfg, n - 1);
      SampleKeepsBounds(AfterSamples(g, rowAt, cfg, n - 1), rowAt(n - 1), cfg);
    }
  }

  // ----- The mix -----

  lemma {:induction false} HeardBetween(channels: Channels, voices: Voices, c: nat, i: nat)
    requires ValidChannels(channels) && c <= 4
    ensures -8064 * (4 - c) <= Heard(channels, voices, c, i) <= 8064 * (4 - c)
    decreases 4 - c
  {
    if c < 4 {
      HeardBetween(channels, voices, c + 1, i + 1);
      HeardBetween(channels, voices, c + 1, i + 2);
      if voices[c].Sounds? {
        ScaledBetween(channels[c].volume.vol, voices[c].dat, -128, 127);
      }
    }
  }

  /** The two bytes hold the scaled sample exactly when it is a 16-bit number; at full volume the sample itself. */
  lemma WrittenIsSample(mastervolume: int, sl: int)
    ensures var (b0, b1) := Written(mastervolume, sl);
      0 <= b0 < 256 && 0 <= b1 < 256 &&
      (Value16(b0, b1) == mastervolume * sl / 256 <==> -0x8000 <= mastervolume * sl / 256 < 0x8000)
  {
    var scaled := mastervolume * sl;
    assert mastervolume * (sl + sl) == 2 * scaled;
    assert 2 * scaled / 512 == scaled / 256;
    WordBytes(scaled / 256);
  }

  lemma Words(x: int)
    ensures x % 0x1_0000_0000 == x / 0x10000 % 0x10000 * 0x10000 + x % 0x10000
  {
    var hi, lo := x / 0x10000, x % 0x10000;
    var q, r := hi / 0x10000, hi % 0x10000;
    assert x == q * 0x1_0000_0000 + (r * 0x10000 + lo);
  }

  lemma LowBytes(hi: int, lo: int)
    requires 0 <= lo < 0x10000
    ensures (hi * 0x10000 + lo) % 256 == lo % 256 && (hi * 0x10000 + lo) / 256 % 256 == lo / 256
  {
    var n := hi * 0x10000 + lo;
    assert n / 256 == hi * 256 + lo / 256;
  }

  lemma WordBytes(x: int)
    ensures var val := x % 0x1_0000_0000;
      Value16(val % 256, val / 256 % 256) == x <==> -0x8000 <= x < 0x8000
  {
    Words(x);
    LowBytes(x / 0x10000 % 0x10000, x % 0x10000);
  }

  /** Every mix of a run is well within 16 bits: the clamp never fires, and at full volume the bytes are the mix
      itself. */
  lemma RunIsMixed(g: Player, rowAt: nat -> Row, voicesAt: nat -> Voices, cfg: Config, n: nat)
    requires Bounded(g)
    ensures var mix := MixAt(g, rowAt, voicesAt, cfg, n);
      && -32256 <= mix <= 32256 && Clamped(mix) == mix
      && (cfg.mastervolume == 256 ==> var (b0, b1) := Written(cfg.mastervolume, mix); Value16(b0, b1) == mix)
  {
    hide AfterSample, Heard, Written;
    var before := AfterSamples(g, rowAt, cfg, n);
    RunKeepsBounds(g, rowAt, cfg, n);
    SampleKeepsBounds(before, rowAt(n), cfg);
    HeardBetween(AfterSample(before, rowAt(n), cfg).channels, voicesAt(n), 0, 0);
    WrittenIsSample(cfg.mastervolume, MixAt(g, rowAt, voicesAt, cfg, n));
  }

  // ----- The clock -----

  /** How many of the first n samples are not muted. */
  function Sounding(g: Player, rowAt: nat -> Row, cfg: Config, n: nat): nat {
    if n == 0 then 0
    else Sounding(g, rowAt, cfg, n - 1) + if Muted(AfterSamples(g, rowAt, cfg, n - 1), cfg) then 0 else 1
  }

  /** The lengths of the ticks in the first n samples, each as it was in force. */
  function Elapsed(g: Player, rowAt: nat -> Row, cfg: Config, n: nat): int {
    if n == 0 then 0
    else
      var before := AfterSamples(g, rowAt, cfg, n - 1);
      Elapsed(g, rowAt, cfg, n - 1) + if !Muted(before, cfg) && TickDue(before) then before.tempo.vbllen else 0
  }

  /** Every sample is accounted for, through any changes of tempo. */
  lemma {:induction false} ClockConserves(g: Player, rowAt: nat -> Row, cfg: Config, n: nat)
    ensures g.bpos + Sounding(g, rowAt, cfg, n) == AfterSamples(g, rowAt, cfg, n).bpos + Elapsed(g, rowAt, cfg, n)
    ensures !cfg.doSongEnd ==> Sounding(g, rowAt, cfg, n) == n
  {
    hide AfterTick;
    if n > 0 {
      ClockConserves(g, rowAt, cfg, n - 1);
      var before := AfterSamples(g, rowAt, cfg, n - 1);
      TickKeepsClock(before.(bpos := before.bpos - before.tempo.vbllen), rowAt(n - 1), cfg);
    }
  }

  function AfterTicks(g: Player, rowAt: nat -> Row, cfg: Config, n: nat): Player {
    if n == 0 then g else AfterTick(AfterTicks(g, rowAt, cfg, n - 1), rowAt(n - 1), cfg)
  }

  /** From the tick that begins a row on, the next row begins exactly `speed` ticks later, with the speed that the row
      itself has set. */
  lemma {:induction false} RowTakesSpeedTicks(g: Player, rowAt: nat -> Row, cfg: Config, n: nat)
    requires Bounded(g) && RowBegins(g) && n > 0
    requires n <= AfterTicks(g, rowAt, cfg, 1).tempo.speed
    ensures var speed := AfterTicks(g, rowAt, cfg, 1).tempo.speed;
      && AfterTicks(g, rowAt, cfg, n).tempo.speed == speed
      && AfterTicks(g, rowAt, cfg, n).tick == speed - n
      && (RowBegins(AfterTicks(g, rowAt, cfg, n)) <==> n == speed)
    decreases n
  {
    assert AfterTicks(g, rowAt, cfg, 0) == g;
    if n > 1 {
      RowTakesSpeedTicks(g, rowAt, cfg, n - 1);
    }
  }

  // ----- Rows over the samples -----

  /** Sample n begins with a tick. */
  predicate Ticks(g: Player, rowAt: nat -> Row, cfg: Config, n: nat) {
    var before := AfterSamples(g, rowAt, cfg, n);
    !Muted(before, cfg) && TickDue(before)
  }

  /** That tick begins a row. */
  predicate BeginsRow(g: Player, rowAt: nat -> Row, cfg: Config, n: nat) {
    Ticks(g, rowAt, cfg, n) && RowBegins(AfterSamples(g, rowAt, cfg, n))
  }

  function TickCount(g: Player, rowAt: nat -> Row, cfg: Config, n: nat): nat {
    if n == 0 then 0 else TickCount(g, rowAt, cfg, n - 1) + if Ticks(g, rowAt, cfg, n - 1) then 1 else 0
  }

  function RowCount(g: Player, rowAt: nat -> Row, cfg: Config, n: nat): nat {
    if n == 0 then 0 else RowCount(g, rowAt, cfg, n - 1) + if BeginsRow(g, rowAt, cfg, n - 1) then 1 else 0
  }

  /** The speeds of the rows that begin in the first n samples, each with what it has set itself. */
  function RowSpeeds(g: Player, rowAt: nat -> Row, cfg: Config, n: nat): int {
    if n == 0 then 0
    else RowSpeeds(g, rowAt, cfg, n - 1)
         + if BeginsRow(g, rowAt, cfg, n - 1) then AfterSamples(g, rowAt, cfg, n).tempo.speed else 0
  }

  /** The countdown of a row over one sample. */
  lemma SampleCountsDown(g: Player, row: Row, cfg: Config)
    ensures var after := AfterSample(g, row, cfg);
      if Muted(g, cfg) || !TickDue(g) then after.tick == g.tick && after.tempo == g.tempo
      else after.tick == (if RowBegins(g) then after.tempo.speed else g.tick) - 1
  {
    hide AfterRow;
  }

  /** Every tick of the first n samples is accounted for by a row, through any changes of speed: a row takes as many as
      its speed says. */
  lemma {:induction false} RowsConserve(g: Player, rowAt: nat -> Row, cfg: Config, n: nat)
    ensures g.tick + RowSpeeds(g, rowAt, cfg, n) == TickCount(g, rowAt, cfg, n) + AfterSamples(g, rowAt, cfg, n).tick
  {
    hide AfterSample;
    if n > 0 {
      RowsConserve(g, rowAt, cfg, n - 1);
      SampleCountsDown(AfterSamples(g, rowAt, cfg, n - 1), rowAt(n - 1), cfg);
    }
  }

  /** The tempo is the same before each of the first n samples, and after them. */
  ghost predicate Steady(g: Player, rowAt: nat -> Row, cfg: Config, n: nat) {
    forall i :: 0 <= i <= n ==> AfterSamples(g, rowAt, cfg, i).tempo == g.tempo
  }

  lemma {:induction false} SteadySums(g: Player, rowAt: nat -> Row, cfg: Config, n: nat)
    requires Steady(g, rowAt, cfg, n)
    ensures Elapsed(g, rowAt, cfg, n) == g.tempo.vbllen * TickCount(g, rowAt, cfg, n)
    ensures RowSpeeds(g, rowAt, cfg, n) == g.tempo.speed * RowCount(g, rowAt, cfg, n)
  {
    hide AfterSample;
    if n > 0 {
      SteadySums(g, rowAt, cfg, n - 1);
      assert AfterSamples(g, rowAt, cfg, n - 1).tempo == AfterSamples(g, rowAt, cfg, n).tempo == g.tempo;
    }
  }

  /** At a steady tempo a row lasts speed * vbllen samples: what n samples have played is told by the rows begun, but
      for the rest of the current row and the current tick. */
  lemma SteadyRows(g: Player, rowAt: nat -> Row, cfg: Config, n: nat)
    requires Steady(g, rowAt, cfg, n) && !cfg.doSongEnd
    ensures var after, rows := AfterSamples(g, rowAt, cfg, n), RowCount(g, rowAt, cfg, n);
      g.bpos + n == after.bpos + g.tempo.vbllen * (g.tick + g.tempo.speed * rows - after.tick)
  {
    hide AfterSamples, Elapsed, TickCount, RowSpeeds, RowCount, Sounding;
    ClockConserves(g, rowAt, cfg, n);
    RowsConserve(g, rowAt, cfg, n);
    SteadySums(g, rowAt, cfg, n);
    assert TickCount(g, rowAt, cfg, n)
        == g.tick + g.tempo.speed * RowCount(g, rowAt, cfg, n) - AfterSamples(g, rowAt, cfg, n).tick;
  }

  // ----- Which channels are heard -----

  /** How many of the channels before c come to their end in this sample. */
  function Ends(voices: Voices, c: nat): nat
    requires c <= 4
  {
    if c == 0 then 0 else Ends(voices, c - 1) + if voices[c - 1] == AtEnd then 1 else 0
  }

  /** What channel c adds when it is heard. */
  function Term(channels: Channels, voices: Voices, c: nat): int
    requires c < 4
  {
    if voices[c].Sounds? then channels[c].volume.vol * voices[c].dat else 0
  }

  /** The passes do not run out before channel c: each channel takes one, and each end one more. */
  predicate IsHeard(voices: Voices, c: nat)
    requires c < 4
  {
    c + Ends(voices, c) < 4
  }

  /** The channels before n that are heard, each once. */
  function Sum(channels: Channels, voices: Voices, n: nat): int
    requires n <= 4
  {
    if n == 0 then 0
    else Sum(channels, voices, n - 1) + if IsHeard(voices, n - 1) then Term(channels, voices, n - 1) else 0
  }

  lemma {:induction false} HeardFrom(channels: Channels, voices: Voices, c: nat)
    requires c <= 4
    ensures Sum(channels, voices, c) + Heard(channels, voices, c, c + Ends(voices, c)) == Sum(channels, voices, 4)
    decreases 4 - c
  {
    if c < 4 {
      HeardFrom(channels, voices, c + 1);
    }
  }

  /** Exactly those channels are mixed whose number, plus the ends before them, is below four: an end silences the last
      channel, and a second one the channel before it as well. */
  lemma MixIsSum(channels: Channels, voices: Voices)
    ensures Heard(channels, voices, 0, 0) == Sum(channels, voices, 4)
    ensures IsHeard(voices, 0) && IsHeard(voices, 1)
    ensures IsHeard(voices, 2) <==> Ends(voices, 2) < 2
    ensures IsHeard(voices, 3) <==> Ends(voices, 3) == 0
  {
    HeardFrom(channels, voices, 0);
    assert Ends(voices, 1) <= 1;
  }

  // ----- Pattern loops -----

  /** The loop after k of its E6x commands. */
  function Repeated(l: Loop, cell: Cell, ppos: int, k: nat): Loop {
    if k == 0 then l else EffectLoop(Repeated(l, cell, ppos, k - 1), cell, ppos)
  }

  /** E6x jumps back x times, then goes on, and so on again: the rows of the loop are played x + 1 times. */
  lemma {:induction false} LoopRepeats(l: Loop, cell: Cell, ppos: int, k: nat)
    requires l.flag != 2 && cell.Valid() && cell.effect == 14 && cell.efd1 == 6 && cell.efd2 > 0
    ensures var now, n := Repeated(l, cell, ppos, k), k % (cell.efd2 + 1);
      && (JumpsBack(now, cell) <==> n < cell.efd2)
      && now.start == l.start
      && (n == 0 <==> now.flag != 2) && (n > 0 ==> now.count == cell.efd2 - n)
    decreases k
  {
    if k > 0 {
      LoopRepeats(l, cell, ppos, k - 1);
      NextRemainder(k - 1, cell.efd2 + 1);
    }
  }

  lemma NextRemainder(k: nat, m: nat)
    requires m > 1
    ensures (k + 1) % m == if k % m == m - 1 then 0 else k % m + 1
  {
    assert k == k / m * m + k % m;
    if k % m == m - 1 {
      assert k + 1 == (k / m + 1) * m;
      QuotientIs(k + 1, m, k / m + 1, 0);
    } else {
      QuotientIs(k + 1, m, k / m, k % m + 1);
    }
  }

  /** A jump back lands on the first row of the loop, in the same pattern, also when that is the first row of all. */
  lemma JumpLands(p: Place, l: Loop, cell: Cell, length: int)
    requires JumpsBack(l, cell) && p.skip == 0 && 0 <= l.start < 64 && 0 <= p.spos < length
    ensures var after := EffectPlace(p, l, cell);
      NextRow(after) == l.start && (if Wraps(after) then NextSong(after, true, length) else p.spos) == p.spos
  {
  }

  // ----- Slides and cuts -----

  function Ticked(v: Volume, tremolo: Wave, n: nat): Volume
  {
    if n == 0 then v else TickVolume(Ticked(v, tremolo, n - 1), tremolo)
  }

  /** A volume slide goes on in equal steps up to the bounds. */
  lemma {:induction false} SlideLeads(v: Volume, tremolo: Wave, n: nat)
    requires ValidVolume(v) && ValidWave(tremolo) && tremolo.active == 0 && v.cutoff == 0
    ensures Ticked(v, tremolo, n).basevol == Clamp(v.basevol + n * v.dvol)
    ensures Ticked(v, tremolo, n).dvol == v.dvol && Ticked(v, tremolo, n).cutoff == 0
    ensures n > 0 ==> Ticked(v, tremolo, n).vol == Clamp(v.basevol + n * v.dvol)
  {
    if n > 0 {
      SlideLeads(v, tremolo, n - 1);
      assert n * v.dvol == (n - 1) * v.dvol + v.dvol;
      SameSign(n - 1, v.dvol);
    }
  }

  lemma SameSign(n: nat, d: int)
    ensures d >= 0 ==> n * d >= 0
    ensures d <= 0 ==> n * d <= 0
  {
  }

  /** A note cut ECx silences the channel at the tick with number x, and not before. */
  lemma {:induction false} CutSilences(v: Volume, tremolo: Wave, n: nat)
    requires ValidVolume(v) && ValidWave(tremolo) && v.dvol == 0 && v.cutoff > 0 && tremolo.active == 0
    ensures var now := Ticked(v, tremolo, n);
      if n < v.cutoff then now.basevol == v.basevol && now.cutoff == v.cutoff - n && (n > 0 ==> now.vol == v.basevol)
      else now.basevol == now.vol == now.cutoff == 0
    ensures Ticked(v, tremolo, n).dvol == 0
  {
    if n > 0 {
      CutSilences(v, tremolo, n - 1);
    }
  }
}
