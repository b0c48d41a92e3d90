/**
 The ProTracker player of libraries/modplayer/ptplay.cpp: what a pattern cell (`pt_donote`), a tick (`pt_dotick`) and a
 mono sample (`pt_render`) do to a channel and to the clock.

 Positions in the samples do not steer any of this. They are left out; which channels sound, and with which byte, is an
 input of every sample. So are the tuning tables: the period of a note is any function.
 */
module PtPlay {
  import opened Arithmetic

  // ----- A pattern cell -----

  datatype Cell = Cell(period: nat, sample: nat, effect: nat, efd1: nat, efd2: nat) {
    predicate Valid() { effect < 16 && efd1 < 16 && efd2 < 16 }

    function Efboth(): nat { 16 * efd1 + efd2 }
  }

  /** The cell in four bytes of the file. */
  function CellOf(b0: nat, b1: nat, b2: nat, b3: nat): (cell: Cell)
    requires b0 < 256 && b1 < 256 && b2 < 256 && b3 < 256
    ensures cell.Valid() && cell.period < 4096 && cell.sample < 256 && cell.Efboth() == b3
  {
    Cell(b0 % 16 * 256 + b1, b0 / 16 * 16 + b2 / 16, b2 % 16, b3 / 16, b3 % 16)
  }

  // ----- A channel -----

  datatype Volume = Volume(basevol: int, prevvol: int, vol: int, dvol: int, cutoff: int)

  /** Of vibrato and tremolo: the speed that was set, the speed in force (zero if off), and the place in the wave. */
  datatype Wave = Wave(speed: int, active: int, index: int, depth: int, form: int)

  datatype Slide = Slide(dp: int, arp: int, dtp: int, tonePorta: bool, skip: bool)

  datatype Loop = Loop(start: int, count: int, flag: int)

  /** The period of a channel, where a tone portamento leads and where it has got to, the base of the arpeggio, the
      finetune and the glissando; and the period whose frequency is played. */
  datatype Pitch = Pitch(per: int, target: int, source: int, base: int, tune: int, glissando: int, played: int)

  datatype Channel =
    Channel(volume: Volume, pitch: Pitch, vibrato: Wave, tremolo: Wave, slide: Slide, loop: Loop, prevsample: nat)

  /** Something of each sample, as the file gives it. */
  type PerSample = values: seq<nat> | |values| == 32 witness seq(32, _ => 0)

  /** What does not change while a module is played: `period(note, finetune, halftones)` is the period of a note, and
      `nearest(finetune, period)` that of the note a glissando rounds to. */
  datatype Config = Config(volumes: PerSample, finetunes: PerSample, period: (int, int, int) -> int,
                           nearest: (int, int) -> int, length: int, stopped: bool, playSong: bool, doSongEnd: bool,
                           mastervolume: int)

  function Clamp(v: int): int { Min(63, Max(0, v)) }

  // ----- What a cell does to a channel -----

  /** A sample brings its volume along. */
  function StartVolume(v: Volume, cell: Cell, volumes: PerSample): Volume {
    var kept := v.(prevvol := v.basevol, dvol := 0);
    if 0 < cell.sample < 32 then kept.(basevol := Min(volumes[cell.sample], 63), vol := Min(volumes[cell.sample], 63))
    else kept
  }

  /** A note without a sample is played with the last one, under some effects. */
  function SampleFor(c: Channel, cell: Cell): nat {
    if cell.sample == 0 && cell.period != 0 && cell.effect in {0, 12, 15} then c.prevsample else cell.sample
  }

  /** A new period, unless a tone portamento is to lead there; and its sample brings its finetune along. */
  function StartPitch(c: Channel, cell: Cell, cfg: Config): Pitch {
    var t, sample := c.pitch, SampleFor(c, cell);
    var restarts := if cell.period != 0 then cell.effect != 3
      else c.vibrato.active != 0 && cell.effect != 4 && cell.effect != 6;
    var source := if restarts then t.per else t.source;
    if cell.period == 0 then t.(source := source)
    else
      var tune := if 0 < sample < 32 then cfg.finetunes[sample] else t.tune;
      if cell.effect in {3, 5} then t.(source := source, tune := tune, base := cell.period)
      else
        var per := cfg.period(cell.period, tune, 0);
        Pitch(per, per, per, cell.period, tune, t.glissando, per)
  }

  function EffectVolume(v: Volume, cell: Cell): Volume {
    if cell.effect in {5, 6, 10} then v.(dvol := if cell.efd1 != 0 then cell.efd1 else 0 - cell.efd2)
    else if cell.effect == 12 then v.(basevol := Min(cell.Efboth(), 63))
    else if cell.effect == 14 && cell.efd1 == 10 then
      v.(basevol := Min(v.basevol + cell.efd2, 63), vol := Min(v.basevol + cell.efd2, 63))
    else if cell.effect == 14 && cell.efd1 == 11 then
      v.(basevol := Max(v.basevol - cell.efd2, 0), vol := Max(v.basevol - cell.efd2, 0))
    else if cell.effect == 14 && cell.efd1 == 12 then v.(cutoff := cell.efd2 + 1)
    else v
  }

  function EffectPitch(t: Pitch, cell: Cell, cfg: Config): Pitch {
    if cell.effect == 3 || cell.effect == 5 then
      if cell.period != 0 then t.(target := cfg.period(cell.period, t.tune, 0)) else t
    else if cell.effect != 14 then t
    else if cell.efd1 == 1 && cell.efd2 != 0 then Set(t, t.per - cell.efd2)
    else if cell.efd1 == 2 && cell.efd2 != 0 then Set(t, t.per + cell.efd2)
    else if cell.efd1 == 3 then t.(glissando := cell.efd2)
    else if cell.efd1 == 5 && cell.period != 0 then
      Set(t.(tune := cell.efd2), cfg.period(cell.period, cell.efd2, 0))
    else if cell.efd1 == 15 then t.(glissando := 16 * cell.efd2)
    else t
  }

  function Set(t: Pitch, per: int): Pitch { t.(per := per, target := per, played := per) }

  /** A wave is switched off, and starts over with a new period. */
  function StartWave(w: Wave, cell: Cell): Wave { w.(active := 0, index := if cell.period != 0 then 0 else w.index) }

  function Chosen(digit: int, otherwise: int): int { if digit != 0 then digit else otherwise }

  function EffectVibrato(w: Wave, cell: Cell): Wave {
    if cell.effect == 4 then
      w.(speed := Chosen(cell.efd1, w.speed), active := Chosen(cell.efd1, w.speed), depth := Chosen(cell.efd2, w.depth))
    else if cell.effect == 6 then w.(active := w.speed)
    else if cell.effect == 14 && cell.efd1 == 4 then w.(form := cell.efd2)
    else w
  }

  function EffectTremolo(w: Wave, cell: Cell): Wave {
    if cell.effect == 7 then
      w.(speed := Chosen(cell.efd1, w.speed), active := Chosen(cell.efd1, w.speed),
         depth := if cell.efd2 != 0 then 2 * cell.efd2 else w.depth)
    else if cell.effect == 14 && cell.efd1 == 7 then w.(form := cell.efd2)
    else w
  }

  function StartSlide(s: Slide): Slide { s.(tonePorta := false, dp := 0, arp := 0) }

  function EffectSlide(s: Slide, cell: Cell): Slide {
    var j := cell.Efboth();
    match cell.effect
    case 0 => if j != 0 then s.(arp := j) else s
    case 1 => s.(dp := 0 - j, skip := true)
    case 2 => s.(dp := j, skip := true)
    case 3 => Porta(s.(dtp := Chosen(j, s.dtp)))
    case 4 => s.(skip := true)
    case 5 => Porta(s)
    case 6 => s.(skip := true)
    case _ => s
  }

  function Porta(s: Slide): Slide { if s.dtp != 0 then s.(tonePorta := true, skip := true) else s }

  // ----- Pattern loops and positions -----

  /** Command E6x on row `ppos`: E60 marks the start of a loop, E6x counts x jumps back to it. */
  function EffectLoop(l: Loop, cell: Cell, ppos: int): Loop {
    if cell.effect != 14 || cell.efd1 != 6 then l
    else if cell.efd2 == 0 then (if l.flag == 0 then Loop(ppos, l.count, 1) else l)
    else
      var count := if l.flag != 2 then cell.efd2 else l.count;
      if count <= 0 then Loop(l.start, 0, 0) else Loop(l.start, count - 1, 2)
  }

  predicate JumpsBack(l: Loop, cell: Cell) {
    cell.effect == 14 && cell.efd1 == 6 && cell.efd2 != 0 && (if l.flag != 2 then cell.efd2 else l.count) > 0
  }

  /** The row and the song position that the commands of a row work on, and the row to skip to. */
  datatype Place = Place(ppos: int, spos: int, skip: int)

  function EffectPlace(p: Place, l: Loop, cell: Cell): Place {
    var skip := 10 * cell.efd1 + cell.efd2;
    if cell.effect == 11 then p.(spos := cell.Efboth() - 1, ppos := 63)
    else if cell.effect == 13 then (if cell.Efboth() != 0 && skip < 64 then p.(skip := skip) else p.(ppos := 63))
    else if JumpsBack(l, cell) then p.(ppos := l.start - 1, spos := p.spos - 1)
    else p
  }

  // ----- Tempo -----

  const FREQ: nat := 17000

  datatype Tempo = Tempo(speed: int, ciaspeed: int, vbllen: int)

  function EffectTempo(t: Tempo, cell: Cell): Tempo {
    var j := cell.Efboth();
    if cell.effect != 15 || j == 0 then t
    else if j >= 32 then t.(ciaspeed := j, vbllen := FREQ * 60 / (24 * j))
    else t.(speed := j)
  }

  function StartChannel(c: Channel, cell: Cell, cfg: Config): Channel {
    Channel(StartVolume(c.volume, cell, cfg.volumes),
            StartPitch(c.(prevsample := if cell.sample != 0 then cell.sample else c.prevsample), cell, cfg),
            StartWave(c.vibrato, cell), StartWave(c.tremolo, cell), StartSlide(c.slide), c.loop,
            if cell.sample != 0 then cell.sample else c.prevsample)
  }

  function EffectChannel(c: Channel, cell: Cell, ppos: int, cfg: Config): Channel {
    Channel(EffectVolume(c.volume, cell), EffectPitch(c.pitch, cell, cfg), EffectVibrato(c.vibrato, cell),
            EffectTremolo(c.tremolo, cell), EffectSlide(c.slide, cell), EffectLoop(c.loop, cell, ppos), c.prevsample)
  }

  function EffectDelay(patdelay: int, cell: Cell): int {
    if cell.effect == 14 && cell.efd1 == 14 then cell.efd2 else patdelay
  }

  predicate EndsSong(cell: Cell) { cell.effect == 15 && cell.Efboth() == 0 }

  // ----- A row of four cells -----

  type Row = row: seq<Cell> | |row| == 4 && forall i :: 0 <= i < 4 ==> row[i].Valid()
    witness seq(4, _ => Cell(0, 0, 0, 0, 0))

  type Channels = channels: seq<Channel> | |channels| == 4 witness seq(4, _ => SILENT)

  const NO_WAVE: Wave := Wave(0, 0, 0, 0, 0)

  const SILENT: Channel :=
    Channel(Volume(0, 0, 0, 0, 0), Pitch(0, 0, 0, 0, 0, 0, 0), NO_WAVE, NO_WAVE, Slide(0, 0, 0, false, false),
            Loop(0, 0, 0), 0)

  /** The place, the tempo, the delay and the song ends after the first n cells of a row. */
  function RowPlace(p: Place, channels: Channels, row: Row, n: nat): Place
    requires n <= 4
  {
    if n == 0 then p else EffectPlace(RowPlace(p, channels, row, n - 1), channels[n - 1].loop, row[n - 1])
  }

  function RowTempo(t: Tempo, row: Row, n: nat): Tempo
    requires n <= 4
  {
    if n == 0 then t else EffectTempo(RowTempo(t, row, n - 1), row[n - 1])
  }

  function RowDelay(patdelay: int, row: Row, n: nat): int
    requires n <= 4
  {
    if n == 0 then patdelay else EffectDelay(RowDelay(patdelay, row, n - 1), row[n - 1])
  }

  function RowEnds(row: Row, n: nat): nat
    requires n <= 4
  {
    if n == 0 then 0 else RowEnds(row, n - 1) + if EndsSong(row[n - 1]) then 1 else 0
  }

  /** Channel i after its cell of the row. */
  function RowChannel(p: Place, channels: Channels, row: Row, cfg: Config, i: nat): Channel
    requires i < 4
  {
    EffectChannel(StartChannel(channels[i], row[i], cfg), row[i], RowPlace(p, channels, row, i).ppos, cfg)
  }

  /** The row that is played next: the one skipped to, or the one below. */
  function NextRow(p: Place): int { if p.skip != 0 then p.skip else (p.ppos + 1) % 64 }

  /** Past the last row of a pattern, or with a skip, the song position moves on too. */
  predicate Wraps(p: Place) { p.skip != 0 || NextRow(p) == 0 }

  predicate PastEnd(p: Place, playSong: bool, length: int) { (if playSong then p.spos + 1 else p.spos) >= length }

  function NextSong(p: Place, playSong: bool, length: int): int {
    if PastEnd(p, playSong, length) then 0 else if playSong then p.spos + 1 else p.spos
  }

  // ----- What a tick does to a channel -----

  function TabVib(): (table: seq<int>)
    ensures |table| == 32
  {
    [0, 24, 49, 74, 97, 120, 141, 161, 180, 197, 212, 224, 235, 244, 250, 253,
     255, 253, 250, 244, 235, 224, 212, 197, 180, 161, 141, 120, 97, 74, 49, 24]
  }

  function Sine(index: int): int { TabVib()[index % 32] }

  /** The height of a wave: a sine, a saw tooth or a square. */
  function Height(form: int, index: int): int {
    if form % 4 == 0 then (if index >= 32 then 0 - Sine(index) else Sine(index))
    else if form % 4 == 2 then (if index >= 32 then -255 else 255)
    else if index >= 32 then 8 * index - 512 else 8 * index
  }

  function Advanced(w: Wave): Wave { if w.active == 0 then w else w.(index := (w.index + w.active) % 64) }

  /** A vibrato moves on when nothing else plays with the period. */
  function TickVibrato(w: Wave, s: Slide): Wave {
    if s.skip || s.dp != 0 || s.tonePorta || s.arp != 0 then w else Advanced(w)
  }

  const PER_LOW: int := 113
  const PER_HI: int := 856

  function Playable(per: int): int { Min(PER_HI, Max(PER_LOW, per)) }

  /** A slide: the period has moved, and what is played is rounded to a note if the glissando is on. */
  function Moved(t: Pitch, per: int, cfg: Config): Pitch {
    var now := Playable(per);
    t.(per := now, source := now, played := if t.glissando != 0 then cfg.nearest(t.tune, now) else now)
  }

  /** As much of a difference as one step covers. */
  function Step(difference: int, step: int): int {
    if difference < 0 then Max(0 - step, difference) else Min(step, difference)
  }

  /** The halftones of an arpeggio: none, the first digit, the second digit. */
  function Halftones(arp: int, tick: int): int {
    match tick % 3 { case 0 => arp / 256 % 16 case 1 => arp / 16 % 16 case _ => arp % 16 }
  }

  /** One tick of a slide, else of a tone portamento, else of an arpeggio, else of the vibrato. */
  function TickPitch(t: Pitch, s: Slide, vibrato: Wave, tick: int, cfg: Config): Pitch {
    if s.skip then t
    else if s.dp != 0 then Moved(t, t.source + s.dp, cfg)
    else if s.tonePorta then
      if t.target == t.source then t else Moved(t, t.source + Step(t.target - t.source, s.dtp), cfg)
    else if s.arp != 0 then t.(played := cfg.period(t.base, t.tune, Halftones(s.arp, tick)))
    else if vibrato.active != 0 then
      var now := Playable(vibrato.depth * Height(vibrato.form, vibrato.index) / 128 + t.per);
      t.(source := now, played := now)
    else t
  }

  function TickVolume(v: Volume, tremolo: Wave): Volume
  {
    var base := if v.dvol != 0 then Clamp(v.basevol + v.dvol) else v.basevol;
    var heard := if tremolo.active != 0 then Clamp(Height(tremolo.form, tremolo.index) * tremolo.depth / 256 + base)
      else base;
    if v.cutoff == 1 then Volume(0, v.prevvol, 0, v.dvol, 0)
    else Volume(base, v.prevvol, heard, v.dvol, if v.cutoff != 0 then v.cutoff - 1 else 0)
  }

  function TickChannel(c: Channel, tick: int, cfg: Config): Channel {
    Channel(TickVolume(c.volume, c.tremolo), TickPitch(c.pitch, c.slide, c.vibrato, tick, cfg),
            TickVibrato(c.vibrato, c.slide), Advanced(c.tremolo), c.slide.(skip := false), c.loop, c.prevsample)
  }

  // ----- Mixing -----

  /** A channel at a sample: silent, at the end of its sample data, or with a byte of it. */
  datatype Voice = Off | AtEnd | Sounds(dat: int)

  predicate IsVoice(voice: Voice) { voice.Sounds? ==> -128 <= voice.dat <= 127 }

  type Voices = voices: seq<Voice> | |voices| == 4 && forall c :: 0 <= c < 4 ==> IsVoice(voices[c])
    witness [Off, Off, Off, Off]

  /** What is mixed from channel c on, in the passes from i on. Of the four passes a channel that comes to its end takes
      two. */
  function Heard(channels: Channels, voices: Voices, c: nat, i: nat): int
    decreases 4 - c
  {
    if c >= 4 || i >= 4 then 0
    else match voices[c]
      case Off => Heard(channels, voices, c + 1, i + 1)
      case AtEnd => Heard(channels, voices, c + 1, i + 2)
      case Sounds(dat) => channels[c].volume.vol * dat + Heard(channels, voices, c + 1, i + 1)
  }

  lemma {:induction false} HeardLater(channels: Channels, voices: Voices, voices1: Voices, c: nat, i: nat)
    requires forall k :: c <= k < 4 ==> voices[k] == voices1[k]
    ensures Heard(channels, voices, c, i) == Heard(channels, voices1, c, i)
    decreases 4 - c
  {
    if c < 4 {
      HeardLater(channels, voices, voices1, c + 1, i + 1);
      HeardLater(channels, voices, voices1, c + 1, i + 2);
    }
  }

  // ----- The sample that is written -----

  /** The number in two bytes. */
  function Value16(b0: int, b1: int): int { if b1 < 128 then b0 + 256 * b1 else b0 + 256 * b1 - 0x10000 }

  /** The bytes written for a mono sample. */
  function Written(mastervolume: int, sl: int): (int, int) {
    var val := mastervolume * (sl + sl) / 512 % 0x1_0000_0000;
    (val % 256, val / 256 % 256)
  }

  // ----- The player -----

  datatype Player = Player(ppos: int, spos: int, skiptopos: int, tempo: Tempo, patdelay: int, songloopcount: int,
                           tick: int, bpos: int, channels: Channels)

  /** pt_donote. */
  function AfterRow(g: Player, row: Row, cfg: Config): Player {
    if g.patdelay != 0 then g.(patdelay := g.patdelay - 1)
    else
      var start := Place(g.ppos, g.spos, 0);
      var end := RowPlace(start, g.channels, row, 4);
      g.(ppos := NextRow(end),
         spos := if Wraps(end) then NextSong(end, cfg.playSong, cfg.length) else g.spos,
         skiptopos := end.skip,
         tempo := RowTempo(g.tempo, row, 4),
         patdelay := RowDelay(0, row, 4),
         songloopcount := g.songloopcount + (if cfg.doSongEnd then RowEnds(row, 4) else 0)
                          + (if Wraps(end) && PastEnd(end, cfg.playSong, cfg.length) then 1 else 0),
         channels := seq(4, i requires 0 <= i < 4 => RowChannel(start, g.channels, row, cfg, i)))
  }

  /** A row begins when the ticks of the last one are over. */
  predicate RowBegins(g: Player) { g.tick == 0 }

  function TickAll(channels: Channels, tick: int, cfg: Config): Channels {
    seq(4, i requires 0 <= i < 4 => TickChannel(channels[i], tick, cfg))
  }

  /** pt_dotick. */
  function AfterTick(g: Player, row: Row, cfg: Config): Player {
    var played := if RowBegins(g) && !cfg.stopped then AfterRow(g, row, cfg) else g;
    var tick := (if RowBegins(g) then played.tempo.speed else g.tick) - 1;
    played.(tick := tick, channels := TickAll(played.channels, tick, cfg))
  }

  /** A tick is due when its samples are over. */
  predicate TickDue(g: Player) { g.bpos >= g.tempo.vbllen }

  predicate Muted(g: Player, cfg: Config) { g.songloopcount != 0 && cfg.doSongEnd }

  /** The clock of pt_render: a tick when it is due, and one sample further. */
  function AfterClock(g: Player, row: Row, cfg: Config): Player {
    var ticked := if TickDue(g) then AfterTick(g.(bpos := g.bpos - g.tempo.vbllen), row, cfg) else g;
    ticked.(bpos := ticked.bpos + 1)
  }

  /** One sample in pt_render, up to the mix. */
  function AfterSample(g: Player, row: Row, cfg: Config): Player {
    if Muted(g, cfg) then g else AfterClock(g, row, cfg)
  }

  /** The mix of that sample. */
  function MixOf(g: Player, row: Row, voices: Voices, cfg: Config): int {
    if Muted(g, cfg) then 0 else Heard(AfterSample(g, row, cfg).channels, voices, 0, 0)
  }

  function Clamped(sl: int): int { if sl < -32768 then -32768 else if sl > 32767 then 32767 else sl }

  /** The player after n samples, for any stream of rows, and the mix of sample n. */
  function AfterSamples(g: Player, rowAt: nat -> Row, cfg: Config, n: nat): Player {
    if n == 0 then g else AfterSample(AfterSamples(g, rowAt, cfg, n - 1), rowAt(n - 1), cfg)
  }

  function MixAt(g: Player, rowAt: nat -> Row, voicesAt: nat -> Voices, cfg: Config, n: nat): int {
    MixOf(AfterSamples(g, rowAt, cfg, n), rowAt(n), voicesAt(n), cfg)
  }

  /** As pt_init leaves it. */
  const START: Player := Player(0, 0, 0, Tempo(6, 125, FREQ / 50), 0, 0, 0, 0, seq(4, _ => SILENT))
}
