/**
 What the commands of libraries/modplayer/ptplay.cpp lead to: what is heard of a channel after so many ticks of a row,
 where the song goes on after a row, and which rows a pattern loop plays.
 */
module PtPlayCommands {
  import opened Arithmetic
  import opened PtPlay
  import opened PtPlayProofs

  // ----- The bytes of a cell -----

  function CellBytes(cell: Cell): seq<int> {
    [cell.sample / 16 * 16 + cell.period / 256, cell.period % 256, cell.sample % 16 * 16 + cell.effect,
     16 * cell.efd1 + cell.efd2]
  }

  /** A cell is read from exactly those four bytes that spell it. */
  lemma CellRead(b0: nat, b1: nat, b2: nat, b3: nat, cell: Cell)
    requires b0 < 256 && b1 < 256 && b2 < 256 && b3 < 256
    requires cell.Valid() && cell.period < 4096 && cell.sample < 256
    ensures CellOf(b0, b1, b2, b3) == cell <==> [b0, b1, b2, b3] == CellBytes(cell)
  {
    hide CellBytes;
    var high, low := cell.sample / 16, cell.sample % 16;
    Digits(b0, 16, high, cell.period / 256);
    Digits(b2, 16, low, cell.effect);
    Digits(b3, 16, cell.efd1, cell.efd2);
    Digits(cell.period, 256, b0 % 16, b1);
    Digits(cell.sample, 16, b0 / 16, b2 / 16);
    SameBytes(b0, b1, b2, b3, cell);
  }

  lemma Digits(b: nat, radix: nat, high: nat, low: nat)
    requires radix > 0 && low < radix
    ensures b == high * radix + low <==> b / radix == high && b % radix == low
  {
    if b == high * radix + low {
      QuotientIs(b, radix, high, low);
    }
  }

  lemma SameBytes(b0: nat, b1: nat, b2: nat, b3: nat, cell: Cell)
    ensures [b0, b1, b2, b3] == CellBytes(cell) <==>
      && b0 == cell.sample / 16 * 16 + cell.period / 256 && b1 == cell.period % 256
      && b2 == cell.sample % 16 * 16 + cell.effect && b3 == cell.efd1 * 16 + cell.efd2
  {
    var b := CellBytes(cell);
    assert b[0] == cell.sample / 16 * 16 + cell.period / 256 && b[1] == cell.period % 256;
    assert b[2] == cell.sample % 16 * 16 + cell.effect && b[3] == cell.efd1 * 16 + cell.efd2;
  }

  // ----- A row on one channel -----

  /** A channel after its cell and n ticks of a row; the counter of the ticks runs down from the speed. */
  function Played(c: Channel, cell: Cell, ppos: int, cfg: Config, speed: int, n: nat): Channel {
    if n == 0 then EffectChannel(StartChannel(c, cell, cfg), cell, ppos, cfg)
    else TickChannel(Played(c, cell, ppos, cfg, speed, n - 1), speed - n, cfg)
  }

  lemma FirstTick(g: Player, row: Row, cfg: Config, i: nat)
    requires RowBegins(g) && !cfg.stopped && g.patdelay == 0 && i < 4
    ensures var after := AfterTick(g, row, cfg);
      after.channels[i] == Played(g.channels[i], row[i], RowPlace(Place(g.ppos, g.spos, 0), g.channels, row, i).ppos,
                                  cfg, after.tempo.speed, 1)
  {
    hide StartChannel, EffectChannel, TickChannel, RowPlace, RowTempo;
    var c, ppos := g.channels[i], RowPlace(Place(g.ppos, g.spos, 0), g.channels, row, i).ppos;
    var speed := AfterTick(g, row, cfg).tempo.speed;
    assert Played(c, row[i], ppos, cfg, speed, 0) == EffectChannel(StartChannel(c, row[i], cfg), row[i], ppos, cfg);
  }

  /** In the player, after n ticks of a row, each channel is what its cell has led to. */
  lemma {:induction false} RowPlayed(g: Player, rowAt: nat -> Row, cfg: Config, n: nat, i: nat)
    requires Bounded(g) && RowBegins(g) && !cfg.stopped && g.patdelay == 0 && i < 4
    requires 1 <= n <= AfterTicks(g, rowAt, cfg, 1).tempo.speed
    ensures AfterTicks(g, rowAt, cfg, n).channels[i]
         == Played(g.channels[i], rowAt(0)[i], RowPlace(Place(g.ppos, g.spos, 0), g.channels, rowAt(0), i).ppos, cfg,
                   AfterTicks(g, rowAt, cfg, 1).tempo.speed, n)
    decreases n
  {
    hide Played, TickChannel, AfterRow;
    assert AfterTicks(g, rowAt, cfg, 0) == g;
    FirstTick(g, rowAt(0), cfg, i);
    if n > 1 {
      RowTakesSpeedTicks(g, rowAt, cfg, n - 1);
      RowPlayed(g, rowAt, cfg, n - 1, i);
      PlayedNext(g.channels[i], rowAt(0)[i], RowPlace(Place(g.ppos, g.spos, 0), g.channels, rowAt(0), i).ppos, cfg,
                 AfterTicks(g, rowAt, cfg, 1).tempo.speed, n);
    }
  }

  lemma PlayedNext(c: Channel, cell: Cell, ppos: int, cfg: Config, speed: int, n: nat)
    requires n > 0
    ensures Played(c, cell, ppos, cfg, speed, n)
         == TickChannel(Played(c, cell, ppos, cfg, speed, n - 1), speed - n, cfg)
  {
  }

  // ----- Volumes -----

  lemma {:induction false} PlayedVolume(c: Channel, cell: Cell, ppos: int, cfg: Config, speed: int, n: nat)
    requires cell.effect != 7
    ensures var start, now := Played(c, cell, ppos, cfg, speed, 0), Played(c, cell, ppos, cfg, speed, n);
      start.tremolo.active == 0 && now.tremolo == start.tremolo && now.volume == Ticked(start.volume, start.tremolo, n)
  {
    hide StartPitch, EffectPitch, TickPitch, StartSlide, EffectSlide, TickVolume, EffectVolume, StartVolume;
    if n > 0 {
      PlayedVolume(c, cell, ppos, cfg, speed, n - 1);
    }
  }

  /** The volume a row starts with: that of its sample, or the one there was. */
  function FirstVolume(c: Channel, cell: Cell, cfg: Config): int {
    if 0 < cell.sample < 32 then Min(cfg.volumes[cell.sample], 63) else c.volume.basevol
  }

  /** What is heard after n ticks of a row: set by C, moved once by EA and EB, at every tick by A, 5 and 6, and cut by
      EC after as many ticks as it says. */
  lemma VolumeLeads(c: Channel, cell: Cell, ppos: int, cfg: Config, speed: int, n: nat)
    requires ValidChannel(c) && cell.Valid() && cell.effect != 7 && c.volume.cutoff == 0 && n > 0
    ensures var first, x := FirstVolume(c, cell, cfg), cell.efd2;
      Played(c, cell, ppos, cfg, speed, n).volume.vol ==
        if cell.effect == 12 then Min(16 * cell.efd1 + cell.efd2, 63)
        else if cell.effect in {5, 6, 10} then
          Min(63, Max(0, first + n * (if cell.efd1 != 0 then cell.efd1 else 0 - x)))
        else if cell.effect == 14 && cell.efd1 == 10 then Min(first + x, 63)
        else if cell.effect == 14 && cell.efd1 == 11 then Max(first - x, 0)
        else if cell.effect == 14 && cell.efd1 == 12 && n > x then 0
        else first
  {
    hide StartPitch, EffectPitch, TickPitch, StartSlide, EffectSlide, TickVolume;
    var start := Played(c, cell, ppos, cfg, speed, 0);
    PlayedVolume(c, cell, ppos, cfg, speed, n);
    CellKeepsChannel(c, cell, cfg, ppos);
    if start.volume.cutoff == 0 {
      SlideLeads(start.volume, start.tremolo, n);
      if start.volume.dvol == 0 {
        assert start.volume.basevol + n * start.volume.dvol == start.volume.basevol;
      }
    } else {
      CutSilences(start.volume, start.tremolo, n);
    }
  }

  // ----- Waves -----

  /** The last two bits of a form choose the wave: the sine rises to its height and falls again, and its second half
      mirrors the first; the square is up and then down; the saw tooth goes up evenly and starts over in the middle. */
  lemma WaveShapes(form: nat, i: nat)
    requires i < 64
    ensures form % 4 == 0 ==>
      && Height(form, i) == 0 - Height(form, (i + 32) % 64)
      && (i < 16 ==> Height(form, i) < Height(form, i + 1) && Height(form, i) == Height(form, (32 - i) % 32))
      && (i == 0 ==> Height(form, i) == 0 && Height(form, 16) == 255)
    ensures form % 4 == 2 ==> Height(form, i) == if i < 32 then 255 else -255
    ensures form % 4 == 1 || form % 4 == 3 ==> Height(form, i) == 8 * ((i + 32) % 64 - 32)
  {
    hide Sine;
    if i < 16 {
      Rises(i);
    }
    SineTurns(i);
  }

  lemma SineTurns(i: nat)
    ensures Sine((i + 32) % 64) == Sine(i)
  {
    assert (i + 32) % 64 % 32 == i % 32;
  }

  lemma Rises(i: nat)
    requires i < 16
    ensures Sine(i) < Sine(i + 1) && Sine(i) == Sine((32 - i) % 32)
    ensures i == 0 ==> Sine(0) == 0 && Sine(16) == 255
  {
    hide TabVib;
    RisingTable(i);
    FallingTable(i);
    TableEnds();
  }

  predicate RisesAt(i: nat)
    requires i < 16
  {
    TabVib()[i] < TabVib()[i + 1]
  }

  predicate FallsAt(i: nat)
    requires i < 16
  {
    TabVib()[i] == TabVib()[(32 - i) % 32]
  }

  lemma RisingTable(i: nat)
    requires i < 16
    ensures RisesAt(i)
  {
    assert RisesAt(0) && RisesAt(1) && RisesAt(2) && RisesAt(3) && RisesAt(4) && RisesAt(5) && RisesAt(6) && RisesAt(7);
    assert RisesAt(8) && RisesAt(9) && RisesAt(10) && RisesAt(11) && RisesAt(12) && RisesAt(13);
    assert RisesAt(14) && RisesAt(15);
  }

  lemma FallingTable(i: nat)
    requires i < 16
    ensures FallsAt(i)
  {
    hide FallsAt;
    if i < 8 {
      FallsLater(i);
    } else {
      FallsEarlier(i);
    }
  }

  lemma FallsLater(i: nat)
    requires i < 8
    ensures FallsAt(i)
  {
    assert FallsAt(0) && FallsAt(1) && FallsAt(2) && FallsAt(3) && FallsAt(4) && FallsAt(5) && FallsAt(6) && FallsAt(7);
  }

  lemma FallsEarlier(i: nat)
    requires 8 <= i < 16
    ensures FallsAt(i)
  {
    assert FallsAt(8) && FallsAt(9) && FallsAt(10) && FallsAt(11);
    assert FallsAt(12) && FallsAt(13) && FallsAt(14) && FallsAt(15);
  }

  lemma TableEnds()
    ensures TabVib()[0] == 0 && TabVib()[16] == 255
  {
  }

  /** A wave after n steps. */
  function Turned(w: Wave, n: nat): Wave { w.(index := (w.index + n * w.active) % 64) }

  lemma TurnOnce(w: Wave, n: nat)
    requires 0 <= w.index < 64
    ensures Turned(w, 0) == w && Advanced(Turned(w, n)) == Turned(w, n + 1)
  {
    Around(w.index, n * w.active, w.active);
    assert (n + 1) * w.active == n * w.active + w.active;
    if w.active == 0 {
      assert n * w.active == 0;
    }
  }

  lemma Around(i: int, a: int, b: int)
    ensures ((i + a) % 64 + b) % 64 == (i + (a + b)) % 64
  {
  }

  lemma {:induction false} TremoloTurns(c: Channel, cell: Cell, ppos: int, cfg: Config, speed: int, n: nat)
    requires ValidChannel(c)
    ensures var w := Played(c, cell, ppos, cfg, speed, 0).tremolo;
      0 <= w.index < 64 && Played(c, cell, ppos, cfg, speed, n).tremolo == Turned(w, n)
  {
    hide StartPitch, EffectPitch, TickPitch, StartSlide, EffectSlide, TickVolume, EffectVolume, StartVolume,
      Turned, Advanced;
    if n == 0 {
      TurnOnce(Played(c, cell, ppos, cfg, speed, 0).tremolo, 0);
    } else {
      TremoloTurns(c, cell, ppos, cfg, speed, n - 1);
      TurnOnce(Played(c, cell, ppos, cfg, speed, 0).tremolo, n - 1);
    }
  }

  lemma {:induction false} TremoloVolume(c: Channel, cell: Cell, ppos: int, cfg: Config, speed: int, n: nat)
    requires ValidChannel(c) && cell.Valid() && cell.effect == 7 && c.volume.cutoff == 0
    ensures var v := Played(c, cell, ppos, cfg, speed, n).volume;
      v.basevol == FirstVolume(c, cell, cfg) && v.dvol == v.cutoff == 0
  {
    hide StartPitch, EffectPitch, TickPitch, StartSlide, EffectSlide, StartWave, EffectTremolo, Height;
    if n > 0 {
      TremoloVolume(c, cell, ppos, cfg, speed, n - 1);
    }
  }

  /** A tremolo: in tick n the volume is moved by the height of the wave after n - 1 steps. Without a new speed or depth
      those of the last tremolo stay, and without a note the wave goes on. */
  lemma TremoloLeads(c: Channel, cell: Cell, ppos: int, cfg: Config, speed: int, n: nat)
    requires ValidChannel(c) && cell.Valid() && cell.effect == 7 && c.volume.cutoff == 0 && n > 0
    ensures var step := if cell.efd1 != 0 then cell.efd1 else c.tremolo.speed;
      var depth := if cell.efd2 != 0 then 2 * cell.efd2 else c.tremolo.depth;
      var index := (if cell.period != 0 then 0 else c.tremolo.index) + (n - 1) * step;
      Played(c, cell, ppos, cfg, speed, n).volume.vol ==
        if step == 0 then FirstVolume(c, cell, cfg)
        else Clamp(Height(c.tremolo.form, index % 64) * depth / 256 + FirstVolume(c, cell, cfg))
  {
    hide StartPitch, EffectPitch, TickPitch, StartSlide, EffectSlide, Height;
    TremoloTurns(c, cell, ppos, cfg, speed, n - 1);
    TremoloVolume(c, cell, ppos, cfg, speed, n - 1);
  }

  // ----- Periods -----

  /** A note without a tone portamento sets the period, that of its finetune: that of its sample, under the effects 0, C
      and F also of the sample before, or else the one there was. */
  lemma NotePlays(c: Channel, cell: Cell, cfg: Config)
    requires cell.period != 0 && cell.effect != 3 && cell.effect != 5
    ensures var sample := if cell.sample != 0 then cell.sample
                          else if cell.effect == 0 || cell.effect == 12 || cell.effect == 15 then c.prevsample else 0;
      var tune := if 0 < sample < 32 then cfg.finetunes[sample] else c.pitch.tune;
      var t := StartChannel(c, cell, cfg).pitch;
      t.per == t.target == t.source == t.played == cfg.period(cell.period, tune, 0) && t.tune == tune
      && t.base == cell.period && t.glissando == c.pitch.glissando
  {
  }

  /** A cell without a note keeps the period. A slide goes on from where the last one has got to, but after a vibrato,
      if there is no new one, from the period itself. */
  lemma SlideStarts(c: Channel, cell: Cell, cfg: Config)
    requires cell.period == 0
    ensures var goesOn := c.vibrato.active == 0 || cell.effect == 4 || cell.effect == 6;
      StartChannel(c, cell, cfg).pitch == c.pitch.(source := if goesOn then c.pitch.source else c.pitch.per)
  {
  }

  /** A note under a tone portamento is not played but becomes the target: 3 goes on from where it has got to, 5 starts
      from the period. Without a note the target stays. */
  lemma TonePortamentoStarts(c: Channel, cell: Cell, ppos: int, cfg: Config)
    requires cell.effect == 3 || cell.effect == 5
    ensures var tune := if 0 < cell.sample < 32 then cfg.finetunes[cell.sample] else c.pitch.tune;
      var note := cell.period != 0;
      var t := Played(c, cell, ppos, cfg, 0, 0).pitch;
      && t.per == c.pitch.per && t.played == c.pitch.played
      && t.target == (if note then cfg.period(cell.period, tune, 0) else c.pitch.target)
      && t.tune == (if note then tune else c.pitch.tune) && t.base == (if note then cell.period else c.pitch.base)
      && t.source == if (if note then cell.effect == 3 else c.vibrato.active == 0) then c.pitch.source else c.pitch.per
  {
  }

  /** Under all other effects but fine slides and finetunes the period is what the start of the cell has made it. */
  lemma PitchKept(c: Channel, cell: Cell, ppos: int, cfg: Config)
    requires cell.effect != 3 && cell.effect != 5
    requires Extended(cell, 1) || Extended(cell, 2) ==> cell.efd2 == 0
    requires Extended(cell, 5) ==> cell.period == 0
    ensures var t := Played(c, cell, ppos, cfg, 0, 0).pitch;
      t.(glissando := 0) == StartChannel(c, cell, cfg).pitch.(glissando := 0)
  {
  }

  /** From the second tick on nothing is skipped, and from the first one on if the effect does not say so. */
  lemma {:induction false} PlayedSlide(c: Channel, cell: Cell, ppos: int, cfg: Config, speed: int, n: nat)
    requires n > 0
    ensures Played(c, cell, ppos, cfg, speed, n).slide == Played(c, cell, ppos, cfg, speed, 0).slide.(skip := false)
  {
    hide StartPitch, EffectPitch, TickPitch, StartVolume, EffectVolume, TickVolume, EffectSlide, StartSlide;
    if n > 1 {
      PlayedSlide(c, cell, ppos, cfg, speed, n - 1);
    }
  }

  lemma PitchNext(c: Channel, cell: Cell, ppos: int, cfg: Config, speed: int, n: nat)
    requires n > 1
    ensures var before := Played(c, cell, ppos, cfg, speed, n - 1);
      Played(c, cell, ppos, cfg, speed, n).pitch
      == TickPitch(before.pitch, Played(c, cell, ppos, cfg, speed, 0).slide.(skip := false), before.vibrato, speed - n,
                   cfg)
  {
    hide StartPitch, EffectPitch, TickPitch, StartVolume, EffectVolume, TickVolume, EffectSlide, StartSlide;
    PlayedSlide(c, cell, ppos, cfg, speed, n - 1);
  }

  /** The first tick leaves the period alone under an effect that slides. */
  lemma PitchSkipped(c: Channel, cell: Cell, ppos: int, cfg: Config, speed: int)
    requires Played(c, cell, ppos, cfg, speed, 0).slide.skip
    ensures Played(c, cell, ppos, cfg, speed, 1).pitch == Played(c, cell, ppos, cfg, speed, 0).pitch
    ensures Played(c, cell, ppos, cfg, speed, 1).vibrato == Played(c, cell, ppos, cfg, speed, 0).vibrato
  {
    hide StartPitch, EffectPitch, StartVolume, EffectVolume, TickVolume, EffectSlide, StartSlide, Moved;
  }

  lemma PlayableIs(per: int)
    ensures Playable(per) == Min(856, Max(113, per))
  {
  }

  lemma Further(x: int, n: nat, d: int)
    requires PER_LOW <= x <= PER_HI
    ensures Playable(Playable(x + n * d) + d) == Playable(x + (n + 1) * d)
  {
    assert (n + 1) * d == n * d + d;
    SameSign(n, d);
  }

  /** Portamento: up by so much at every tick but the first of the row, which is down in periods, or down, up to the
      highest and down to the lowest note. */
  lemma {:induction false} PortamentoLeads(c: Channel, cell: Cell, ppos: int, cfg: Config, speed: int, n: nat)
    requires cell.Valid() && (cell.effect == 1 || cell.effect == 2) && cell.Efboth() != 0 && n > 1
    requires PER_LOW <= StartChannel(c, cell, cfg).pitch.source <= PER_HI
    ensures var t, source := Played(c, cell, ppos, cfg, speed, n).pitch, StartChannel(c, cell, cfg).pitch.source;
      var d := if cell.effect == 1 then 0 - cell.Efboth() else cell.Efboth();
      t.per == t.source == Min(856, Max(113, source + (n - 1) * d))
      && t.played == if t.glissando != 0 then cfg.nearest(t.tune, t.per) else t.per
  {
    hide StartPitch, Height, Playable;
    var source := StartChannel(c, cell, cfg).pitch.source;
    var d := if cell.effect == 1 then 0 - cell.Efboth() else cell.Efboth();
    PitchNext(c, cell, ppos, cfg, speed, n);
    PlayableIs(source + (n - 1) * d);
    if n == 2 {
      PitchSkipped(c, cell, ppos, cfg, speed);
      assert (n - 1) * d == d;
    } else {
      PlayableIs(source + (n - 2) * d);
      PortamentoLeads(c, cell, ppos, cfg, speed, n - 1);
      Further(source, n - 2, d);
    }
  }

  lemma StepFurther(x: int, n: nat, d: int)
    requires d > 0
    ensures Step(x, n * d) + Step(x - Step(x, n * d), d) == Step(x, (n + 1) * d)
  {
    assert (n + 1) * d == n * d + d;
    SameSign(n, d);
  }

  /** The step of a tone portamento: its own, or that of the last one. */
  function PortaStep(c: Channel, cell: Cell): int {
    if cell.effect == 3 && cell.Efboth() != 0 then cell.Efboth() else c.slide.dtp
  }

  lemma PortaSlide(c: Channel, cell: Cell, ppos: int, cfg: Config, speed: int)
    requires cell.Valid() && (cell.effect == 3 || cell.effect == 5) && PortaStep(c, cell) > 0
    ensures var s := Played(c, cell, ppos, cfg, speed, 0).slide;
      s.skip && s.tonePorta && s.dp == 0 && s.dtp == PortaStep(c, cell)
  {
    hide StartPitch, EffectPitch, StartVolume, EffectVolume;
  }

  /** Tone portamento: it goes at its speed at every tick but the first of the row, and ends exactly on the target. */
  lemma {:induction false} TonePortamentoLeads(c: Channel, cell: Cell, ppos: int, cfg: Config, speed: int, n: nat)
    requires cell.Valid() && (cell.effect == 3 || cell.effect == 5) && n > 0 && PortaStep(c, cell) > 0
    requires var start := Played(c, cell, ppos, cfg, speed, 0).pitch;
      PER_LOW <= start.source <= PER_HI && PER_LOW <= start.target <= PER_HI
    ensures var start, far := Played(c, cell, ppos, cfg, speed, 0).pitch, (n - 1) * PortaStep(c, cell);
      var t := Played(c, cell, ppos, cfg, speed, n).pitch;
      && t.source == start.source + Step(start.target - start.source, far) && t.target == start.target
      && (t.source == t.target <==> Distance(start.source, start.target) <= far)
  {
    hide Played, Height, Step, PortaStep;
    var start, step := Played(c, cell, ppos, cfg, speed, 0).pitch, PortaStep(c, cell);
    var way := start.target - start.source;
    PortaSlide(c, cell, ppos, cfg, speed);
    SameSign(n - 1, step);
    Arrives(way, (n - 1) * step);
    if n > 1 {
      TonePortamentoLeads(c, cell, ppos, cfg, speed, n - 1);
      PitchNext(c, cell, ppos, cfg, speed, n);
      StepFurther(way, n - 2, step);
    } else {
      PitchSkipped(c, cell, ppos, cfg, speed);
      assert (n - 1) * step == 0;
    }
  }

  function Distance(a: int, b: int): nat { if a < b then b - a else a - b }

  /** A step does not go past. */
  lemma Arrives(x: int, step: int)
    requires step >= 0
    ensures Step(x, step) == x <==> Distance(x, 0) <= step
    ensures step == 0 ==> Step(x, step) == 0
    ensures if x >= 0 then 0 <= Step(x, step) <= x else x <= Step(x, step) <= 0
  {
  }

  lemma {:induction false} VibratoTurns(c: Channel, cell: Cell, ppos: int, cfg: Config, speed: int, n: nat)
    requires ValidChannel(c) && (cell.effect == 4 || cell.effect == 6) && n > 0
    ensures var w := Played(c, cell, ppos, cfg, speed, 0).vibrato;
      0 <= w.index < 64 && Played(c, cell, ppos, cfg, speed, n).vibrato == Turned(w, n - 1)
    ensures var s := Played(c, cell, ppos, cfg, speed, n).slide; !s.skip && s.dp == s.arp == 0 && !s.tonePorta
    decreases n
  {
    hide StartPitch, EffectPitch, TickPitch, TickVolume, EffectVolume, StartVolume, Turned, Advanced;
    if n == 1 {
      TurnOnce(Played(c, cell, ppos, cfg, speed, 0).vibrato, 0);
    } else {
      VibratoTurns(c, cell, ppos, cfg, speed, n - 1);
      TurnOnce(Played(c, cell, ppos, cfg, speed, 0).vibrato, n - 2);
    }
  }

  lemma VibratoStarts(c: Channel, cell: Cell, ppos: int, cfg: Config, speed: int)
    requires cell.Valid() && (cell.effect == 4 || cell.effect == 6)
    ensures var start, own := Played(c, cell, ppos, cfg, speed, 0), cell.effect == 4;
      && start.slide.skip && start.slide.dp == start.slide.arp == 0 && !start.slide.tonePorta
      && start.pitch == StartChannel(c, cell, cfg).pitch
      && start.vibrato.active == (if own && cell.efd1 != 0 then cell.efd1 else c.vibrato.speed)
      && start.vibrato.depth == (if own && cell.efd2 != 0 then cell.efd2 else c.vibrato.depth)
      && start.vibrato.index == (if cell.period != 0 then 0 else c.vibrato.index)
      && start.vibrato.form == c.vibrato.form
  {
    hide StartPitch, EffectVolume, StartVolume;
  }

  /** A vibrato: from the second tick on, what is played is the period moved by the wave, which turns from then on; the
      period itself stays. */
  lemma {:induction false} VibratoLeads(c: Channel, cell: Cell, ppos: int, cfg: Config, speed: int, n: nat)
    requires ValidChannel(c) && cell.Valid() && (cell.effect == 4 || cell.effect == 6) && n > 1
    ensures var own, start := cell.effect == 4, StartChannel(c, cell, cfg).pitch;
      var step := if own && cell.efd1 != 0 then cell.efd1 else c.vibrato.speed;
      var depth := if own && cell.efd2 != 0 then cell.efd2 else c.vibrato.depth;
      var index := (if cell.period != 0 then 0 else c.vibrato.index) + (n - 2) * step;
      var t := Played(c, cell, ppos, cfg, speed, n).pitch;
      t.per == start.per
      && t.played == if step == 0 then start.played
                     else Playable(depth * Height(c.vibrato.form, index % 64) / 128 + start.per)
    decreases n
  {
    hide Played, StartPitch, Height, Playable;
    VibratoStarts(c, cell, ppos, cfg, speed);
    VibratoTurns(c, cell, ppos, cfg, speed, n - 1);
    PitchNext(c, cell, ppos, cfg, speed, n);
    if n == 2 {
      PitchSkipped(c, cell, ppos, cfg, speed);
    } else {
      VibratoLeads(c, cell, ppos, cfg, speed, n - 1);
    }
  }

  /** An arpeggio: the note itself and the notes so many halftones above it, in turn. As the ticks are counted down, the
      second digit comes before the first one. */
  lemma {:induction false} ArpeggioPlays(c: Channel, cell: Cell, ppos: int, cfg: Config, speed: int, n: nat)
    requires cell.Valid() && cell.effect == 0 && cell.Efboth() != 0 && !c.slide.skip && n > 0
    ensures var start, t := StartChannel(c, cell, cfg).pitch, Played(c, cell, ppos, cfg, speed, n).pitch;
      var halftones := match (speed - n) % 3 { case 2 => cell.efd2 case 1 => cell.efd1 case _ => 0 };
      t == start.(played := cfg.period(start.base, start.tune, halftones))
    decreases n
  {
    hide StartPitch, TickVolume, EffectVolume, StartVolume;
    Nibbles(cell);
    if n > 1 {
      ArpeggioPlays(c, cell, ppos, cfg, speed, n - 1);
      PitchNext(c, cell, ppos, cfg, speed, n);
    }
  }

  lemma Nibbles(cell: Cell)
    requires cell.Valid()
    ensures cell.Efboth() / 256 % 16 == 0 && cell.Efboth() / 16 % 16 == cell.efd1 && cell.Efboth() % 16 == cell.efd2
  {
  }

  /** Without a slide, an arpeggio or a vibrato the period stays what the cell has made it. */
  lemma {:induction false} PitchStays(c: Channel, cell: Cell, ppos: int, cfg: Config, speed: int, n: nat)
    requires cell.effect >= 7 || (cell.effect < 3 && cell.Efboth() == 0)
    ensures var start, now := Played(c, cell, ppos, cfg, speed, 0), Played(c, cell, ppos, cfg, speed, n);
      start.vibrato.active == 0 && now.pitch == start.pitch && now.vibrato == start.vibrato
      && now.slide.dp == now.slide.arp == 0 && !now.slide.tonePorta
  {
    hide StartPitch, EffectPitch, TickVolume, EffectVolume, StartVolume;
    if n > 0 {
      PitchStays(c, cell, ppos, cfg, speed, n - 1);
    }
  }

  /** Fine slides move the period at once, and for good. Nothing holds it above zero. */
  lemma FineSlideLeads(c: Channel, cell: Cell, ppos: int, cfg: Config, speed: int, n: nat)
    requires cell.Valid() && cell.effect == 14 && (cell.efd1 == 1 || cell.efd1 == 2) && cell.efd2 != 0
    ensures var start, t := StartChannel(c, cell, cfg).pitch, Played(c, cell, ppos, cfg, speed, n).pitch;
      && t.per == t.target == t.played == start.per + (if cell.efd1 == 1 then 0 - cell.efd2 else cell.efd2)
      && t.source == start.source && t.tune == start.tune
  {
    PitchStays(c, cell, ppos, cfg, speed, n);
  }

  /** E5x plays its note in another tuning. */
  lemma FinetunePlays(c: Channel, cell: Cell, ppos: int, cfg: Config, speed: int, n: nat)
    requires cell.Valid() && cell.effect == 14 && cell.efd1 == 5 && cell.period != 0
    ensures var t := Played(c, cell, ppos, cfg, speed, n).pitch;
      t.tune == cell.efd2 && t.per == t.target == t.played == cfg.period(cell.period, cell.efd2, 0)
  {
    PitchStays(c, cell, ppos, cfg, speed, n);
  }

  // ----- What is remembered -----

  predicate Extended(cell: Cell, command: nat) { cell.effect == 14 && cell.efd1 == command }

  /** What later rows fall back on: the last sample, the wave forms and the glissando, and the last numbers that were
      given to vibrato, tremolo and tone portamento. */
  lemma {:induction false} Remembered(c: Channel, cell: Cell, ppos: int, cfg: Config, speed: int, n: nat)
    requires cell.Valid()
    ensures var now := Played(c, cell, ppos, cfg, speed, n);
      && now.prevsample == (if cell.sample != 0 then cell.sample else c.prevsample)
      && now.vibrato.form == (if Extended(cell, 4) then cell.efd2 else c.vibrato.form)
      && now.tremolo.form == (if Extended(cell, 7) then cell.efd2 else c.tremolo.form)
      && now.vibrato.speed == (if cell.effect == 4 && cell.efd1 != 0 then cell.efd1 else c.vibrato.speed)
      && now.vibrato.depth == (if cell.effect == 4 && cell.efd2 != 0 then cell.efd2 else c.vibrato.depth)
      && now.tremolo.speed == (if cell.effect == 7 && cell.efd1 != 0 then cell.efd1 else c.tremolo.speed)
      && now.tremolo.depth == (if cell.effect == 7 && cell.efd2 != 0 then 2 * cell.efd2 else c.tremolo.depth)
      && now.slide.dtp == (if cell.effect == 3 && cell.Efboth() != 0 then cell.Efboth() else c.slide.dtp)
      && now.pitch.glissando == if Extended(cell, 3) then cell.efd2
                                else if Extended(cell, 15) then 16 * cell.efd2 else c.pitch.glissando
  {
    hide StartVolume, EffectVolume, TickVolume, EffectLoop, Height;
    if n > 0 {
      Remembered(c, cell, ppos, cfg, speed, n - 1);
    }
  }

  /** A wave rests in rows of other effects, and a note takes it back to its start. */
  lemma {:induction false} WavesRest(c: Channel, cell: Cell, ppos: int, cfg: Config, speed: int, n: nat)
    ensures var now := Played(c, cell, ppos, cfg, speed, n);
      && (cell.effect != 4 && cell.effect != 6 ==>
            now.vibrato.active == 0 && now.vibrato.index == if cell.period != 0 then 0 else c.vibrato.index)
      && (cell.effect != 7 ==>
            now.tremolo.active == 0 && now.tremolo.index == if cell.period != 0 then 0 else c.tremolo.index)
  {
    hide StartVolume, EffectVolume, TickVolume, EffectLoop, Height, StartPitch, EffectPitch, TickPitch;
    if n > 0 {
      WavesRest(c, cell, ppos, cfg, speed, n - 1);
    }
  }

  // ----- Tempo -----

  predicate SetsSpeed(cell: Cell) { cell.effect == 15 && 0 < 16 * cell.efd1 + cell.efd2 < 32 }

  predicate SetsTempo(cell: Cell) { cell.effect == 15 && 16 * cell.efd1 + cell.efd2 >= 32 }

  predicate Delays(cell: Cell) { cell.effect == 14 && cell.efd1 == 14 }

  /** Cell i is the last one before n that does something. */
  ghost predicate Last(row: Row, i: nat, n: nat, does: Cell -> bool)
    requires n <= 4
  {
    i < n && does(row[i]) && forall k :: i < k < n ==> !does(row[k])
  }

  ghost predicate NoneDoes(row: Row, n: nat, does: Cell -> bool)
    requires n <= 4
  {
    forall k :: 0 <= k < n ==> !does(row[k])
  }

  /** The last command of each kind in a row decides: F below 32 sets the ticks of a row, and F from 32 on the beats of
      24 ticks a minute, up to the rounding of the length of a tick; EE sets the delay. */
  lemma {:induction false} RowSets(t: Tempo, delay: int, row: Row, n: nat, i: nat)
    requires n <= 4
    ensures var after, x := RowTempo(t, row, n), if i < n then 16 * row[i].efd1 + row[i].efd2 else 0;
      && (Last(row, i, n, SetsSpeed) ==> after.speed == x)
      && (NoneDoes(row, n, SetsSpeed) ==> after.speed == t.speed)
      && (Last(row, i, n, SetsTempo) ==>
            after.ciaspeed == x && after.vbllen * (24 * x) <= 60 * FREQ < (after.vbllen + 1) * (24 * x))
      && (NoneDoes(row, n, SetsTempo) ==> after.ciaspeed == t.ciaspeed && after.vbllen == t.vbllen)
      && (Last(row, i, n, Delays) ==> RowDelay(delay, row, n) == row[i].efd2)
      && (NoneDoes(row, n, Delays) ==> RowDelay(delay, row, n) == delay)
    decreases n
  {
    if n > 0 {
      RowSets(t, delay, row, n - 1, i);
      if SetsTempo(row[n - 1]) {
        TickLength(row[n - 1].Efboth());
      }
    }
  }

  lemma TickLength(x: int)
    requires x > 0
    ensures var length := FREQ * 60 / (24 * x); length * (24 * x) <= 60 * FREQ < (length + 1) * (24 * x)
  {
    var d := 24 * x;
    var q := FREQ * 60 / d;
    assert FREQ * 60 == q * d + FREQ * 60 % d;
  }

  function AfterRows(g: Player, rowAt: nat -> Row, cfg: Config, n: nat): Player {
    if n == 0 then g else AfterRow(AfterRows(g, rowAt, cfg, n - 1), rowAt(n - 1), cfg)
  }

  /** A delay of x lets x rows pass on which nothing is played: the counters of the rows only. */
  lemma {:induction false} DelayLasts(g: Player, rowAt: nat -> Row, cfg: Config, n: nat)
    requires 0 <= n <= g.patdelay
    ensures AfterRows(g, rowAt, cfg, n) == g.(patdelay := g.patdelay - n)
  {
    if n > 0 {
      DelayLasts(g, rowAt, cfg, n - 1);
    }
  }

  // ----- Where the song goes on -----

  /** The commands B and D, and E6x for a loop. */
  predicate Moves(cell: Cell) {
    cell.effect == 11 || cell.effect == 13 || (cell.effect == 14 && cell.efd1 == 6 && cell.efd2 != 0)
  }

  /** No cell of a row but cell i moves the song. */
  ghost predicate OnlyMoves(row: Row, i: nat) { forall k :: 0 <= k < 4 && k != i ==> !Moves(row[k]) }

  lemma {:induction false} OnePlace(p: Place, channels: Channels, row: Row, i: nat, n: nat)
    requires OnlyMoves(row, i) && i < 4 && n <= 4
    ensures RowPlace(p, channels, row, n) == if i < n then EffectPlace(p, channels[i].loop, row[i]) else p
    decreases n
  {
    if n > 0 {
      OnePlace(p, channels, row, i, n - 1);
    }
  }

  /** The song position that is played after this one. */
  function SongAfter(spos: int, length: int): int { if spos + 1 < length then spos + 1 else 0 }

  /** Where a row leads that moves the song in cell i at most: B starts a song position from its first row, D goes on in
      the next one at a row it gives in decimal digits, or at the first one when there is no such row; otherwise it is
      the row below, and past the last one the first of the next position. */
  lemma RowLeads(g: Player, row: Row, cfg: Config, i: nat)
    requires cfg.playSong && g.patdelay == 0 && 0 <= g.ppos < 64 && 0 <= g.spos < cfg.length
    requires i < 4 && OnlyMoves(row, i) && row[i].effect != 14
    ensures var after, cell := AfterRow(g, row, cfg), row[i];
      var x, line := 16 * cell.efd1 + cell.efd2, 10 * cell.efd1 + cell.efd2;
      && after.ppos == (if cell.effect == 11 then 0
                        else if cell.effect == 13 then (if line < 64 then line else 0) else (g.ppos + 1) % 64)
      && after.spos == (if cell.effect == 11 then (if x < cfg.length then x else 0)
                        else if cell.effect == 13 || g.ppos == 63 then SongAfter(g.spos, cfg.length) else g.spos)
  {
    OnePlace(Place(g.ppos, g.spos, 0), g.channels, row, i, 4);
  }

  /** Once the end of the song is counted and looked for, all that follows is silence. */
  lemma {:induction false} EndIsSilent(g: Player, rowAt: nat -> Row, voicesAt: nat -> Voices, cfg: Config, n: nat)
    requires Muted(g, cfg)
    ensures AfterSamples(g, rowAt, cfg, n) == g && MixAt(g, rowAt, voicesAt, cfg, n) == 0
  {
    if n > 0 {
      EndIsSilent(g, rowAt, voicesAt, cfg, n - 1);
    }
  }

  lemma {:induction false} EndsCounted(row: Row, n: nat)
    requires n <= 4
    ensures RowEnds(row, n) > 0 <==> exists i :: 0 <= i < n && row[i].effect == 15 && row[i].efd1 == row[i].efd2 == 0
  {
    if n > 0 {
      EndsCounted(row, n - 1);
    }
  }

  /** The end is counted by a row with F00, and by one that leaves the last position. */
  lemma SongEnds(g: Player, row: Row, cfg: Config, i: nat)
    requires cfg.playSong && cfg.doSongEnd && g.patdelay == 0 && 0 <= g.ppos < 64 && 0 <= g.spos < cfg.length
    requires g.songloopcount == 0 && i < 4 && OnlyMoves(row, i) && row[i].effect != 14
    ensures Muted(AfterRow(g, row, cfg), cfg) <==>
      || (exists k :: 0 <= k < 4 && row[k].effect == 15 && row[k].efd1 == row[k].efd2 == 0)
      || (if row[i].effect == 11 then 16 * row[i].efd1 + row[i].efd2 >= cfg.length
          else (row[i].effect == 13 || g.ppos == 63) && g.spos + 1 == cfg.length)
  {
    OnePlace(Place(g.ppos, g.spos, 0), g.channels, row, i, 4);
    EndsCounted(row, 4);
  }

  // ----- The rows of a loop -----

  /** n rows of a pattern, each the one the song has come to. */
  function PlayRows(g: Player, pattern: int -> Row, cfg: Config, n: nat): Player {
    if n == 0 then g
    else
      var before := PlayRows(g, pattern, cfg, n - 1);
      AfterRow(before, pattern(before.ppos), cfg)
  }

  /** Rows `first` to `last`, of which the first one has E60 in cell i and the last one E6x in the same cell; nothing
      else moves or delays the song. */
  ghost predicate IsLoop(pattern: int -> Row, first: int, last: int, i: nat, x: nat) {
    && 0 <= first < last < 64 && i < 4 && 0 < x < 16
    && (forall r :: first <= r <= last ==> OnlyMoves(pattern(r), i) && NoneDoes(pattern(r), 4, Delays))
    && (forall r :: first < r < last ==> !Loops(pattern(r)[i]) && !Moves(pattern(r)[i]))
    && Loops(pattern(first)[i]) && pattern(first)[i].efd2 == 0
    && Loops(pattern(last)[i]) && pattern(last)[i].efd2 == x
  }

  predicate Loops(cell: Cell) { cell.effect == 14 && cell.efd1 == 6 }

  /** The loop of a channel when the song is in the loop of its pattern for the q-th time. */
  ghost predicate InLoop(l: Loop, first: int, x: int, q: nat, atStart: bool) {
    if q == 0 then (if atStart then l.flag == 0 else l.flag == 1 && l.start == first)
    else l.flag == 2 && l.start == first && l.count == x - q
  }

  lemma LoopRow(g: Player, pattern: int -> Row, cfg: Config, first: int, last: int, i: nat, x: nat, q: nat)
    requires IsLoop(pattern, first, last, i, x) && cfg.playSong && g.patdelay == 0 && 0 <= g.spos < cfg.length && q <= x
    requires first <= g.ppos <= last && InLoop(g.channels[i].loop, first, x, q, g.ppos == first)
    ensures var after := AfterRow(g, pattern(g.ppos), cfg);
      && after.patdelay == 0
      && if g.ppos < last then
           after.ppos == g.ppos + 1 && after.spos == g.spos && InLoop(after.channels[i].loop, first, x, q, false)
         else if q < x then
           after.ppos == first && after.spos == g.spos && InLoop(after.channels[i].loop, first, x, q + 1, true)
         else
           after.ppos == (last + 1) % 64 && after.channels[i].loop.flag == 0
           && after.spos == if last == 63 then SongAfter(g.spos, cfg.length) else g.spos
  {
    hide RowTempo, StartChannel, TickChannel, RowEnds;
    var row := pattern(g.ppos);
    var p := Place(g.ppos, g.spos, 0);
    OnePlace(p, g.channels, row, i, 4);
    OnePlace(p, g.channels, row, i, i);
    RowSets(g.tempo, 0, row, 4, 0);
    LoopAfterRow(p, g.channels, row, cfg, i);
  }

  lemma LoopAfterRow(p: Place, channels: Channels, row: Row, cfg: Config, i: nat)
    requires i < 4
    ensures RowChannel(p, channels, row, cfg, i).loop
         == EffectLoop(channels[i].loop, row[i], RowPlace(p, channels, row, i).ppos)
  {
    hide EffectLoop, RowPlace;
  }

  lemma {:induction false} RowsAfterRows(g: Player, pattern: int -> Row, cfg: Config, m: nat, n: nat)
    ensures PlayRows(g, pattern, cfg, m + n) == PlayRows(PlayRows(g, pattern, cfg, m), pattern, cfg, n)
    decreases n
  {
    hide AfterRow;
    if n > 0 {
      RowsAfterRows(g, pattern, cfg, m, n - 1);
    }
  }

  /** Within one pass through the loop. */
  lemma {:induction false} LoopPass(g: Player, pattern: int -> Row, cfg: Config, first: int, last: int, i: nat, x: nat,
                                    q: nat, n: nat)
    requires IsLoop(pattern, first, last, i, x) && cfg.playSong && g.patdelay == 0 && 0 <= g.spos < cfg.length && q <= x
    requires g.ppos == first && InLoop(g.channels[i].loop, first, x, q, true) && n <= last - first
    ensures var now := PlayRows(g, pattern, cfg, n);
      now.ppos == first + n && now.spos == g.spos && now.patdelay == 0
      && InLoop(now.channels[i].loop, first, x, q, n == 0)
    decreases n
  {
    hide AfterRow, IsLoop, InLoop;
    if n > 0 {
      LoopPass(g, pattern, cfg, first, last, i, x, q, n - 1);
      LoopRow(PlayRows(g, pattern, cfg, n - 1), pattern, cfg, first, last, i, x, q);
    }
  }

  lemma LoopTurn(g: Player, pattern: int -> Row, cfg: Config, first: int, last: int, i: nat, x: nat, q: nat)
    requires IsLoop(pattern, first, last, i, x) && cfg.playSong && g.patdelay == 0 && 0 <= g.spos < cfg.length && q <= x
    requires g.ppos == first && InLoop(g.channels[i].loop, first, x, q, true)
    ensures var after := PlayRows(g, pattern, cfg, last + 1 - first);
      && after.patdelay == 0
      && if q < x then
           after.ppos == first && after.spos == g.spos && InLoop(after.channels[i].loop, first, x, q + 1, true)
         else
           after.ppos == (last + 1) % 64 && after.channels[i].loop.flag == 0
           && after.spos == if last == 63 then SongAfter(g.spos, cfg.length) else g.spos
  {
    hide AfterRow, InLoop, OnlyMoves, NoneDoes;
    LoopPass(g, pattern, cfg, first, last, i, x, q, last - first);
    LoopRow(PlayRows(g, pattern, cfg, last - first), pattern, cfg, first, last, i, x, q);
  }

  lemma {:induction false} LoopTurns(g: Player, pattern: int -> Row, cfg: Config, first: int, last: int, i: nat, x: nat,
                                     rows: nat, q: nat)
    requires IsLoop(pattern, first, last, i, x) && cfg.playSong && g.patdelay == 0 && 0 <= g.spos < cfg.length
    requires g.ppos == first && InLoop(g.channels[i].loop, first, x, 0, true) && rows == last + 1 - first && q <= x
    ensures var now := PlayRows(g, pattern, cfg, q * rows);
      now.ppos == first && now.spos == g.spos && now.patdelay == 0 && InLoop(now.channels[i].loop, first, x, q, true)
    decreases q
  {
    hide AfterRow, IsLoop, InLoop, PlayRows;
    if q > 0 {
      var done := (q - 1) * rows;
      LoopTurns(g, pattern, cfg, first, last, i, x, rows, q - 1);
      LoopTurn(PlayRows(g, pattern, cfg, done), pattern, cfg, first, last, i, x, q - 1);
      RowsAfterRows(g, pattern, cfg, done, rows);
      OneMoreTime(q, rows);
    } else {
      NoRows(g, pattern, cfg, q * rows);
    }
  }

  lemma OneMoreTime(q: nat, rows: nat)
    requires q > 0
    ensures (q - 1) * rows + rows == q * rows
  {
  }

  lemma NoRows(g: Player, pattern: int -> Row, cfg: Config, n: nat)
    requires n == 0
    ensures PlayRows(g, pattern, cfg, n) == g
  {
  }

  lemma LoopEnds(g: Player, pattern: int -> Row, cfg: Config, first: int, last: int, i: nat, x: nat, rows: nat)
    requires IsLoop(pattern, first, last, i, x) && cfg.playSong && g.patdelay == 0 && 0 <= g.spos < cfg.length
    requires g.ppos == first && InLoop(g.channels[i].loop, first, x, 0, true) && rows == last + 1 - first
    ensures var after := PlayRows(g, pattern, cfg, (x + 1) * rows);
      after.ppos == (last + 1) % 64 && after.spos == if last == 63 then SongAfter(g.spos, cfg.length) else g.spos
  {
    hide AfterRow, OnlyMoves, NoneDoes, Loops, Moves, PlayRows, InLoop;
    LoopTurns(g, pattern, cfg, first, last, i, x, rows, x);
    LoopTurn(PlayRows(g, pattern, cfg, x * rows), pattern, cfg, first, last, i, x, x);
    RowsAfterRows(g, pattern, cfg, x * rows, rows);
    assert x * rows + rows == (x + 1) * rows;
  }

  lemma LoopReaches(g: Player, pattern: int -> Row, cfg: Config, first: int, last: int, i: nat, x: nat, rows: nat,
                    q: nat, n: nat)
    requires IsLoop(pattern, first, last, i, x) && cfg.playSong && g.patdelay == 0 && 0 <= g.spos < cfg.length
    requires g.ppos == first && InLoop(g.channels[i].loop, first, x, 0, true) && rows == last + 1 - first
    requires q <= x && n < rows
    ensures var now := PlayRows(g, pattern, cfg, q * rows + n); now.ppos == first + n && now.spos == g.spos
  {
    hide AfterRow, OnlyMoves, NoneDoes, Loops, Moves, PlayRows, InLoop;
    LoopTurns(g, pattern, cfg, first, last, i, x, rows, q);
    LoopPass(PlayRows(g, pattern, cfg, q * rows), pattern, cfg, first, last, i, x, q, n);
    RowsAfterRows(g, pattern, cfg, q * rows, n);
  }

  /** A pattern loop is played x + 1 times, row by row, in the same song position; then the song goes on below it. */
  lemma LoopPlays(g: Player, pattern: int -> Row, cfg: Config, first: int, last: int, i: nat, x: nat, q: nat, n: nat)
    requires IsLoop(pattern, first, last, i, x) && cfg.playSong && g.patdelay == 0 && 0 <= g.spos < cfg.length
    requires g.ppos == first && g.channels[i].loop.flag == 0 && q <= x && n <= last - first
    ensures var rows := last + 1 - first;
      var now, after := PlayRows(g, pattern, cfg, q * rows + n), PlayRows(g, pattern, cfg, (x + 1) * rows);
      && now.ppos == first + n && now.spos == g.spos
      && after.ppos == (last + 1) % 64 && after.spos == if last == 63 then SongAfter(g.spos, cfg.length) else g.spos
  {
    hide AfterRow, OnlyMoves, NoneDoes, Loops, Moves, PlayRows;
    LoopReaches(g, pattern, cfg, first, last, i, x, last + 1 - first, q, n);
    LoopEnds(g, pattern, cfg, first, last, i, x, last + 1 - first);
  }
}
