/**
 The player of libraries/modplayer/ptplay.cpp step by step, on the fields of its module: `pt_donote`, `pt_dotick`, and
 `pt_render` for 16-bit mono.
 */
module PtPlayer {
  import opened PtPlay

  class Module {
    const cfg: Config
    const chan: array<Channel>
    var spos: int
    var ppos: int
    var speed: int
    var ciaspeed: int
    var vbllen: int
    var bpos: int
    var tick: int
    var patdelay: int
    var skiptopos: int
    var songloopcount: int

    ghost predicate Valid() { chan.Length == 4 }

    ghost function View(): Player
      requires Valid()
      reads this, chan
    {
      Player(ppos, spos, skiptopos, Tempo(speed, ciaspeed, vbllen), patdelay, songloopcount, tick, bpos, chan[..])
    }

    /** The fields that pt_init sets. */
    constructor (cfg: Config)
      ensures Valid() && fresh(chan) && this.cfg == cfg && View() == START
    {
      this.cfg := cfg;
      chan := new Channel[4](_ => SILENT);
      spos, ppos, bpos, tick, patdelay, skiptopos, songloopcount := 0, 0, 0, 0, 0, 0, 0;
      speed, ciaspeed, vbllen := 6, 125, FREQ / 50;
      new;
      assert chan[..] == START.channels;
    }

    /** The start of a cell: sample, volume, and everything off that lasts for one row. */
    method StartCell(c0: Channel, ptd: Cell) returns (c: Channel)
      ensures c == StartChannel(c0, ptd, cfg)
    {
      var v, vibrato, tremolo, slide, prevsample := c0.volume, c0.vibrato, c0.tremolo, c0.slide, c0.prevsample;
      var pitch := c0.pitch;
      var k := ptd.period;
      var j := ptd.sample;
      var usePreviousVolume := false;
      v := v.(prevvol := v.basevol);
      if j != 0 {
        prevsample := j;
      }
      if k != 0 && j == 0 && (ptd.effect == 0 || ptd.effect == 12 || ptd.effect == 15) {
        j := prevsample;
        v := v.(basevol := v.prevvol);
        usePreviousVolume := true;
      }
      if k != 0 && ptd.effect != 3 {
        pitch := pitch.(source := pitch.per);
      }
      if k == 0 && vibrato.active != 0 && ptd.effect != 4 && ptd.effect != 6 {
        k := pitch.per;
        pitch := pitch.(source := pitch.per);
      }
      if vibrato.active != 0 {
        k := ptd.period;
      }
      slide := slide.(tonePorta := false);
      vibrato, tremolo := vibrato.(active := 0), tremolo.(active := 0);
      v := v.(dvol := 0);
      slide := slide.(dp := 0, arp := 0);
      if 0 < j < 32 {
        var volume := cfg.volumes[j];
        if volume > 63 {
          volume := 63;
        }
        if !usePreviousVolume {
          v := v.(basevol := volume, vol := volume);
        }
        if k != 0 {
          pitch := pitch.(tune := cfg.finetunes[j]);
        }
      }
      if k != 0 {
        pitch := pitch.(base := k);
        vibrato, tremolo := vibrato.(index := 0), tremolo.(index := 0);
        if ptd.effect != 3 && ptd.effect != 5 {
          k := cfg.period(k, pitch.tune, 0);
          pitch := pitch.(per := k, target := k, source := k, played := k);
        }
      }
      c := Channel(v, pitch, vibrato, tremolo, slide, c0.loop, prevsample);
    }

    /** Effects 0 to 7, C and A: those of one channel. */
    method ChannelEffect(c0: Channel, ptd: Cell) returns (c: Channel)
      requires ptd.Valid() && ptd.effect != 14
      ensures c == EffectChannel(c0, ptd, 0, cfg)
    {
      var v, pitch, vibrato, tremolo, slide := c0.volume, c0.pitch, c0.vibrato, c0.tremolo, c0.slide;
      var j: int := ptd.Efboth();
      match ptd.effect {
        case 0 =>
          if j != 0 {
            slide := slide.(arp := j);
          }
        case 1 => slide := slide.(dp := -j, skip := true);
        case 2 => slide := slide.(dp := j, skip := true);
        case 3 =>
          if j != 0 {
            slide := slide.(dtp := j);
          }
          if ptd.period != 0 {
            pitch := pitch.(target := cfg.period(ptd.period, pitch.tune, 0));
          }
          if slide.dtp != 0 {
            slide := slide.(tonePorta := true, skip := true);
          }
        case 4 =>
          if ptd.efd2 != 0 {
            vibrato := vibrato.(depth := ptd.efd2);
          }
          if ptd.efd1 != 0 {
            vibrato := vibrato.(speed := ptd.efd1);
          }
          vibrato := vibrato.(active := vibrato.speed);
          slide := slide.(skip := true);
        case 5 =>
          v := SetSlide(v, j);
          if ptd.period != 0 {
            pitch := pitch.(target := cfg.period(ptd.period, pitch.tune, 0));
          }
          if slide.dtp != 0 {
            slide := slide.(tonePorta := true, skip := true);
          }
        case 6 =>
          v := SetSlide(v, j);
          vibrato := vibrato.(active := vibrato.speed);
          slide := slide.(skip := true);
        case 7 =>
          if ptd.efd2 != 0 {
            tremolo := tremolo.(depth := ptd.efd2 * 2);
          }
          if ptd.efd1 != 0 {
            tremolo := tremolo.(speed := ptd.efd1);
          }
          tremolo := tremolo.(active := tremolo.speed);
        case 10 => v := SetSlide(v, j);
        case 12 =>
          if j > 63 {
            j := 63;
          }
          v := v.(basevol := j);
        case _ =>
      }
      c := Channel(v, pitch, vibrato, tremolo, slide, c0.loop, c0.prevsample);
    }

    /** The volume slide of effects 5, 6 and A: up by the first digit, or else down by the second. */
    method SetSlide(v: Volume, both: int) returns (r: Volume)
      requires 0 <= both < 256
      ensures r == v.(dvol := if both / 16 != 0 then both / 16 else 0 - both % 16)
    {
      r := v.(dvol := -(both % 16));
      var j := both / 16;
      if j != 0 {
        r := r.(dvol := j);
      }
    }

    /** Effects B, D and F: those of the whole module. */
    method ModuleEffect(ptd: Cell, ppos0: int, spos0: int) returns (ppos1: int, spos1: int)
      requires ptd.Valid() && ptd.effect != 14
      modifies `speed, `ciaspeed, `vbllen, `skiptopos, `songloopcount
      ensures Place(ppos1, spos1, skiptopos) == EffectPlace(Place(ppos0, spos0, old(skiptopos)), Loop(0, 0, 0), ptd)
      ensures Tempo(speed, ciaspeed, vbllen) == EffectTempo(Tempo(old(speed), old(ciaspeed), old(vbllen)), ptd)
      ensures songloopcount == old(songloopcount) + if cfg.doSongEnd && EndsSong(ptd) then 1 else 0
    {
      ppos1, spos1 := ppos0, spos0;
      var j: int := ptd.Efboth();
      match ptd.effect {
        case 11 =>
          spos1 := j - 1;
          ppos1 := 63;
        case 13 =>
          if j != 0 {
            j := j / 16 * 10 + j % 16;
            if j < 64 {
              skiptopos := j;
              return;
            }
          }
          ppos1 := 63;
        case 15 =>
          if j >= 32 {
            ciaspeed := j;
            vbllen := FREQ * 60 / (24 * j);
          } else if j > 0 {
            speed := j;
          } else {
            if cfg.doSongEnd {
              songloopcount := songloopcount + 1;
            }
          }
        case _ =>
      }
    }

    /** The effects E0x to EFx. */
    method ExtendedEffect(c0: Channel, ptd: Cell, ppos0: int, spos0: int) returns (c: Channel, ppos1: int, spos1: int)
      requires ptd.Valid() && ptd.effect == 14
      modifies `patdelay
      ensures c == EffectChannel(c0, ptd, ppos0, cfg)
      ensures Place(ppos1, spos1, skiptopos) == EffectPlace(Place(ppos0, spos0, skiptopos), c0.loop, ptd)
      ensures patdelay == EffectDelay(old(patdelay), ptd)
    {
      ppos1, spos1 := ppos0, spos0;
      var v, pitch, vibrato, tremolo, loop := c0.volume, c0.pitch, c0.vibrato, c0.tremolo, c0.loop;
      var j: int := ptd.efd2;
      match ptd.efd1 {
        case 1 =>
          if j != 0 {
            j := -j;
            j := j + pitch.per;
            pitch := pitch.(target := j, per := j, played := j);
          }
        case 2 =>
          if j != 0 {
            j := j + pitch.per;
            pitch := pitch.(target := j, per := j, played := j);
          }
        case 3 => pitch := pitch.(glissando := j);
        case 4 => vibrato := vibrato.(form := j);
        case 5 =>
          if ptd.period != 0 {
            pitch := pitch.(tune := ptd.efd2);
            j := cfg.period(ptd.period, pitch.tune, 0);
            pitch := pitch.(per := j, target := j, played := j);
          }
        case 6 => loop, ppos1, spos1 := LoopEffect(loop, j, ppos1, spos1);
        case 7 => tremolo := tremolo.(form := j);
        case 10 =>
          j := j + v.basevol;
          if j > 63 {
            j := 63;
          }
          v := v.(basevol := j, vol := j);
        case 11 =>
          j := v.basevol - j;
          if j < 0 {
            j := 0;
          }
          v := v.(basevol := j, vol := j);
        case 12 => v := v.(cutoff := j + 1);
        case 14 => patdelay := j;
        case 15 => pitch := pitch.(glissando := 16 * j);
        case _ =>
      }
      c := Channel(v, pitch, vibrato, tremolo, c0.slide, loop, c0.prevsample);
    }

    /** E6x. */
    method LoopEffect(loop0: Loop, j: int, ppos0: int, spos0: int) returns (loop: Loop, ppos1: int, spos1: int)
      requires 0 <= j < 16
      ensures var cell := Cell(0, 0, 14, 6, j);
        loop == EffectLoop(loop0, cell, ppos0)
        && Place(ppos1, spos1, 0) == EffectPlace(Place(ppos0, spos0, 0), loop0, cell)
    {
      loop, ppos1, spos1 := loop0, ppos0, spos0;
      if loop.flag == 0 && j == 0 {
        loop := loop.(start := ppos1, flag := 1);
        return;
      }
      if j != 0 {
        if loop.flag != 2 {
          loop := loop.(count := j);
        }
        loop := loop.(flag := 2);
        if loop.count <= 0 {
          loop := loop.(count := 0, flag := 0);
        } else {
          ppos1 := loop.start - 1;
          spos1 := spos1 - 1;
          loop := loop.(count := loop.count - 1);
        }
      }
    }

    /** The body of the loop over the channels in pt_donote. */
    method NoteCell(i: nat, ptd: Cell, ppos0: int, spos0: int) returns (ppos1: int, spos1: int)
      requires i < chan.Length && ptd.Valid()
      modifies chan, `speed, `ciaspeed, `vbllen, `skiptopos, `patdelay, `songloopcount
      ensures chan[..] == old(chan[..])[i := EffectChannel(StartChannel(old(chan[i]), ptd, cfg), ptd, ppos0, cfg)]
      ensures Place(ppos1, spos1, skiptopos) == EffectPlace(Place(ppos0, spos0, old(skiptopos)), old(chan[i]).loop, ptd)
      ensures Tempo(speed, ciaspeed, vbllen) == EffectTempo(Tempo(old(speed), old(ciaspeed), old(vbllen)), ptd)
      ensures patdelay == EffectDelay(old(patdelay), ptd)
      ensures songloopcount == old(songloopcount) + if cfg.doSongEnd && EndsSong(ptd) then 1 else 0
    {
      var c := StartCell(chan[i], ptd);
      if ptd.effect == 14 {
        c, ppos1, spos1 := ExtendedEffect(c, ptd, ppos0, spos0);
      } else {
        c := ChannelEffect(c, ptd);
        ppos1, spos1 := ModuleEffect(ptd, ppos0, spos0);
      }
      chan[i] := c;
    }

    /** The loop over the channels in pt_donote. */
    method PlayRow(row: Row) returns (p: int, s: int)
      requires Valid() && patdelay == 0
      modifies chan, `speed, `ciaspeed, `vbllen, `skiptopos, `patdelay, `songloopcount
      ensures Place(p, s, skiptopos) == RowPlace(Place(ppos, spos, 0), old(chan[..]), row, 4)
      ensures Tempo(speed, ciaspeed, vbllen) == RowTempo(Tempo(old(speed), old(ciaspeed), old(vbllen)), row, 4)
      ensures patdelay == RowDelay(0, row, 4)
      ensures songloopcount == old(songloopcount) + if cfg.doSongEnd then RowEnds(row, 4) else 0
      ensures forall i :: 0 <= i < 4 ==> chan[i] == RowChannel(Place(ppos, spos, 0), old(chan[..]), row, cfg, i)
    {
      skiptopos := 0;
      p, s := ppos, spos;
      var i := 0;
      ghost var start, before: Channels, tempo := Place(ppos, spos, 0), chan[..], Tempo(speed, ciaspeed, vbllen);
      while i < 4
        invariant 0 <= i <= 4
        invariant Place(p, s, skiptopos) == RowPlace(start, before, row, i)
        invariant Tempo(speed, ciaspeed, vbllen) == RowTempo(tempo, row, i)
        invariant patdelay == RowDelay(0, row, i)
        invariant songloopcount == old(songloopcount) + if cfg.doSongEnd then RowEnds(row, i) else 0
        invariant forall k :: 0 <= k < i ==> chan[k] == RowChannel(start, before, row, cfg, k)
        invariant forall k :: i <= k < 4 ==> chan[k] == before[k]
      {
        p, s := NoteCell(i, row[i], p, s);
        i := i + 1;
      }
    }

    /** Where pt_donote goes on. */
    method MoveOn(p0: int, s0: int)
      modifies `ppos, `spos, `songloopcount
      ensures var end := Place(p0, s0, skiptopos);
        && ppos == NextRow(end)
        && spos == (if Wraps(end) then NextSong(end, cfg.playSong, cfg.length) else old(spos))
        && songloopcount == old(songloopcount) + if Wraps(end) && PastEnd(end, cfg.playSong, cfg.length) then 1 else 0
    {
      var p, s, j := p0, s0, skiptopos;
      if j != 0 {
        p := j;
      } else {
        p := (p + 1) % 64;
      }
      if j != 0 || p == 0 {
        if cfg.playSong {
          s := s + 1;
        }
        if s >= cfg.length {
          s := 0;
          songloopcount := songloopcount + 1;
        }
        spos := s;
      }
      ppos := p;
    }

    /** pt_donote: a row, unless the pattern is delayed. */
    method DoNote(row: Row)
      requires Valid()
      modifies this, chan
      ensures View() == AfterRow(old(View()), row, cfg)
    {
      hide RowPlace, RowTempo, RowDelay, RowEnds, RowChannel, NextRow, Wraps, PastEnd, NextSong;
      if patdelay != 0 {
        patdelay := patdelay - 1;
      } else {
        ghost var after := AfterRow(View(), row, cfg);
        var p, s := PlayRow(row);
        MoveOn(p, s);
        assert chan[..] == after.channels;
      }
    }

    /** The height of a wave, as pt_dotick computes it. */
    method WaveAt(form: int, j: int) returns (k: int)
      ensures k == Height(form, j)
    {
      match form % 4 {
        case 2 =>
          k := 255;
          if j >= 32 {
            k := -k;
          }
        case 0 =>
          k := TabVib()[j % 32];
          if j >= 32 {
            k := -k;
          }
        case _ =>
          k := 8 * j;
          if j >= 32 {
            k := k - 512;
          }
      }
    }

    /** The changes of the period in a tick. */
    method SlidePitch(t0: Pitch, slide0: Slide, vibrato0: Wave) returns (t: Pitch, vibrato: Wave, slide: Slide)
      ensures t == TickPitch(t0, slide0, vibrato0, tick, cfg)
      ensures vibrato == TickVibrato(vibrato0, slide0) && slide == slide0.(skip := false)
    {
      hide Height;
      t, slide, vibrato := t0, slide0, vibrato0;
      if slide.skip {
        slide := slide.(skip := false);
        return;
      }
      var j := slide.dp;
      if j == 0 && !slide.tonePorta {
        var k := slide.arp;
        if k != 0 {
          j := tick % 3;
          k := if j == 0 then k / 256 % 16 else if j == 1 then k / 16 % 16 else k % 16;
          t := t.(played := cfg.period(t.base, t.tune, k));
        } else if vibrato.active != 0 {
          j := vibrato.index;
          vibrato := vibrato.(index := (vibrato.active + j) % 64);
          k := WaveAt(vibrato.form, j);
          j := vibrato.depth * k / 128;
          j := Within(j + t.per);
          t := t.(played := j, source := j);
        }
        return;
      }
      if j == 0 {
        j := t.target - t.source;
        if j == 0 {
          return;
        }
        var k := slide.dtp;
        if j < 0 {
          if -k > j {
            j := -k;
          }
        } else if k < j {
          j := k;
        }
      }
      j := Within(j + t.source);
      t := t.(per := j, source := j);
      if t.glissando != 0 {
        j := cfg.nearest(t.tune, j);
      }
      t := t.(played := j);
    }

    method Within(j0: int) returns (j: int)
      ensures j == Playable(j0)
    {
      j := j0;
      if j < PER_LOW {
        j := PER_LOW;
      }
      if j > PER_HI {
        j := PER_HI;
      }
    }

    /** One channel in pt_dotick, with the wave of the tremolo. */
    method TickOne(c0: Channel) returns (c: Channel)
      ensures c == TickChannel(c0, tick, cfg)
    {
      var v, tremolo := c0.volume, c0.tremolo;
      var pitch, vibrato, slide := SlidePitch(c0.pitch, c0.slide, c0.vibrato);
      var j := v.basevol;
      var k := v.dvol;
      if k != 0 {
        j := j + k;
        if j > 63 {
          j := 63;
        }
        if j < 0 {
          j := 0;
        }
        v := v.(basevol := j);
      }
      k := tremolo.active;
      if k != 0 {
        j := tremolo.index;
        k := k + j;
        tremolo := tremolo.(index := k % 64);
        k := WaveAt(tremolo.form, j);
        j := k * tremolo.depth / 256;
        j := j + v.basevol;
        if j > 63 {
          j := 63;
        }
        if j < 0 {
          j := 0;
        }
      }
      if v.cutoff != 0 {
        v := v.(cutoff := v.cutoff - 1);
        if v.cutoff == 0 {
          v := v.(basevol := 0);
          j := 0;
        }
      }
      v := v.(vol := j);
      c := Channel(v, pitch, vibrato, tremolo, slide, c0.loop, c0.prevsample);
    }

    /** The loop over the channels in pt_dotick. */
    method TickChannels()
      requires Valid()
      modifies chan
      ensures chan[..] == TickAll(old(chan[..]), tick, cfg)
    {
      ghost var before := chan[..];
      var i := 0;
      while i < 4
        invariant 0 <= i <= 4
        invariant forall k :: 0 <= k < i ==> chan[k] == TickChannel(before[k], tick, cfg)
        invariant forall k :: i <= k < 4 ==> chan[k] == before[k]
      {
        chan[i] := TickOne(chan[i]);
        i := i + 1;
      }
    }

    /** pt_dotick. */
    method DoTick(row: Row)
      requires Valid()
      modifies this, chan
      ensures View() == AfterTick(old(View()), row, cfg)
    {
      if tick == 0 {
        if !cfg.stopped {
          DoNote(row);
        }
        tick := speed;
      }
      tick := tick - 1;
      TickChannels();
    }

    /** The mono mix: the channel pointer stays behind when a channel comes to its end. */
    method MixMono(voices0: Voices) returns (sl: int)
      requires Valid()
      ensures sl == Heard(chan[..], voices0, 0, 0)
    {
      sl := 0;
      var voices, c, i := voices0, 0, 0;
      while i < 4
        invariant 0 <= c <= i <= 4
        invariant sl + Heard(chan[..], voices, c, i) == Heard(chan[..], voices0, 0, 0)
      {
        i := i + 1;
        if voices[c] == AtEnd {
          HeardLater(chan[..], voices, voices[c := Off], c + 1, i + 1);
          voices := voices[c := Off];
          continue;
        }
        if voices[c].Sounds? {
          sl := sl + chan[c].volume.vol * voices[c].dat;
        }
        c := c + 1;
      }
    }

    /** The clock of pt_render. */
    method Clock(row: Row)
      requires Valid()
      modifies this, chan
      ensures View() == AfterClock(old(View()), row, cfg)
    {
      hide AfterTick;
      var j := bpos - vbllen;
      if j >= 0 {
        bpos := j;
        DoTick(row);
      }
      bpos := bpos + 1;
    }

    /** One 16-bit mono sample of pt_render. */
    method RenderSample(row: Row, voices: Voices) returns (b0: int, b1: int)
      requires Valid()
      modifies this, chan
      ensures View() == AfterSample(old(View()), row, cfg)
      ensures (b0, b1) == Written(cfg.mastervolume, Clamped(MixOf(old(View()), row, voices, cfg)))
    {
      hide AfterClock, Heard;
      var sl, sr;
      if songloopcount != 0 && cfg.doSongEnd {
        sr, sl := 0, 0;
      } else {
        Clock(row);
        sl := MixMono(voices);
        if sl < -32768 {
          sl := -32768;
        }
        if sl > 32767 {
          sl := 32767;
        }
        sr := sl;
      }
      var val := cfg.mastervolume * (sr + sl) / 512 % 0x1_0000_0000;
      b0 := val % 256;
      b1 := val / 256 % 256;
    }

    /** pt_render for 16-bit mono, without oversampling, into a buffer of byte pairs, for any stream of rows and
        voices. */
    method Render(buf: array<int>, numsmp: nat, rowAt: nat -> Row, voicesAt: nat -> Voices)
      requires Valid() && 2 * numsmp <= buf.Length
      modifies this, chan, buf
      ensures View() == AfterSamples(old(View()), rowAt, cfg, numsmp)
      ensures forall n: nat :: n < numsmp ==>
        (buf[2 * n], buf[2 * n + 1]) == Written(cfg.mastervolume, Clamped(MixAt(old(View()), rowAt, voicesAt, cfg, n)))
    {
      hide AfterSample, MixOf, Written, Clamped;
      ghost var start := View();
      var n := 0;
      while n < numsmp
        invariant n <= numsmp && View() == AfterSamples(start, rowAt, cfg, n)
        invariant forall k: nat :: k < n ==>
          (buf[2 * k], buf[2 * k + 1]) == Written(cfg.mastervolume, Clamped(MixAt(start, rowAt, voicesAt, cfg, k)))
      {
        var b0, b1 := RenderSample(rowAt(n), voicesAt(n));
        buf[2 * n], buf[2 * n + 1] := b0, b1;
        n := n + 1;
      }
    }
  }
}
