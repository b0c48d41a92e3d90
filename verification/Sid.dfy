/**
 The stack and the adder of the 6502 in libraries/SIDPlayer/tinysid.cpp: push and pop, the cases of cpuParse for JSR,
 RTS, PHA, PLA, PHP, PLP, and for LDA, ADC and SBC of the byte at the program counter, and the loop of cpuJSR.

 `State` is a snapshot of the emulator's global variables; its functions say what each case does to them, and the
 methods of class Cpu update the variables.
 */
module Sid {

  type Byte = b: nat | b < 0x100
  type Word = w: nat | w < 0x1_0000

  const MEMORY: nat := 0x1_0000
  const PAGE1: nat := 0x100
  const FLAG_N: nat := 128
  const FLAG_V: nat := 64
  const FLAG_Z: nat := 2
  const FLAG_C: nat := 1

  datatype State = State(mem: seq<Byte>, a: Byte, x: Byte, y: Byte, p: Byte, s: Byte, pc: Word)

  ghost predicate IsState(st: State) { |st.mem| == MEMORY }

  // ----- Flags -----

  predicate Flag(p: Byte, flag: nat)
    requires flag > 0
  {
    p / flag % 2 == 1
  }

  /** setflags; `flag` is one of the powers of two above. */
  function SetFlag(p: Byte, flag: nat, cond: bool): Byte
    requires flag == FLAG_N || flag == FLAG_V || flag == FLAG_Z || flag == FLAG_C
  {
    if cond && !Flag(p, flag) then p + flag else if !cond && Flag(p, flag) then p - flag else p
  }

  lemma CarrySet(p: Byte, cond: bool)
    ensures Flag(SetFlag(p, FLAG_C, cond), FLAG_C) == cond
  {
  }

  lemma CarryKept(p: Byte, flag: nat, cond: bool)
    requires flag == FLAG_N || flag == FLAG_V || flag == FLAG_Z
    ensures Flag(SetFlag(p, flag, cond), FLAG_C) == Flag(p, FLAG_C)
  {
  }

  function SetZN(p: Byte, a: Byte): Byte {
    SetFlag(SetFlag(p, FLAG_Z, a == 0), FLAG_N, a >= 0x80)
  }

  // ----- Memory and stack -----

  function WordOf(high: nat, low: nat): nat { 256 * high + low }

  /** getmem; reading the interrupt register clears it. */
  function GetMem(st: State, ad: Word): (r: (Byte, State))
    requires IsState(st)
    ensures IsState(r.1)
  {
    var m := if ad == 0xdd0d then st.mem[ad := 0] else st.mem;
    (m[ad], st.(mem := m))
  }

  /** getmem(pc++). */
  function Fetch(st: State): (r: (Byte, State))
    requires IsState(st)
    ensures IsState(r.1)
  {
    var (v, st1) := GetMem(st, st.pc);
    (v, st1.(pc := (st.pc + 1) % MEMORY))
  }

  function Push(st: State, v: Byte): (r: State)
    requires IsState(st)
    ensures IsState(r)
  {
    st.(mem := st.mem[PAGE1 + st.s := v], s := if st.s > 0 then st.s - 1 else st.s)
  }

  function Pop(st: State): (r: (Byte, State))
    requires IsState(st)
    ensures IsState(r.1)
  {
    var s := if st.s < 0xff then st.s + 1 else st.s;
    (st.mem[PAGE1 + s], st.(s := s))
  }

  // ----- Commands; the opcode has been fetched -----

  datatype Command = Jsr | Rts | Pha | Pla | Php | Plp | Lda | Adc | Sbc | Other

  function CommandOf(opcode: Byte): Command {
    match opcode
    case 0x20 => Jsr
    case 0x60 => Rts
    case 0x48 => Pha
    case 0x68 => Pla
    case 0x08 => Php
    case 0x28 => Plp
    case 0xa9 => Lda
    case 0x69 => Adc
    case 0xe9 => Sbc
    case _ => Other
  }

  function DoJsr(st: State): (r: State)
    requires IsState(st)
    ensures IsState(r)
  {
    var back := st.pc + 2;
    var st1 := Push(Push(st, back % 0x100), back / 0x100 % 0x100);
    var (low, st2) := Fetch(st1);
    var (high, st3) := Fetch(st2);
    st3.(pc := WordOf(high, low))
  }

  function DoRts(st: State): (r: State)
    requires IsState(st)
    ensures IsState(r)
  {
    var (high, st1) := Pop(st);
    var (low, st2) := Pop(st1);
    st2.(pc := WordOf(high, low))
  }

  function DoPla(st: State): (r: State)
    requires IsState(st)
    ensures IsState(r)
  {
    var (v, st1) := Pop(st);
    st1.(a := v, p := SetZN(st.p, v))
  }

  function DoPlp(st: State): (r: State)
    requires IsState(st)
    ensures IsState(r)
  {
    var (v, st1) := Pop(st);
    st1.(p := v)
  }

  function DoLda(st: State): (r: State)
    requires IsState(st)
    ensures IsState(r)
  {
    var (v, st1) := Fetch(st);
    st1.(a := v, p := SetZN(st.p, v))
  }

  /** The sum of two bytes and a carry: what it leaves in a and in the flags. */
  function Add(st: State, v: Byte): State {
    var wval := st.a + v + if Flag(st.p, FLAG_C) then 1 else 0;
    var a := wval % 0x100;
    var p := SetZN(SetFlag(st.p, FLAG_C, wval >= 0x100), a);
    st.(a := a, p := SetFlag(p, FLAG_V, Flag(p, FLAG_C) != Flag(p, FLAG_N)))
  }

  function DoAdc(st: State): (r: State)
    requires IsState(st)
    ensures IsState(r)
  {
    var (v, st1) := Fetch(st);
    Add(st1, v)
  }

  function DoSbc(st: State): (r: State)
    requires IsState(st)
    ensures IsState(r)
  {
    var (v, st1) := Fetch(st);
    Add(st1, 0xff - v)
  }

  /** The case of a command. */
  function Do(command: Command, st: State): (r: State)
    requires IsState(st) && command != Other
    ensures IsState(r)
  {
    match command
    case Jsr => DoJsr(st)
    case Rts => DoRts(st)
    case Pha => Push(st, st.a)
    case Pla => DoPla(st)
    case Php => Push(st, st.p)
    case Plp => DoPlp(st)
    case Lda => DoLda(st)
    case Adc => DoAdc(st)
    case Sbc => DoSbc(st)
  }

  /** cpuParse, for the commands above. */
  function Parse(st: State): (r: State)
    requires IsState(st) && CommandOf(Fetch(st).0) != Other
    ensures IsState(r)
  {
    var (opcode, st1) := Fetch(st);
    Do(CommandOf(opcode), st1)
  }

  // ----- The loop of cpuJSR -----

  /** Where the loop starts: an empty stack with two zeros pushed on it. */
  function Started(mem: seq<Byte>, npc: Word, na: Byte): (st: State)
    requires |mem| == MEMORY
    ensures IsState(st)
  {
    Push(Push(State(mem, na, 0, 0, 0, 0xff, npc), 0), 0)
  }

  /** How the loop stands after some turns; at a command that is not part of this model it is not followed further. */
  datatype Loop = Ended | Running | Unknown

  /** The loop, observed for so many turns. */
  function RunLoop(st: State, turns: nat): (r: (State, Loop))
    requires IsState(st)
    ensures IsState(r.0)
    decreases turns
  {
    if st.pc == 0 then (st, Ended)
    else if turns == 0 then (st, Running)
    else if CommandOf(Fetch(st).0) == Other then (Fetch(st).1, Unknown)
    else RunLoop(Parse(st), turns - 1)
  }

  // ----- The emulator's variables -----

  class Cpu {
    const memory: array<Byte>
    var a: Byte
    var x: Byte
    var y: Byte
    var p: Byte
    var s: Byte
    var pc: Word

    ghost predicate Valid() { memory.Length == MEMORY }

    ghost function View(): (st: State)
      requires Valid()
      reads this, memory
      ensures IsState(st)
    {
      State(memory[..], a, x, y, p, s, pc)
    }

    constructor ()
      ensures Valid() && fresh(memory)
    {
      memory := new Byte[MEMORY];
      a, x, y, p, s, pc := 0, 0, 0, 0, 0, 0;
    }

    method GetMemory(ad: Word) returns (v: Byte)
      requires Valid()
      modifies memory
      ensures (v, View()) == GetMem(old(View()), ad)
    {
      ghost var was := memory[..];
      if ad == 0xdd0d {
        memory[ad] := 0;
        assert memory[..] == was[ad := 0];
      }
      v := memory[ad];
    }

    method FetchByte() returns (v: Byte)
      requires Valid()
      modifies memory, this`pc
      ensures (v, View()) == Fetch(old(View()))
    {
      v := GetMemory(pc);
      pc := (pc + 1) % MEMORY;
    }

    method PushByte(v: Byte)
      requires Valid()
      modifies memory, this`s
      ensures View() == Push(old(View()), v)
    {
      ghost var was := memory[..];
      memory[PAGE1 + s] := v;
      assert memory[..] == was[PAGE1 + s := v];
      if s > 0 {
        s := s - 1;
      }
    }

    method PopByte() returns (v: Byte)
      requires Valid()
      modifies this`s
      ensures (v, View()) == Pop(old(View()))
    {
      if s < 0xff {
        s := s + 1;
      }
      v := memory[PAGE1 + s];
    }

    /** The sum of a, an operand and the carry. */
    method AddByte(v: Byte)
      requires Valid()
      modifies this`a, this`p
      ensures View() == Add(old(View()), v)
    {
      hide SetFlag, Flag;
      var carry := if Flag(p, FLAG_C) then 1 else 0;
      var wval := a + v + carry;
      p := SetFlag(p, FLAG_C, wval / 0x100 % 2 != 0);
      a := wval % 0x100;
      p := SetFlag(p, FLAG_Z, a == 0);
      p := SetFlag(p, FLAG_N, a / 0x80 % 2 != 0);
      p := SetFlag(p, FLAG_V, Flag(p, FLAG_C) != Flag(p, FLAG_N));
    }

    method JumpToSubroutine()
      requires Valid()
      modifies this, memory
      ensures View() == DoJsr(old(View()))
    {
      PushByte((pc + 2) % 0x100);
      PushByte((pc + 2) / 0x100 % 0x100);
      var low := FetchByte();
      var high := FetchByte();
      pc := WordOf(high, low);
    }

    method ReturnFromSubroutine()
      requires Valid()
      modifies this, memory
      ensures View() == DoRts(old(View()))
    {
      var high := PopByte();
      var low := PopByte();
      pc := WordOf(high, low);
    }

    /** cpuParse. A command that is not part of this model is left alone. */
    method CpuParse() returns (known: bool)
      requires Valid()
      modifies this, memory
      ensures known == (CommandOf(Fetch(old(View())).0) != Other)
      ensures View() == if known then Parse(old(View())) else Fetch(old(View())).1
    {
      hide SetFlag, Add, Push, Pop, Fetch, DoJsr, DoRts;
      var opc := FetchByte();
      var cmd := CommandOf(opc);
      known := cmd != Other;
      match cmd {
        case Jsr => JumpToSubroutine();
        case Rts => ReturnFromSubroutine();
        case Pha => PushByte(a);
        case Pla =>
          a := PopByte();
          p := SetFlag(p, FLAG_Z, a == 0);
          p := SetFlag(p, FLAG_N, a >= 0x80);
        case Php => PushByte(p);
        case Plp => p := PopByte();
        case Lda =>
          a := FetchByte();
          p := SetFlag(p, FLAG_Z, a == 0);
          p := SetFlag(p, FLAG_N, a >= 0x80);
        case Adc =>
          var bval := FetchByte();
          AddByte(bval);
        case Sbc =>
          var bval := FetchByte();
          AddByte(0xff - bval);
        case Other =>
      }
    }

    /** cpuJSR, observed for so many turns of its loop. */
    method CpuJsr(npc: Word, na: Byte, turns: nat) returns (loop: Loop)
      requires Valid()
      modifies this, memory
      ensures (View(), loop) == RunLoop(Started(old(memory[..]), npc, na), turns)
    {
      hide Parse, Fetch, Push;
      a, x, y, p, s, pc := na, 0, 0, 0, 0xff, npc;
      PushByte(0);
      PushByte(0);
      ghost var start := View();
      var left := turns;
      while pc != 0
        invariant RunLoop(View(), left) == RunLoop(start, turns)
        decreases left
      {
        if left == 0 {
          return Running;
        }
        var known := CpuParse();
        if !known {
          return Unknown;
        }
        left := left - 1;
      }
      loop := Ended;
    }
  }
}
