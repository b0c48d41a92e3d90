/**
 The instructions of the 6502 by their bytes in memory, and programs of them that add and subtract numbers of any
 length.
 */
module SidPrograms {
  import opened Sid
  import opened SidProofs

  // ----- What is read -----

  /** The byte read at an address: reading the interrupt register clears it first. */
  function Seen(mem: seq<Byte>, ad: nat): Byte
    requires |mem| == MEMORY
  {
    if ad % MEMORY == 0xdd0d then 0 else mem[ad % MEMORY]
  }

  /** Memory that has only been read from. */
  ghost predicate OnlyRead(mem: seq<Byte>, mem': seq<Byte>) {
    && |mem| == |mem'| == MEMORY && (forall ad :: 0 <= ad < MEMORY && ad != 0xdd0d ==> mem'[ad] == mem[ad])
    && (mem'[0xdd0d] == mem[0xdd0d] || mem'[0xdd0d] == 0)
  }

  lemma SeenAgain(mem: seq<Byte>, mem': seq<Byte>, ad: nat)
    requires OnlyRead(mem, mem')
    ensures Seen(mem', ad) == Seen(mem, ad)
  {
  }

  lemma SeenModulo(mem: seq<Byte>, pc: nat, n: nat, i: nat)
    requires |mem| == MEMORY
    ensures Seen(mem, (pc + n) % MEMORY + i) == Seen(mem, pc + n + i)
  {
    assert ((pc + n) % MEMORY + i) % MEMORY == (pc + n + i) % MEMORY;
  }

  lemma FetchReads(st: State)
    requires IsState(st)
    ensures var (v, st') := Fetch(st);
      && v == Seen(st.mem, st.pc) && OnlyRead(st.mem, st'.mem) && Seen(st'.mem, st.pc + 1) == Seen(st.mem, st.pc + 1)
      && st' == st.(mem := st'.mem, pc := (st.pc + 1) % MEMORY)
  {
  }

  // ----- Flags, by the bits of the processor -----

  predicate Carry(p: Byte) { p % 2 == 1 }

  predicate Zero(p: Byte) { p / 2 % 2 == 1 }

  predicate Overflow(p: Byte) { p / 64 % 2 == 1 }

  predicate Negative(p: Byte) { p / 128 == 1 }

  /** The flags of an instruction whose result is a: the bits that say nothing of a result are as they were. */
  ghost predicate Tells(p: Byte, p': Byte, a: Byte) {
    (Zero(p') <==> a == 0) && (Negative(p') <==> a >= 128) && p' / 4 % 16 == p / 4 % 16
  }

  lemma SetCarry(p: Byte, cond: bool)
    ensures var q := SetFlag(p, FLAG_C, cond); (Carry(q) <==> cond) && q / 2 == p / 2
  {
  }

  lemma SetZero(p: Byte, cond: bool)
    ensures var q := SetFlag(p, FLAG_Z, cond); (Zero(q) <==> cond) && q % 2 == p % 2 && q / 4 == p / 4
  {
  }

  lemma SetOverflow(p: Byte, cond: bool)
    ensures var q := SetFlag(p, FLAG_V, cond); (Overflow(q) <==> cond) && q % 64 == p % 64 && q / 128 == p / 128
  {
  }

  lemma SetNegative(p: Byte, cond: bool)
    ensures var q := SetFlag(p, FLAG_N, cond); (Negative(q) <==> cond) && q % 128 == p % 128
  {
  }

  lemma Quotients(p: nat)
    ensures (p + 64) / 2 == p / 2 + 32 && (p + 64) / 4 == p / 4 + 16
    ensures (p + 128) / 2 == p / 2 + 64 && (p + 128) / 4 == p / 4 + 32 && (p + 128) / 64 == p / 64 + 2
  {
  }

  lemma Remainders(x: nat)
    ensures (x + 128) % 2 == (x + 64) % 2 == (x + 32) % 2 == (x + 2) % 2 == x % 2
    ensures (x + 32) % 16 == (x + 16) % 16 == x % 16
  {
  }

  lemma BitsAbove(p: nat, q: nat)
    requires q == p + 64
    ensures q % 2 == p % 2 && q / 2 % 2 == p / 2 % 2 && q / 4 % 16 == p / 4 % 16
  {
    Quotients(p);
    Remainders(p);
    Remainders(p / 2);
    Remainders(p / 4);
  }

  lemma HighestBit(p: nat, q: nat)
    requires q == p + 128
    ensures q % 2 == p % 2 && q / 2 % 2 == p / 2 % 2 && q / 4 % 16 == p / 4 % 16 && q / 64 % 2 == p / 64 % 2
  {
    Quotients(p);
    Remainders(p);
    Remainders(p / 2);
    Remainders(p / 4);
    Remainders(p / 64);
  }

  /** Two bytes that differ in the highest bit only. */
  lemma LowBits(p: Byte, q: Byte)
    requires q % 128 == p % 128
    ensures (Carry(q) <==> Carry(p)) && (Zero(q) <==> Zero(p)) && (Overflow(q) <==> Overflow(p))
    ensures q / 4 % 16 == p / 4 % 16
  {
    if p < q {
      HighestBit(p, q);
    } else if q < p {
      HighestBit(q, p);
    }
  }

  lemma SetZNTells(p: Byte, a: Byte)
    ensures Tells(p, SetZN(p, a), a)
    ensures (Carry(SetZN(p, a)) <==> Carry(p)) && (Overflow(SetZN(p, a)) <==> Overflow(p))
  {
    hide SetFlag, Negative, Zero;
    var q := SetFlag(p, FLAG_Z, a == 0);
    SetZero(p, a == 0);
    SetNegative(q, a >= 0x80);
    LowBits(q, SetZN(p, a));
  }

  // ----- The instructions -----

  function Bit(b: bool): nat { if b then 1 else 0 }

  /** An instruction of n bytes that changes no more than the accumulator and the flags. */
  ghost predicate Computes(st: State, st': State, n: nat) {
    && IsState(st) && IsState(st') && OnlyRead(st.mem, st'.mem)
    && st' == st.(mem := st'.mem, a := st'.a, p := st'.p, pc := (st.pc + n) % MEMORY)
  }

  lemma FetchTwice(st: State)
    requires IsState(st)
    ensures Fetch(st).0 == Seen(st.mem, st.pc) && Fetch(Fetch(st).1).0 == Seen(st.mem, st.pc + 1)
    ensures Computes(st, Fetch(Fetch(st).1).1, 2)
    ensures var st1 := Fetch(st).1; st1.a == st.a && st1.p == st.p
    ensures var st2 := Fetch(Fetch(st).1).1; st2.a == st.a && st2.p == st.p
  {
    hide Fetch;
    FetchReads(st);
    FetchReads(Fetch(st).1);
  }

  /** A9 v: v is loaded. */
  lemma LdaAt(st: State)
    requires IsState(st) && Seen(st.mem, st.pc) == 0xa9
    ensures CommandOf(Fetch(st).0) != Other
    ensures var st' := Parse(st);
      && Computes(st, st', 2) && st'.a == Seen(st.mem, st.pc + 1) && Tells(st.p, st'.p, st'.a)
      && (Carry(st'.p) <==> Carry(st.p)) && (Overflow(st'.p) <==> Overflow(st.p))
  {
    hide Fetch, SetZN, Seen, OnlyRead, Tells;
    FetchTwice(st);
    SetZNTells(st.p, Fetch(Fetch(st).1).0);
  }

  /** The sum of the accumulator, an operand and a carry, with the overflow flag as the code sets it. */
  ghost predicate Sums(a: Byte, v: Byte, p: Byte, a': Byte, p': Byte) {
    var sum := a + v + Bit(Carry(p));
    && a' == sum % 0x100 && (Carry(p') <==> sum >= 0x100) && Tells(p, p', a')
    && (Overflow(p') <==> Carry(p') != Negative(p'))
  }

  lemma SumFlags(p: Byte, carry: bool, a: Byte)
    ensures var q := SetZN(SetFlag(p, FLAG_C, carry), a);
      var p' := SetFlag(q, FLAG_V, Flag(q, FLAG_C) != Flag(q, FLAG_N));
      (Carry(p') <==> carry) && Tells(p, p', a) && (Overflow(p') <==> Carry(p') != Negative(p'))
  {
    hide SetFlag, SetZN;
    var q0 := SetFlag(p, FLAG_C, carry);
    var q := SetZN(q0, a);
    SetCarry(p, carry);
    assert q0 / 4 == p / 4;
    SetZNTells(q0, a);
    assert (Flag(q, FLAG_C) <==> Carry(q)) && (Flag(q, FLAG_N) <==> Negative(q));
    SetOverflow(q, Carry(q) != Negative(q));
    SixBits(q, SetFlag(q, FLAG_V, Carry(q) != Negative(q)));
  }

  /** Two bytes that differ in the overflow flag only. */
  lemma SixBits(p: Byte, q: Byte)
    requires q % 64 == p % 64 && q / 128 == p / 128
    ensures (Carry(q) <==> Carry(p)) && (Zero(q) <==> Zero(p)) && (Negative(q) <==> Negative(p))
    ensures q / 4 % 16 == p / 4 % 16
  {
    if p < q {
      assert q == p + 64;
      BitsAbove(p, q);
    } else if q < p {
      assert p == q + 64;
      BitsAbove(q, p);
    }
  }

  lemma AddSums(st: State, v: Byte)
    ensures Sums(st.a, v, st.p, Add(st, v).a, Add(st, v).p)
    ensures Add(st, v) == st.(a := Add(st, v).a, p := Add(st, v).p)
  {
    hide SetFlag, SetZN, Tells, Overflow, Negative;
    var wval := st.a + v + Bit(Carry(st.p));
    assert Flag(st.p, FLAG_C) <==> Carry(st.p);
    SumFlags(st.p, wval >= 0x100, wval % 0x100);
  }

  /** 69 v: the sum of the accumulator, v and the carry. */
  lemma AdcAt(st: State)
    requires IsState(st) && Seen(st.mem, st.pc) == 0x69
    ensures CommandOf(Fetch(st).0) != Other
    ensures Computes(st, Parse(st), 2) && Sums(st.a, Seen(st.mem, st.pc + 1), st.p, Parse(st).a, Parse(st).p)
  {
    hide Fetch, Add, Seen, OnlyRead, Sums;
    FetchTwice(st);
    AddSums(Fetch(Fetch(st).1).1, Fetch(Fetch(st).1).0);
  }

  /** E9 v: the accumulator less v and less what was borrowed, which is 1 when the carry is clear. */
  lemma SbcAt(st: State)
    requires IsState(st) && Seen(st.mem, st.pc) == 0xe9
    ensures CommandOf(Fetch(st).0) != Other
    ensures var st', difference := Parse(st), st.a - Seen(st.mem, st.pc + 1) - Bit(!Carry(st.p));
      && Computes(st, st', 2) && st'.a == difference % 0x100 && (Carry(st'.p) <==> difference >= 0)
      && Tells(st.p, st'.p, st'.a) && (Overflow(st'.p) <==> Carry(st'.p) != Negative(st'.p))
  {
    hide Fetch, Add, Seen, OnlyRead, Tells;
    FetchTwice(st);
    AddSums(Fetch(Fetch(st).1).1, 0xff - Fetch(Fetch(st).1).0);
  }

  function Signed(b: Byte): int { if b < 0x80 then b else b - 0x100 }

  /** The overflow flag says whether the sum of the bytes as signed numbers leaves their range exactly when the two
      have the same sign: of bytes with different signs it is always set. */
  lemma OverflowMeans(a: Byte, v: Byte, p: Byte, a': Byte, p': Byte)
    requires Sums(a, v, p, a', p')
    ensures var overflows := !(-0x80 <= Signed(a) + Signed(v) + Bit(Carry(p)) < 0x80);
      && ((Overflow(p') <==> overflows) <==> (a < 0x80 <==> v < 0x80))
      && (Overflow(p') <==> overflows || !(a < 0x80 <==> v < 0x80))
  {
  }

  /** 48 and 08: the accumulator or the flags are stacked. */
  lemma PushAt(st: State, opcode: Byte)
    requires IsState(st) && Seen(st.mem, st.pc) == opcode && (opcode == 0x48 || opcode == 0x08) && st.s > 0
    ensures CommandOf(Fetch(st).0) != Other
    ensures var st' := Parse(st);
      && Stack(st') == Stack(st) + [if opcode == 0x48 then st.a else st.p]
      && st' == st.(mem := st'.mem, s := st.s - 1, pc := (st.pc + 1) % MEMORY)
      && OnlyRead(st.mem, st'.mem[0x100 + st.s := st.mem[0x100 + st.s]])
  {
    hide Stack, Seen;
    FetchReads(st);
    FetchKeepsStack(st);
    PushStacks(Fetch(st).1, if opcode == 0x48 then st.a else st.p);
  }

  lemma SameStack(st: State, st': State)
    requires IsState(st) && IsState(st') && st'.s == st.s && st'.mem == st.mem
    ensures Stack(st') == Stack(st)
  {
  }

  /** 68 and 28: the accumulator, with the flags that tell about it, or the flags are unstacked. */
  lemma PullAt(st: State, opcode: Byte)
    requires IsState(st) && Seen(st.mem, st.pc) == opcode && (opcode == 0x68 || opcode == 0x28) && st.s < 0xff
    ensures CommandOf(Fetch(st).0) != Other
    ensures var st' := Parse(st);
      && Stack(st) == Stack(st') + [if opcode == 0x68 then st'.a else st'.p] && OnlyRead(st.mem, st'.mem)
      && st' == st.(mem := st'.mem, s := st.s + 1, a := st'.a, p := st'.p, pc := (st.pc + 1) % MEMORY)
      && if opcode == 0x68 then
           Tells(st.p, st'.p, st'.a) && (Carry(st'.p) <==> Carry(st.p)) && (Overflow(st'.p) <==> Overflow(st.p))
         else st'.a == st.a
  {
    hide Stack, Seen, SetZN, Tells;
    FetchReads(st);
    FetchKeepsStack(st);
    PopUnstacks(Fetch(st).1);
    SameStack(Pop(Fetch(st).1).1, Parse(st));
    SetZNTells(st.p, Pop(Fetch(st).1).0);
  }

  /** 20 low high: the address of its last byte plus one is stacked, and the program goes on at 256 * high + low; the
      two bytes are read after that, so they must not be where it is stacked. */
  lemma JsrAt(st: State)
    requires IsState(st) && Seen(st.mem, st.pc) == 0x20 && st.s >= 2
    requires !(0x100 <= (st.pc + 1) % MEMORY < 0x200) && !(0x100 <= (st.pc + 2) % MEMORY < 0x200)
    ensures CommandOf(Fetch(st).0) != Other
    ensures var st', back := Parse(st), (st.pc + 3) % MEMORY;
      && Stack(st') == Stack(st) + [back % 0x100, back / 0x100]
      && st'.pc == 0x100 * Seen(st.mem, st.pc + 2) + Seen(st.mem, st.pc + 1)
      && st' == st.(mem := st'.mem, s := st.s - 2, pc := st'.pc)
  {
    hide Stack, Push, Seen, OnlyRead, Fetch, Parse, CommandOf;
    FetchReads(st);
    JsrDoes(st);
    JsrStacks(st);
    NextPlaces(st.pc);
    var st0 := Fetch(st).1;
    var low, high := (st0.pc + 2) % 0x100, (st0.pc + 2) / 0x100 % 0x100;
    PushTwiceSeen(st0, low, high);
    JumpReads(Push(Push(st0, low), high));
    NextSeen(st.mem, st0.mem, st.pc);
  }

  lemma JsrDoes(st: State)
    requires IsState(st) && Fetch(st).0 == 0x20
    ensures CommandOf(Fetch(st).0) == Jsr && Parse(st) == DoJsr(Fetch(st).1)
  {
    hide Fetch, DoJsr;
  }

  lemma NextPlaces(pc: Word)
    ensures ((pc + 1) % MEMORY + 1) % MEMORY == (pc + 2) % MEMORY
  {
  }

  lemma NextSeen(mem: seq<Byte>, mem': seq<Byte>, pc: Word)
    requires OnlyRead(mem, mem')
    ensures Seen(mem', (pc + 1) % MEMORY) == Seen(mem, pc + 1) && Seen(mem', (pc + 1) % MEMORY + 1) == Seen(mem, pc + 2)
  {
    hide Seen;
    SeenModulo(mem', pc, 1, 0);
    SeenModulo(mem', pc, 1, 1);
    SeenAgain(mem, mem', pc + 1);
    SeenAgain(mem, mem', pc + 2);
  }

  lemma JumpReads(st: State)
    requires IsState(st)
    ensures var (low, st1) := Fetch(st); var (high, st2) := Fetch(st1);
      && low == Seen(st.mem, st.pc) && high == Seen(st.mem, st.pc + 1)
      && st2 == st.(mem := st2.mem, pc := (st.pc + 2) % MEMORY)
  {
    hide Fetch, Seen, OnlyRead;
    FetchTwice(st);
  }

  lemma PushSeen(st: State, v: Byte, ad: nat)
    requires IsState(st) && st.s > 0 && !(0x100 <= ad % MEMORY < 0x200)
    ensures var st' := Push(st, v); Seen(st'.mem, ad) == Seen(st.mem, ad) && st' == st.(mem := st'.mem, s := st.s - 1)
  {
  }

  /** Two bytes are read as before when two others have been stacked elsewhere. */
  lemma PushTwiceSeen(st: State, v: Byte, w: Byte)
    requires IsState(st) && st.s >= 2
    requires !(0x100 <= st.pc < 0x200) && !(0x100 <= (st.pc + 1) % MEMORY < 0x200)
    ensures var st' := Push(Push(st, v), w);
      && Seen(st'.mem, st.pc) == Seen(st.mem, st.pc) && Seen(st'.mem, st.pc + 1) == Seen(st.mem, st.pc + 1)
      && st' == st.(mem := st'.mem, s := st.s - 2)
  {
    hide Push, Seen;
    assert st.pc % MEMORY == st.pc;
    PushSeen(st, v, st.pc);
    PushSeen(st, v, st.pc + 1);
    PushSeen(Push(st, v), w, st.pc);
    PushSeen(Push(st, v), w, st.pc + 1);
  }

  /** 60: the program goes on at the address unstacked. */
  lemma RtsAt(st: State, below: seq<Byte>, back: Word)
    requires IsState(st) && Seen(st.mem, st.pc) == 0x60 && Stack(st) == below + [back % 0x100, back / 0x100]
    ensures CommandOf(Fetch(st).0) != Other
    ensures var st' := Parse(st);
      Stack(st') == below && st' == st.(mem := st'.mem, s := st.s + 2, pc := back) && OnlyRead(st.mem, st'.mem)
  {
    hide Stack, Seen;
    FetchReads(st);
    RtsReturns(st, below, back);
  }

  // ----- Numbers of any length -----

  /** The number whose bytes, lowest first, are these. */
  function Number(bytes: seq<Byte>): nat {
    if bytes == [] then 0 else bytes[0] + 0x100 * Number(bytes[1..])
  }

  function Radix(n: nat): nat {
    if n == 0 then 1 else 0x100 * Radix(n - 1)
  }

  lemma NoBytes()
    ensures Number([]) == 0 && Radix(0) == 1
  {
  }

  lemma FirstByte(first: Byte, rest: seq<Byte>)
    ensures Number([first] + rest) == first + 0x100 * Number(rest)
    ensures Radix(1 + |rest|) == 0x100 * Radix(|rest|)
  {
    assert ([first] + rest)[1..] == rest;
  }

  lemma {:induction false} NumberFits(bytes: seq<Byte>)
    ensures Number(bytes) < Radix(|bytes|)
  {
    if bytes != [] {
      NumberFits(bytes[1..]);
    }
  }

  /** For each byte of a in turn: load it, and add or subtract the byte of b at the same place. */
  function Program(opcode: Byte, a: seq<Byte>, b: seq<Byte>): (program: seq<Byte>)
    requires |a| == |b|
    ensures |program| == 4 * |a|
    decreases |a|
  {
    if a == [] then [] else [0xa9, a[0], opcode, b[0]] + Program(opcode, a[1..], b[1..])
  }

  /** The bytes of a program are at the program counter. */
  ghost predicate Placed(st: State, program: seq<Byte>)
    requires IsState(st)
  {
    forall i :: 0 <= i < |program| ==> Seen(st.mem, st.pc + i) == program[i]
  }

  /** One turn of cpuParse. */
  function Turn(st: State): (st': State)
    requires IsState(st)
    ensures IsState(st')
  {
    if CommandOf(Fetch(st).0) == Other then Fetch(st).1 else Parse(st)
  }

  /** Two turns for each of n bytes: what the accumulator holds after each two, and the state in the end. */
  function Execute(st: State, n: nat): (r: (seq<Byte>, State))
    requires IsState(st)
    ensures |r.0| == n
    decreases n
  {
    hide Turn;
    if n == 0 then ([], st)
    else
      var st' := Turn(Turn(st));
      var (bytes, end) := Execute(st', n - 1);
      ([st'.a] + bytes, end)
  }

  lemma PlacedRest(st: State, first: seq<Byte>, rest: seq<Byte>, st': State)
    requires IsState(st) && Placed(st, first + rest) && Computes(st, st', |first|)
    ensures Placed(st', rest)
  {
    hide Seen, OnlyRead;
    forall i | 0 <= i < |rest| ensures Seen(st'.mem, st'.pc + i) == rest[i] {
      assert (first + rest)[|first| + i] == rest[i];
      SeenModulo(st.mem, st.pc, |first|, i);
      SeenAgain(st.mem, st'.mem, st'.pc + i);
    }
  }

  /** The first instruction for a byte loads it. */
  lemma LoadByte(st: State, x: Byte, rest: seq<Byte>)
    requires IsState(st) && Placed(st, [0xa9, x] + rest)
    ensures Computes(st, Turn(st), 2) && Placed(Turn(st), rest)
    ensures Turn(st).a == x && (Carry(Turn(st).p) <==> Carry(st.p))
  {
    hide Seen, OnlyRead, Parse, Fetch, Tells;
    var bytes := [0xa9, x] + rest;
    assert bytes[0] == 0xa9 && bytes[1] == x;
    LdaAt(st);
    PlacedRest(st, [0xa9, x], rest, Turn(st));
  }

  /** The second one adds to it, or subtracts from it. */
  lemma AddByte(st: State, opcode: Byte, y: Byte, rest: seq<Byte>)
    requires IsState(st) && Placed(st, [opcode, y] + rest) && (opcode == 0x69 || opcode == 0xe9)
    ensures Computes(st, Turn(st), 2) && Placed(Turn(st), rest)
    ensures var st', v := Turn(st), if opcode == 0x69 then y else 0xff - y;
            st'.a + 0x100 * Bit(Carry(st'.p)) == st.a + v + Bit(Carry(st.p))
  {
    hide Seen, OnlyRead, Parse, Fetch, Tells;
    var bytes := [opcode, y] + rest;
    assert bytes[0] == opcode && bytes[1] == y;
    if opcode == 0x69 {
      AdcAt(st);
    } else {
      SbcAt(st);
    }
    PlacedRest(st, [opcode, y], rest, Turn(st));
  }

  lemma OneByte(st: State, x: Byte, opcode: Byte, y: Byte, rest: seq<Byte>)
    requires IsState(st) && Placed(st, [0xa9, x, opcode, y] + rest) && (opcode == 0x69 || opcode == 0xe9)
    ensures var st' := Turn(Turn(st)); Placed(st', rest) && st'.pc == (st.pc + 4) % MEMORY
    ensures var st', v := Turn(Turn(st)), if opcode == 0x69 then y else 0xff - y;
            st'.a + 0x100 * Bit(Carry(st'.p)) == x + v + Bit(Carry(st.p))
  {
    hide Placed, OnlyRead, Turn, Carry;
    assert [0xa9, x, opcode, y] + rest == [0xa9, x] + ([opcode, y] + rest);
    LoadByte(st, x, [opcode, y] + rest);
    AddByte(Turn(st), opcode, y, rest);
  }

  function Complement(b: seq<Byte>): (c: seq<Byte>)
    ensures |c| == |b|
  {
    if b == [] then [] else [0xff - b[0]] + Complement(b[1..])
  }

  lemma {:induction false} ComplementNumber(b: seq<Byte>)
    ensures Number(Complement(b)) + Number(b) + 1 == Radix(|b|)
  {
    if b != [] {
      ComplementNumber(b[1..]);
      assert Complement(b)[1..] == Complement(b[1..]);
    }
  }

  /** Either program adds; that of SBC adds the second number with all its bits flipped. */
  lemma {:induction false} ProgramAdds(st: State, opcode: Byte, a: seq<Byte>, b: seq<Byte>)
    requires IsState(st) && |a| == |b| && (opcode == 0x69 || opcode == 0xe9) && Placed(st, Program(opcode, a, b))
    ensures var (bytes, end) := Execute(st, |a|);
      && end.pc == (st.pc + 4 * |a|) % MEMORY
      && Number(bytes) + (if Carry(end.p) then Radix(|a|) else 0)
         == Number(a) + Number(if opcode == 0x69 then b else Complement(b)) + Bit(Carry(st.p))
    decreases |a|
  {
    hide Placed, Turn, Number, Radix, Carry, Seen, OnlyRead;
    if a == [] {
      NoBytes();
    } else {
      OneByte(st, a[0], opcode, b[0], Program(opcode, a[1..], b[1..]));
      var st' := Turn(Turn(st));
      ProgramAdds(st', opcode, a[1..], b[1..]);
      var (bytes, end) := Execute(st', |a| - 1);
      ProgramSum(a, b, opcode, st'.a, bytes, Carry(st.p), Carry(st'.p), Carry(end.p));
    }
  }

  /** The first byte and the others make up the sum. */
  lemma ProgramSum(a: seq<Byte>, b: seq<Byte>, opcode: Byte, first: Byte, bytes: seq<Byte>, c0: bool, c1: bool,
                   c2: bool)
    requires |a| == |b| == 1 + |bytes| && (opcode == 0x69 || opcode == 0xe9)
    requires first + 0x100 * Bit(c1) == a[0] + (if opcode == 0x69 then b[0] else 0xff - b[0]) + Bit(c0)
    requires Number(bytes) + (if c2 then Radix(|bytes|) else 0)
          == Number(a[1..]) + Number(if opcode == 0x69 then b[1..] else Complement(b[1..])) + Bit(c1)
    ensures Number([first] + bytes) + (if c2 then Radix(|a|) else 0)
         == Number(a) + Number(if opcode == 0x69 then b else Complement(b)) + Bit(c0)
  {
    hide Number, Radix;
    FirstByte(first, bytes);
    FirstByte(a[0], a[1..]);
    FirstByte(b[0], b[1..]);
    FirstByte(0xff - b[0], Complement(b[1..]));
    assert [a[0]] + a[1..] == a && [b[0]] + b[1..] == b;
  }

  /** A program of LDA and ADC adds numbers of any length; the carry in the end is the next digit. */
  lemma AddProgramAdds(st: State, a: seq<Byte>, b: seq<Byte>)
    requires IsState(st) && |a| == |b| && Placed(st, Program(0x69, a, b))
    ensures var (bytes, end), sum := Execute(st, |a|), Number(a) + Number(b) + Bit(Carry(st.p));
      && Number(bytes) == sum - (if Carry(end.p) then Radix(|a|) else 0)
      && (Carry(end.p) <==> sum >= Radix(|a|)) && end.pc == (st.pc + 4 * |a|) % MEMORY
  {
    hide Placed, Program, Execute, Number, Radix, Carry;
    ProgramAdds(st, 0x69, a, b);
    NumberFits(Execute(st, |a|).0);
  }

  /** A program of LDA and SBC subtracts numbers of any length; the carry in the end says that nothing is missing. */
  lemma SubtractProgramSubtracts(st: State, a: seq<Byte>, b: seq<Byte>)
    requires IsState(st) && |a| == |b| && Placed(st, Program(0xe9, a, b))
    ensures var (bytes, end), difference := Execute(st, |a|), Number(a) - Number(b) - Bit(!Carry(st.p));
      && Number(bytes) == difference + (if Carry(end.p) then 0 else Radix(|a|))
      && (Carry(end.p) <==> difference >= 0) && end.pc == (st.pc + 4 * |a|) % MEMORY
  {
    hide Placed, Program, Execute, Number, Radix, Carry, Complement;
    ProgramAdds(st, 0xe9, a, b);
    ComplementNumber(b);
    NumberFits(Execute(st, |a|).0);
  }
}
