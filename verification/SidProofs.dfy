/**
 The 6502 stack as a stack, and the loop of cpuJSR.
 */
module SidProofs {
  import opened Arithmetic
  import opened Sid

  // ----- The stack -----

  /** The bytes stacked, the one on top last. */
  function Stack(st: State): (stack: seq<Byte>)
    requires IsState(st)
    ensures |stack| == 0xff - st.s
  {
    seq(0xff - st.s, i requires 0 <= i < 0xff - st.s => st.mem[0x1ff - i])
  }

  /** A push stacks its byte exactly when the stack is not full; the 256th byte is lost. */
  lemma PushStacks(st: State, v: Byte)
    requires IsState(st)
    ensures Stack(Push(st, v)) == Stack(st) + [v] <==> st.s > 0
    ensures st.s == 0 ==> Stack(Push(st, v)) == Stack(st)
  {
    var st' := Push(st, v);
    if st.s > 0 {
      assert Stack(st') == Stack(st) + [v];
    } else {
      assert Stack(st') == Stack(st);
    }
  }

  lemma PopUnstacks(st: State)
    requires IsState(st) && st.s < 0xff
    ensures Stack(st) == Stack(Pop(st).1) + [Pop(st).0]
  {
  }

  lemma FetchKeepsStack(st: State)
    requires IsState(st)
    ensures Stack(Fetch(st).1) == Stack(st)
  {
  }

  // ----- Runs -----

  /** An instruction that neither moves the stack pointer nor writes to the bytes stacked. */
  ghost predicate Quiet(st: State, st': State) {
    IsState(st) && IsState(st') && st'.s == st.s && Stack(st') == Stack(st)
  }

  /** One turn of cpuParse; `Other` stands for any other instruction that leaves the stack alone. */
  ghost predicate Step(st: State, command: Command, st': State) {
    if command == Other then Quiet(st, st')
    else IsState(st) && CommandOf(Fetch(st).0) == command && st' == Parse(st)
  }

  ghost predicate IsRun(states: seq<State>, commands: seq<Command>) {
    && |states| == |commands| + 1
    && (forall i :: 0 <= i < |states| ==> IsState(states[i]))
    && (forall i :: 0 <= i < |commands| ==> Step(states[i], commands[i], states[i + 1]))
  }

  /** Balanced nesting: what is stacked is unstacked again, by the matching instruction. */
  datatype Item = Plain(command: Command) | Call(body: seq<Item>) | KeepA(body: seq<Item>) | KeepP(body: seq<Item>)

  ghost predicate Legal(items: seq<Item>)
    decreases items
  {
    forall i :: 0 <= i < |items| ==>
      match items[i]
      case Plain(command) => command == Other || command == Lda || command == Adc || command == Sbc
      case Call(body) => Legal(body)
      case KeepA(body) => Legal(body)
      case KeepP(body) => Legal(body)
  }

  function ItemCommands(item: Item): seq<Command>
    decreases item, 0
  {
    match item
    case Plain(command) => [command]
    case Call(body) => [Jsr] + Commands(body) + [Rts]
    case KeepA(body) => [Pha] + Commands(body) + [Pla]
    case KeepP(body) => [Php] + Commands(body) + [Plp]
  }

  function Commands(items: seq<Item>): seq<Command>
    decreases items, 1
  {
    if items == [] then [] else ItemCommands(items[0]) + Commands(items[1..])
  }

  /** The greatest number of bytes stacked at a time. */
  function ItemDepth(item: Item): nat
    decreases item, 0
  {
    match item
    case Plain(_) => 0
    case Call(body) => 2 + Depth(body)
    case KeepA(body) => 1 + Depth(body)
    case KeepP(body) => 1 + Depth(body)
  }

  function Depth(items: seq<Item>): nat
    decreases items, 1
  {
    if items == [] then 0 else Max(ItemDepth(items[0]), Depth(items[1..]))
  }

  lemma RunSplits(states: seq<State>, a: seq<Command>, b: seq<Command>)
    requires IsRun(states, a + b)
    ensures IsRun(states[..|a| + 1], a) && IsRun(states[|a|..], b)
  {
    assert forall i :: 0 <= i < |a| ==> (a + b)[i] == a[i];
    assert forall i :: 0 <= i < |b| ==> (a + b)[|a| + i] == b[i];
  }

  lemma PlainIsQuiet(st: State, command: Command, st': State)
    requires Step(st, command, st') && (command == Other || command == Lda || command == Adc || command == Sbc)
    ensures Quiet(st, st')
  {
    if command != Other {
      FetchKeepsStack(st);
      FetchKeepsStack(Fetch(st).1);
    }
  }

  /** Any balanced run leaves the stack as it was, if there is room for the bytes it stacks. */
  lemma {:induction false} BalancedRun(items: seq<Item>, states: seq<State>)
    requires Legal(items) && IsRun(states, Commands(items)) && states[0].s >= Depth(items)
    ensures Quiet(states[0], states[|states| - 1])
    decreases items, 1
  {
    if items != [] {
      var head := ItemCommands(items[0]);
      RunSplits(states, head, Commands(items[1..]));
      var first, rest := states[..|head| + 1], states[|head|..];
      BalancedItem(items[0], first);
      assert first[|first| - 1] == rest[0];
      BalancedRun(items[1..], rest);
    }
  }

  lemma {:induction false} BalancedItem(item: Item, states: seq<State>)
    requires Legal([item]) && IsRun(states, ItemCommands(item)) && states[0].s >= ItemDepth(item)
    ensures Quiet(states[0], states[|states| - 1])
    decreases item, 0
  {
    assert [item][0] == item;
    match item
    case Plain(command) => PlainIsQuiet(states[0], command, states[1]);
    case Call(body) => CallReturns(body, states);
    case KeepA(body) => KeepARestores(body, states);
    case KeepP(body) => KeepPRestores(body, states);
  }

  /** A run that starts and ends with a command of its own. */
  lemma RunInside(states: seq<State>, first: Command, body: seq<Command>, last: Command)
    requires IsRun(states, [first] + body + [last])
    ensures var n := |body|;
            && |states| == n + 3 && Step(states[0], first, states[1]) && IsRun(states[1..n + 2], body)
            && Step(states[n + 1], last, states[n + 2])
  {
    var commands := [first] + body + [last];
    assert commands == [first] + (body + [last]);
    RunSplits(states, [first], body + [last]);
    RunSplits(states[1..], body, [last]);
    assert commands[0] == first && commands[|body| + 1] == last;
    assert states[1..][..|body| + 1] == states[1..|body| + 2];
  }

  lemma HighByte(w: Word)
    ensures w / 0x100 % 0x100 == w / 0x100 && w % MEMORY == w
  {
  }

  lemma ReturnAddress(pc: Word)
    ensures var back := (pc + 1) % MEMORY + 2;
            back % 0x100 == (pc + 3) % MEMORY % 0x100 && back / 0x100 % 0x100 == (pc + 3) % MEMORY / 0x100
  {
    if pc < 0xfffd {
      HighByte(pc + 1);
      HighByte(pc + 3);
    } else if pc == 0xfffd {
    } else if pc == 0xfffe {
    } else {
      assert pc == 0xffff;
    }
  }

  lemma PushTwice(st: State, v: Byte, w: Byte)
    requires IsState(st) && st.s >= 2
    ensures var r := Push(Push(st, v), w); r.s == st.s - 2 && Stack(r) == Stack(st) + [v, w]
  {
    PushStacks(st, v);
    PushStacks(Push(st, v), w);
    assert Stack(st) + [v] + [w] == Stack(st) + [v, w];
  }

  lemma JsrStacks(st: State)
    requires IsState(st) && st.s >= 2 && CommandOf(Fetch(st).0) == Jsr
    ensures var back := (st.pc + 3) % MEMORY;
            Parse(st).s == st.s - 2 && Stack(Parse(st)) == Stack(st) + [back % 0x100, back / 0x100]
  {
    var st0 := Fetch(st).1;
    FetchKeepsStack(st);
    ReturnAddress(st.pc);
    var back := st0.pc + 2;
    var low, high := back % 0x100, back / 0x100 % 0x100;
    PushTwice(st0, low, high);
    var st2 := Push(Push(st0, low), high);
    FetchKeepsStack(st2);
    FetchKeepsStack(Fetch(st2).1);
  }

  /** Each RTS lands just after its JSR, with the stack as it was before it, whatever balanced code ran in between. */
  lemma {:induction false} CallReturns(body: seq<Item>, states: seq<State>)
    requires Legal(body) && IsRun(states, [Jsr] + Commands(body) + [Rts]) && states[0].s >= 2 + Depth(body)
    ensures Quiet(states[0], states[|states| - 1])
    ensures states[|states| - 1].pc == (states[0].pc + 3) % MEMORY
    decreases body, 2
  {
    hide Stack, Push, Pop, ItemCommands, ItemDepth;
    var n := |Commands(body)|;
    RunInside(states, Jsr, Commands(body), Rts);
    JsrStacks(states[0]);
    BalancedRun(body, states[1..n + 2]);
    var back: nat := (states[0].pc + 3) % MEMORY;
    RtsReturns(states[n + 1], Stack(states[0]), back);
  }

  lemma RtsReturns(st: State, below: seq<Byte>, back: Word)
    requires IsState(st) && CommandOf(Fetch(st).0) == Rts
    requires Stack(st) == below + [back % 0x100, back / 0x100]
    ensures Parse(st).pc == back && Parse(st).s == st.s + 2 && Stack(Parse(st)) == below
  {
    var st0 := Fetch(st).1;
    FetchKeepsStack(st);
    assert Stack(st0) == below + [back % 0x100] + [back / 0x100];
    PopUnstacks(st0);
    var st1 := Pop(st0).1;
    PopUnstacks(st1);
    Unstack(Stack(st1), Pop(st0).0, below + [back % 0x100], back / 0x100);
    Unstack(Stack(Pop(st1).1), Pop(st1).0, below, back % 0x100);
  }

  lemma Unstack(a: seq<Byte>, v: Byte, b: seq<Byte>, w: Byte)
    requires a + [v] == b + [w]
    ensures a == b && v == w
  {
    assert (a + [v])[|a|] == v && (b + [w])[|b|] == w;
    assert (a + [v])[..|a|] == a && (b + [w])[..|b|] == b;
  }

  /** PHA and the matching PLA give the accumulator back. */
  lemma {:induction false} KeepARestores(body: seq<Item>, states: seq<State>)
    requires Legal(body) && IsRun(states, [Pha] + Commands(body) + [Pla]) && states[0].s >= 1 + Depth(body)
    ensures Quiet(states[0], states[|states| - 1])
    ensures states[|states| - 1].a == states[0].a
    decreases body, 2
  {
    var n := |Commands(body)|;
    RunInside(states, Pha, Commands(body), Pla);
    FetchKeepsStack(states[0]);
    PushStacks(Fetch(states[0]).1, states[0].a);
    BalancedRun(body, states[1..n + 2]);
    OneUnstacked(states[n + 1], Stack(states[0]), states[0].a);
  }

  /** PHP and the matching PLP give the flags back. */
  lemma {:induction false} KeepPRestores(body: seq<Item>, states: seq<State>)
    requires Legal(body) && IsRun(states, [Php] + Commands(body) + [Plp]) && states[0].s >= 1 + Depth(body)
    ensures Quiet(states[0], states[|states| - 1])
    ensures states[|states| - 1].p == states[0].p
    decreases body, 2
  {
    var n := |Commands(body)|;
    RunInside(states, Php, Commands(body), Plp);
    FetchKeepsStack(states[0]);
    PushStacks(Fetch(states[0]).1, states[0].p);
    BalancedRun(body, states[1..n + 2]);
    OneUnstacked(states[n + 1], Stack(states[0]), states[0].p);
  }

  lemma OneUnstacked(st: State, below: seq<Byte>, v: Byte)
    requires IsState(st) && Stack(st) == below + [v]
    ensures var (w, st') := Pop(Fetch(st).1); w == v && st'.s == st.s + 1 && Stack(st') == below
  {
    FetchKeepsStack(st);
    PopUnstacks(Fetch(st).1);
    Unstack(Stack(Pop(Fetch(st).1).1), Pop(Fetch(st).1).0, below, v);
  }

  // ----- cpuJSR -----

  /** What was stacked before a balanced run stays below whatever it stacks, at every instruction. */
  lemma {:induction false} StackedBelow(items: seq<Item>, states: seq<State>, i: nat)
    requires Legal(items) && IsRun(states, Commands(items)) && states[0].s >= Depth(items) && i < |states|
    ensures Stack(states[0]) <= Stack(states[i])
    decreases items, 1
  {
    if items != [] {
      var head := ItemCommands(items[0]);
      RunSplits(states, head, Commands(items[1..]));
      var first, rest := states[..|head| + 1], states[|head|..];
      if i <= |head| {
        StackedBelowItem(items[0], first, i);
      } else {
        BalancedItem(items[0], first);
        assert first[|first| - 1] == rest[0];
        StackedBelow(items[1..], rest, i - |head|);
      }
    }
  }

  lemma {:induction false} StackedBelowItem(item: Item, states: seq<State>, i: nat)
    requires Legal([item]) && IsRun(states, ItemCommands(item)) && states[0].s >= ItemDepth(item) && i < |states|
    ensures Stack(states[0]) <= Stack(states[i])
    decreases item, 0
  {
    hide IsRun, Stack, Quiet;
    assert [item][0] == item;
    if i == |states| - 1 {
      BalancedItem(item, states);
      QuietStack(states[0], states[i]);
    } else if i > 0 {
      match item
      case Plain(command) => RunLength(states, [command]);
      case Call(body) => StackedBelowBody(Jsr, body, Rts, states, i);
      case KeepA(body) => StackedBelowBody(Pha, body, Pla, states, i);
      case KeepP(body) => StackedBelowBody(Php, body, Plp, states, i);
    }
  }

  lemma QuietStack(st: State, st': State)
    requires Quiet(st, st')
    ensures Stack(st') == Stack(st)
  {
  }

  lemma RunLength(states: seq<State>, commands: seq<Command>)
    requires IsRun(states, commands)
    ensures |states| == |commands| + 1
  {
  }

  lemma {:induction false} StackedBelowBody(first: Command, body: seq<Item>, last: Command, states: seq<State>, i: nat)
    requires first == Jsr || first == Pha || first == Php
    requires Legal(body) && IsRun(states, [first] + Commands(body) + [last])
    requires states[0].s >= (if first == Jsr then 2 else 1) + Depth(body) && 0 < i < |states| - 1
    ensures Stack(states[0]) <= Stack(states[i])
    decreases body, 2
  {
    hide Stack, Step;
    var inner := states[1..|Commands(body)| + 2];
    RunInside(states, first, Commands(body), last);
    FirstStacks(states[0], first, states[1]);
    StackedBelow(body, inner, i - 1);
    assert inner[i - 1] == states[i] && inner[0] == states[1];
  }

  lemma FirstStacks(st: State, first: Command, st': State)
    requires first == Jsr || first == Pha || first == Php
    requires Step(st, first, st') && st.s >= if first == Jsr then 2 else 1
    ensures Stack(st) <= Stack(st') && st'.s == st.s - if first == Jsr then 2 else 1
  {
    if first == Jsr {
      JsrStacks(st);
    } else {
      FetchKeepsStack(st);
      PushStacks(Fetch(st).1, if first == Pha then st.a else st.p);
    }
  }

  lemma StartedStack(mem: seq<Byte>, npc: Word, na: Byte)
    requires |mem| == MEMORY
    ensures Started(mem, npc, na).s == 0xfd && Stack(Started(mem, npc, na)) == [0, 0]
  {
    var start := State(mem, na, 0, 0, 0, 0xff, npc);
    PushTwice(start, 0, 0);
    assert Stack(start) == [];
  }

  lemma LastReturns(st: State, st': State)
    requires Step(st, Rts, st') && Stack(st) == [0, 0]
    ensures st'.pc == 0 && st'.s == 0xff
  {
    assert Stack(st) == [] + [0 % 0x100, 0 / 0x100];
    RtsReturns(st, [], 0);
  }

  /** The own RTS of a routine takes the two zeros: it leaves an empty stack, and until then the zeros are stacked. */
  lemma RoutineReturns(mem: seq<Byte>, npc: Word, na: Byte, body: seq<Item>, states: seq<State>)
    requires |mem| == MEMORY && Legal(body) && Depth(body) <= 0xfd
    requires IsRun(states, Commands(body) + [Rts]) && states[0] == Started(mem, npc, na)
    ensures var end := states[|states| - 1]; end.pc == 0 && end.s == 0xff
    ensures forall i :: 0 <= i < |states| - 1 ==> [0, 0] <= Stack(states[i])
  {
    hide Stack, Step, Started;
    var n := |Commands(body)|;
    StartedStack(mem, npc, na);
    RunSplits(states, Commands(body), [Rts]);
    BalancedRun(body, states[..n + 1]);
    QuietStack(states[0], states[..n + 1][n]);
    assert (Commands(body) + [Rts])[n] == Rts;
    LastReturns(states[n], states[n + 1]);
    forall i | 0 <= i < |states| - 1 ensures [0, 0] <= Stack(states[i]) {
      StackedBelow(body, states[..n + 1], i);
    }
  }

  /** The first state at which `while (pc)` is left. */
  function FirstZero(states: seq<State>): (n: nat)
    ensures n <= |states| && (n < |states| ==> states[n].pc == 0)
    ensures forall i :: 0 <= i < n ==> states[i].pc != 0
  {
    if states == [] || states[0].pc == 0 then 0 else 1 + FirstZero(states[1..])
  }

  /** The loop of cpuJSR ends, at the first instruction that leaves the program counter at zero. It ends with an empty
      stack, at the routine's own RTS, exactly when no instruction before does that: otherwise the two zeros are still
      stacked. */
  lemma JsrLoopEnds(mem: seq<Byte>, npc: Word, na: Byte, body: seq<Item>, states: seq<State>)
    requires |mem| == MEMORY && Legal(body) && Depth(body) <= 0xfd
    requires IsRun(states, Commands(body) + [Rts]) && states[0] == Started(mem, npc, na)
    ensures FirstZero(states) < |states|
    ensures var end := states[FirstZero(states)];
      if forall i :: 0 <= i < |states| - 1 ==> states[i].pc != 0
      then end == states[|states| - 1] && end.s == 0xff
      else FirstZero(states) < |states| - 1 && end.s <= 0xfd && [0, 0] <= Stack(end)
  {
    hide Step, Stack;
    RoutineReturns(mem, npc, na, body, states);
  }

  lemma RunTail(states: seq<State>, commands: seq<Command>)
    requires IsRun(states, commands) && commands != []
    ensures Step(states[0], commands[0], states[1]) && IsRun(states[1..], commands[1..])
  {
    hide Step;
    assert commands == [commands[0]] + commands[1..];
    RunSplits(states, [commands[0]], commands[1..]);
  }

  /** The loop follows a run of modelled commands to its first zero. */
  lemma {:induction false} LoopFollows(states: seq<State>, commands: seq<Command>, turns: nat)
    requires IsRun(states, commands) && Other !in commands
    requires FirstZero(states) < |states| && FirstZero(states) <= turns
    ensures RunLoop(states[0], turns) == (states[FirstZero(states)], Ended)
    decreases turns
  {
    hide Parse, Fetch, CommandOf;
    if states[0].pc != 0 {
      RunTail(states, commands);
      LoopFollows(states[1..], commands[1..], turns - 1);
    }
  }

  /** Watched for less, it is still running, as far along the run as it was watched. */
  lemma {:induction false} LoopRunsOn(states: seq<State>, commands: seq<Command>, turns: nat)
    requires IsRun(states, commands) && Other !in commands && turns < FirstZero(states)
    ensures RunLoop(states[0], turns) == (states[turns], Running)
    decreases turns
  {
    hide Parse, Fetch, CommandOf;
    if turns > 0 {
      RunTail(states, commands);
      LoopRunsOn(states[1..], commands[1..], turns - 1);
    }
  }

  /** JSR 0x1000 at 0xfffd, and RTS at 0x1000. */
  ghost function CallFromTheTop(): (mem: seq<Byte>)
    ensures |mem| == MEMORY
    ensures mem[0xfffd] == 0x20 && mem[0xfffe] == 0 && mem[0xffff] == 0x10 && mem[0x1000] == 0x60
  {
    seq(MEMORY, i => if i == 0xfffd then 0x20 else if i == 0xffff then 0x10 else if i == 0x1000 then 0x60 else 0)
  }

  lemma JumpFromTheTop(st: State)
    requires IsState(st) && st.pc == 0xfffd && st.s == 0xfd
    requires st.mem[0xfffd] == 0x20 && st.mem[0xfffe] == 0 && st.mem[0xffff] == 0x10 && st.mem[0x1000] == 0x60
    ensures CommandOf(Fetch(st).0) == Jsr && Parse(st).pc == 0x1000 && CommandOf(Fetch(Parse(st)).0) == Rts
  {
    var st0 := st.(pc := 0xfffe);
    assert Fetch(st) == (0x20, st0);
    var st1 := Push(Push(st0, 0), 0);
    assert Parse(st) == DoJsr(st0) && Fetch(st1).0 == 0;
  }

  /** A call from 0xfffd returns to zero, and so leaves the loop in the middle of the routine. */
  lemma CallFromTheTopStops(na: Byte)
    ensures var (st, loop) := RunLoop(Started(CallFromTheTop(), 0xfffd, na), 2);
      loop == Ended && st.s == 0xfd && Stack(st) == [0, 0]
  {
    hide CallFromTheTop, Parse, Fetch, CommandOf;
    var start := State(CallFromTheTop(), na, 0, 0, 0, 0xff, 0xfffd);
    PushTwice(start, 0, 0);
    assert Stack(start) == [];
    var st0 := Started(CallFromTheTop(), 0xfffd, na);
    JumpFromTheTop(st0);
    var states := [st0, Parse(st0), Parse(Parse(st0))];
    assert [Jsr] + Commands([]) + [Rts] == [Jsr, Rts];
    CallReturns([], states);
    LoopFollows(states, [Jsr, Rts], 2);
  }

  // ----- What leaves the loop too soon -----

  /** A command that leads to address 0: it ends at the top of the memory, or it calls from there, or it calls 0. */
  ghost predicate LeadsToZero(st: State, command: Command)
    requires IsState(st)
  {
    match command
    case Jsr => st.pc == 0xfffd || DoJsr(Fetch(st).1).pc == 0
    case Rts => false
    case Lda => st.pc == 0xfffe
    case Adc => st.pc == 0xfffe
    case Sbc => st.pc == 0xfffe
    case _ => st.pc == 0xffff
  }

  ghost predicate AllModelled(items: seq<Item>)
    decreases items
  {
    forall i :: 0 <= i < |items| ==>
      match items[i]
      case Plain(command) => command != Other
      case Call(body) => AllModelled(body)
      case KeepA(body) => AllModelled(body)
      case KeepP(body) => AllModelled(body)
  }

  ghost predicate NeverZero(states: seq<State>) { forall i :: 0 < i < |states| ==> states[i].pc != 0 }

  ghost predicate NeverLeads(states: seq<State>, commands: seq<Command>)
    requires IsRun(states, commands)
  {
    forall i :: 0 <= i < |commands| ==> !LeadsToZero(states[i], commands[i])
  }

  lemma ZeroSplits(states: seq<State>, a: seq<Command>, b: seq<Command>)
    requires IsRun(states, a + b)
    ensures IsRun(states[..|a| + 1], a) && IsRun(states[|a|..], b)
    ensures NeverZero(states) <==> NeverZero(states[..|a| + 1]) && NeverZero(states[|a|..])
    ensures NeverLeads(states, a + b) <==> NeverLeads(states[..|a| + 1], a) && NeverLeads(states[|a|..], b)
  {
    hide Step, LeadsToZero;
    RunSplits(states, a, b);
    var first, rest := states[..|a| + 1], states[|a|..];
    assert forall i :: 0 <= i < |a| ==> first[i] == states[i] && (a + b)[i] == a[i];
    assert forall i :: 0 <= i < |b| ==> rest[i] == states[|a| + i] && (a + b)[|a| + i] == b[i];
    if NeverZero(first) && NeverZero(rest) {
      forall i | 0 < i < |states| ensures states[i].pc != 0 {
        if i > |a| {
          assert rest[i - |a|] == states[i];
        } else {
          assert first[i] == states[i];
        }
      }
    }
    if NeverZero(states) {
      forall i | 0 < i < |rest| ensures rest[i].pc != 0 {
        assert rest[i] == states[|a| + i];
      }
    }
    if NeverLeads(first, a) && NeverLeads(rest, b) {
      forall i | 0 <= i < |a + b| ensures !LeadsToZero(states[i], (a + b)[i]) {
        if i >= |a| {
          assert !LeadsToZero(rest[i - |a|], b[i - |a|]);
        } else {
          assert !LeadsToZero(first[i], a[i]);
        }
      }
    }
    if NeverLeads(states, a + b) {
      forall i | 0 <= i < |b| ensures !LeadsToZero(rest[i], b[i]) {
        assert !LeadsToZero(states[|a| + i], (a + b)[|a| + i]);
      }
    }
  }

  /** A command of one byte, or of two. */
  lemma NextPc(st: State, command: Command)
    requires IsState(st) && CommandOf(Fetch(st).0) == command && command != Jsr && command != Rts && command != Other
    ensures Parse(st).pc == (st.pc + if command == Lda || command == Adc || command == Sbc then 2 else 1) % MEMORY
  {
    hide SetFlag, SetZN;
  }

  lemma StepLeads(st: State, command: Command, st': State)
    requires Step(st, command, st') && command != Jsr && command != Rts && command != Other
    ensures st'.pc == 0 <==> LeadsToZero(st, command)
  {
    NextPc(st, command);
  }

  lemma OneStep(states: seq<State>, command: Command)
    requires IsRun(states, [command]) && command != Jsr && command != Rts && command != Other
    ensures NeverZero(states) <==> NeverLeads(states, [command])
  {
    StepLeads(states[0], command, states[1]);
    assert NeverZero(states) <==> states[1].pc != 0;
    assert NeverLeads(states, [command]) <==> !LeadsToZero(states[0], [command][0]);
  }

  /** A balanced run comes to address 0 exactly when one of its commands leads there. */
  lemma {:induction false} ZeroByCommands(items: seq<Item>, states: seq<State>)
    requires Legal(items) && AllModelled(items) && IsRun(states, Commands(items)) && states[0].s >= Depth(items)
    ensures NeverZero(states) <==> NeverLeads(states, Commands(items))
    decreases items, 1
  {
    hide Step, LeadsToZero, NeverLeads, NeverZero;
    if items == [] {
      NoCommands(states);
    } else {
      var head := ItemCommands(items[0]);
      ZeroSplits(states, head, Commands(items[1..]));
      var first, rest := states[..|head| + 1], states[|head|..];
      BalancedItem(items[0], first);
      ZeroByItem(items[0], first);
      assert first[|first| - 1] == rest[0];
      ZeroByCommands(items[1..], rest);
    }
  }

  lemma NoCommands(states: seq<State>)
    requires IsRun(states, [])
    ensures NeverZero(states) && NeverLeads(states, [])
  {
  }

  lemma {:induction false} ZeroByItem(item: Item, states: seq<State>)
    requires Legal([item]) && AllModelled([item]) && IsRun(states, ItemCommands(item))
    requires states[0].s >= ItemDepth(item)
    ensures NeverZero(states) <==> NeverLeads(states, ItemCommands(item))
    decreases item, 0
  {
    hide Step, LeadsToZero, NeverLeads, NeverZero, IsRun;
    assert [item][0] == item;
    match item
    case Plain(command) => OneStep(states, command);
    case Call(body) => ZeroByCall(body, states);
    case KeepA(body) => ZeroByPair(Pha, body, Pla, states);
    case KeepP(body) => ZeroByPair(Php, body, Plp, states);
  }

  /** The three parts of a run that starts and ends with a command of its own. */
  lemma ZeroInside(states: seq<State>, first: Command, body: seq<Command>, last: Command)
    requires IsRun(states, [first] + body + [last])
    ensures var n := |body|; |states| == n + 3
    ensures var n := |body|;
      && IsRun(states[..2], [first]) && IsRun(states[1..n + 2], body) && IsRun(states[n + 1..], [last])
      && (NeverZero(states) <==> NeverZero(states[..2]) && NeverZero(states[1..n + 2]) && NeverZero(states[n + 1..]))
      && (NeverLeads(states, [first] + body + [last]) <==>
          && NeverLeads(states[..2], [first]) && NeverLeads(states[1..n + 2], body)
          && NeverLeads(states[n + 1..], [last]))
  {
    hide Step, NeverLeads, NeverZero;
    var n := |body|;
    ZeroSplits(states, [first] + body, [last]);
    var front := states[..n + 2];
    ZeroSplits(front, [first], body);
    assert front[..2] == states[..2] && front[1..] == states[1..n + 2];
  }

  lemma {:induction false} ZeroByPair(first: Command, body: seq<Item>, last: Command, states: seq<State>)
    requires (first == Pha && last == Pla) || (first == Php && last == Plp)
    requires Legal(body) && AllModelled(body) && IsRun(states, [first] + Commands(body) + [last])
    requires states[0].s >= 1 + Depth(body)
    ensures NeverZero(states) <==> NeverLeads(states, [first] + Commands(body) + [last])
    decreases body, 2
  {
    hide Step, NeverLeads, NeverZero, Stack;
    ZeroInside(states, first, Commands(body), last);
    RunInside(states, first, Commands(body), last);
    FirstStacks(states[0], first, states[1]);
    ZeroByCommands(body, states[1..|Commands(body)| + 2]);
    OneStep(states[..2], first);
    OneStep(states[|Commands(body)| + 1..], last);
  }

  lemma JsrLeads(states: seq<State>, end: seq<State>)
    requires IsRun(states, [Jsr]) && IsRun(end, [Rts]) && end[1].pc == (states[0].pc + 3) % MEMORY
    ensures NeverZero(states) && NeverZero(end) <==> NeverLeads(states, [Jsr]) && NeverLeads(end, [Rts])
  {
    assert Step(states[0], [Jsr][0], states[1]);
    assert NeverZero(states) <==> states[1].pc != 0;
    assert NeverZero(end) <==> end[1].pc != 0;
    assert NeverLeads(states, [Jsr]) <==> !LeadsToZero(states[0], [Jsr][0]);
    assert NeverLeads(end, [Rts]);
  }

  lemma {:induction false} ZeroByCall(body: seq<Item>, states: seq<State>)
    requires Legal(body) && AllModelled(body) && IsRun(states, [Jsr] + Commands(body) + [Rts])
    requires states[0].s >= 2 + Depth(body)
    ensures NeverZero(states) <==> NeverLeads(states, [Jsr] + Commands(body) + [Rts])
    decreases body, 2
  {
    hide Step, NeverLeads, NeverZero, Stack;
    var n := |Commands(body)|;
    ZeroInside(states, Jsr, Commands(body), Rts);
    RunInside(states, Jsr, Commands(body), Rts);
    FirstStacks(states[0], Jsr, states[1]);
    ZeroByCommands(body, states[1..n + 2]);
    CallReturns(body, states);
    JsrLeads(states[..2], states[n + 1..]);
  }

  /** Of modelled commands, the routine keeps the loop of cpuJSR going up to its own RTS exactly when it does not start
      at 0 and none of its commands leads there. */
  lemma LoopKept(mem: seq<Byte>, npc: Word, na: Byte, body: seq<Item>, states: seq<State>)
    requires |mem| == MEMORY && Legal(body) && AllModelled(body) && Depth(body) <= 0xfd
    requires IsRun(states, Commands(body) + [Rts]) && states[0] == Started(mem, npc, na)
    ensures IsRun(states[..|states| - 1], Commands(body))
    ensures FirstZero(states) == |states| - 1
      <==> npc != 0 && NeverLeads(states[..|states| - 1], Commands(body))
  {
    hide Step, NeverLeads, Stack, Started;
    var n := |Commands(body)|;
    RunSplits(states, Commands(body), [Rts]);
    StartedStack(mem, npc, na);
    StartedAt(mem, npc, na);
    ZeroByCommands(body, states[..n + 1]);
    RoutineReturns(mem, npc, na, body, states);
    var before := states[..n + 1];
    assert NeverZero(before) && npc != 0 <==> forall i :: 0 <= i < n + 1 ==> before[i].pc != 0;
    assert forall i :: 0 <= i < n + 1 ==> before[i] == states[i];
  }

  lemma StartedAt(mem: seq<Byte>, npc: Word, na: Byte)
    requires |mem| == MEMORY
    ensures var st := Started(mem, npc, na); st.pc == npc && st.a == na && st.x == st.y == st.p == 0
  {
  }
}
