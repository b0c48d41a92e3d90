/**
 Reading back what was printed: the recursive printer against the reader with an explicit stack.

 The proof has two layers. A value is first written as a list of tokens; the reader's stack machine, run on
 these tokens in any stack, hands the value to that stack (`TokensDeliver`). Then the reader on characters is
 the stack machine on tokens, whatever whitespace stands between them (`LoadRunsTokens`).
 */
module JsonProofs {
  import opened Json
  import opened Wrappers

  // ----- Values as tokens -----

  function Tokens(v: Value): seq<Token>
    decreases v, 0
  {
    match v
    case List(items) => [OpenList] + ItemTokens(items, true) + [CloseList]
    case Dict(entries) => [OpenDict] + EntryTokens(entries, true) + [CloseDict]
    case _ => [Scalar(v)]
  }

  function ItemTokens(items: seq<Value>, isFirst: bool): seq<Token>
    decreases items, 1
  {
    if items == [] then []
    else (if isFirst then [] else [Comma]) + Tokens(items[0]) + ItemTokens(items[1..], false)
  }

  function EntryTokens(entries: seq<Entry>, isFirst: bool): seq<Token>
    decreases entries, 1
  {
    if entries == [] then []
    else
      (if isFirst then [] else [Comma])
      + [Scalar(Str(entries[0].key)), Colon]
      + Tokens(entries[0].value)
      + EntryTokens(entries[1..], false)
  }

  /** The characters of a token. */
  function Spell(token: Token): Text {
    match token
    case OpenDict => [LBRACE]
    case CloseDict => [RBRACE]
    case OpenList => [LBRACKET]
    case CloseList => [RBRACKET]
    case Comma => [COMMA]
    case Colon => [COLON]
    case Scalar(Str(s)) => Quoted(s)
    case Scalar(v) => Dumps(v)
  }

  ghost predicate Blank(gap: Text) {
    forall i :: 0 <= i < |gap| ==> IsSpace(gap[i])
  }

  /** Whitespace to put before, between and after `n` tokens. */
  ghost predicate Gaps(gaps: seq<Text>, n: nat) {
    |gaps| == n + 1 && forall i :: 0 <= i <= n ==> Blank(gaps[i])
  }

  function Weave(tokens: seq<Token>, gaps: seq<Text>): Text
    requires |gaps| == |tokens| + 1
  {
    if tokens == [] then gaps[0]
    else gaps[0] + Spell(tokens[0]) + Weave(tokens[1..], gaps[1..])
  }

  // ----- The stack machine on tokens -----

  function Run(tokens: seq<Token>, stack: seq<Value>): Step {
    if tokens == [] then Continue(stack)
    else
      match Act(tokens[0], stack)
      case Continue(stack') => Run(tokens[1..], stack')
      case stop => stop
  }

  function Then(step: Step, tokens: seq<Token>): Step {
    match step
    case Continue(stack) => Run(tokens, stack)
    case stop => stop
  }

  lemma {:induction false} RunAppend(a: seq<Token>, b: seq<Token>, stack: seq<Value>)
    ensures Run(a + b, stack) == Then(Run(a, stack), b)
  {
    if a == [] {
      assert a + b == b;
    } else {
      assert (a + b)[1..] == a[1..] + b;
      match Act(a[0], stack) {
        case Continue(stack') => RunAppend(a[1..], b, stack');
        case _ =>
      }
    }
  }

  /** In any stack, the tokens of a value do what delivering the finished value does. */
  lemma {:induction false} TokensDeliver(v: Value, stack: seq<Value>)
    requires Printable(v)
    ensures Run(Tokens(v), stack) == Deliver(stack, v)
    decreases v, 0
  {
    match v
    case List(items) =>
      var open := stack + [List([])];
      var middle := ItemTokens(items, true);
      RunAppend([OpenList], middle + [CloseList], stack);
      RunAppend(middle, [CloseList], open);
      assert Tokens(v) == [OpenList] + (middle + [CloseList]);
      ItemsFill(items, true, [], stack);
      assert [] + items == items;
      CloseDelivers(CloseList, stack, v);
    case Dict(entries) =>
      var open := stack + [Dict([])];
      var middle := EntryTokens(entries, true);
      RunAppend([OpenDict], middle + [CloseDict], stack);
      RunAppend(middle, [CloseDict], open);
      assert Tokens(v) == [OpenDict] + (middle + [CloseDict]);
      EntriesFill(entries, true, [], stack);
      assert [] + entries == entries;
      CloseDelivers(CloseDict, stack, v);
    case _ =>
      ScalarDelivers(v, stack);
  }

  lemma ScalarDelivers(v: Value, stack: seq<Value>)
    ensures Run([Scalar(v)], stack) == Deliver(stack, v)
  {
    assert [Scalar(v)][1..] == [];
  }

  lemma CloseDelivers(close: Token, stack: seq<Value>, v: Value)
    requires close.CloseList? || close.CloseDict?
    ensures Run([close], stack + [v]) == Deliver(stack, v)
  {
    assert (stack + [v])[..|stack|] == stack;
    assert [close][1..] == [];
  }

  lemma CommaRuns(isFirst: bool, stack: seq<Value>)
    ensures Run(if isFirst then [] else [Comma], stack) == Continue(stack)
  {
    assert [Comma][1..] == [];
  }

  /** One item, and the comma in front of it, goes into the list. */
  lemma ItemFills(item: Value, isFirst: bool, done: seq<Value>, stack: seq<Value>, rest: seq<Token>)
    requires Printable(item)
    ensures Run((if isFirst then [] else [Comma]) + (Tokens(item) + rest), stack + [List(done)])
         == Run(rest, stack + [List(done + [item])])
    decreases item, 1
  {
    var open := stack + [List(done)];
    RunAppend(if isFirst then [] else [Comma], Tokens(item) + rest, open);
    CommaRuns(isFirst, open);
    RunAppend(Tokens(item), rest, open);
    TokensDeliver(item, open);
    assert Pop(open) == stack;
  }

  lemma {:induction false} ItemsFill(items: seq<Value>, isFirst: bool, done: seq<Value>, stack: seq<Value>)
    requires forall i :: 0 <= i < |items| ==> Printable(items[i])
    ensures Run(ItemTokens(items, isFirst), stack + [List(done)]) == Continue(stack + [List(done + items)])
    decreases items, 1
  {
    if items == [] {
      assert done + items == done;
    } else {
      var comma := if isFirst then [] else [Comma];
      var rest := ItemTokens(items[1..], false);
      assert ItemTokens(items, isFirst) == comma + (Tokens(items[0]) + rest);
      ItemFills(items[0], isFirst, done, stack, rest);
      ItemsFill(items[1..], false, done + [items[0]], stack);
      assert done + [items[0]] + items[1..] == done + items;
    }
  }

  lemma {:induction false} AssignNew(entries: seq<Entry>, key: Text, value: Value)
    requires forall i :: 0 <= i < |entries| ==> entries[i].key != key
    ensures Assign(entries, key, value) == entries + [Entry(key, value)]
  {
    if entries != [] {
      AssignNew(entries[1..], key, value);
    }
  }

  /** One entry: its key waits on the stack for the value, which then goes into the dictionary below. */
  lemma EntryFills(entry: Entry, done: seq<Entry>, stack: seq<Value>)
    requires Printable(entry.value)
    requires forall i :: 0 <= i < |done| ==> done[i].key != entry.key
    ensures Run([Scalar(Str(entry.key)), Colon] + Tokens(entry.value), stack + [Dict(done)])
         == Continue(stack + [Dict(done + [entry])])
    decreases entry, 1
  {
    var open := stack + [Dict(done)];
    var waiting := open + [Str(entry.key)];
    var head := [Scalar(Str(entry.key)), Colon];
    RunAppend(head, Tokens(entry.value), open);
    assert head[1..] == [Colon] && head[1..][1..] == [];
    assert Act(head[0], open) == Continue(waiting);
    assert Run([Colon], waiting) == Run([], waiting);
    TokensDeliver(entry.value, waiting);
    assert Pop(waiting) == open && Pop(open) == stack;
    AssignNew(done, entry.key, entry.value);
  }

  lemma {:induction false} EntriesFill(entries: seq<Entry>, isFirst: bool, done: seq<Entry>, stack: seq<Value>)
    requires forall i :: 0 <= i < |entries| ==> Printable(entries[i].value)
    requires forall i, j :: 0 <= i < j < |done + entries| ==> (done + entries)[i].key != (done + entries)[j].key
    ensures Run(EntryTokens(entries, isFirst), stack + [Dict(done)]) == Continue(stack + [Dict(done + entries)])
    decreases entries, 1
  {
    if entries == [] {
      assert done + entries == done;
    } else {
      var open := stack + [Dict(done)];
      var entry := entries[0];
      var comma := if isFirst then [] else [Comma];
      var first := [Scalar(Str(entry.key)), Colon] + Tokens(entry.value);
      var rest := EntryTokens(entries[1..], false);
      assert EntryTokens(entries, isFirst) == comma + (first + rest);
      RunAppend(comma, first + rest, open);
      assert isFirst || comma[1..] == [];
      RunAppend(first, rest, open);
      forall i | 0 <= i < |done| ensures done[i].key != entry.key {
        assert (done + entries)[i] == done[i] && (done + entries)[|done|] == entry;
      }
      EntryFills(entry, done, stack);
      assert done + [entry] + entries[1..] == done + entries;
      EntriesFill(entries[1..], false, done + [entry], stack);
    }
  }

  // ----- From characters to tokens -----

  lemma {:induction false} SkipGap(gap: Text, tail: Text)
    requires Blank(gap)
    requires tail == [] || !IsSpace(tail[0])
    ensures SkipSpace(gap + tail) == tail
  {
    if gap == [] {
      assert gap + tail == tail;
    } else {
      assert (gap + tail)[1..] == gap[1..] + tail;
      SkipGap(gap[1..], tail);
    }
  }

  /** What follows the backslash in the long form of an escape. */
  function HexEscape(c: nat): Text {
    [0x75, HexDigit(c / 4096 % 16), HexDigit(c / 256 % 16), HexDigit(c / 16 % 16), HexDigit(c % 16)]
  }

  lemma HexRead(c: nat)
    requires c < 32
    ensures HexCode(HexEscape(c)[1..]) == Some(c)
  {
    assert c / 16 % 16 * 16 + c % 16 == c;
  }

  lemma HexEscapeScans(c: nat, tail: Text)
    requires c < 32
    ensures ScanEscape(HexEscape(c) + tail) == Lexed(c, tail)
  {
    hide HexCode;
    HexRead(c);
    var u := HexEscape(c) + tail;
    assert u[5..] == tail;
    assert u[1..5] == HexEscape(c)[1..];
  }

  /** Every escape the printer writes is read back as the one character it stands for. */
  lemma PrintedCharScans(c: nat, tail: Text, value: Text)
    ensures ScanString(PrintChar(c) + tail, value) == ScanString(tail, value + [c])
  {
    var t := PrintChar(c) + tail;
    if !MatchesEscapeRE(c) {
      assert t[1..] == tail;
    } else {
      match ShortEscape(c) {
        case Some(letter) =>
          assert t[0] == BACKSLASH && t[1..][0] == letter && t[1..][1..] == tail;
        case None =>
          HexEscapeScans(c, tail);
          assert t[1..] == HexEscape(c) + tail;
      }
    }
  }

  lemma {:induction false} EscapedScans(s: Text, tail: Text, value: Text)
    ensures ScanString(Escape(s) + [QUOTE] + tail, value) == Lexed(value + s, tail)
  {
    if s == [] {
      assert Escape(s) + [QUOTE] + tail == [QUOTE] + tail;
      assert ([QUOTE] + tail)[1..] == tail;
      assert value + s == value;
    } else {
      var more := Escape(s[1..]) + [QUOTE] + tail;
      assert Escape(s) + [QUOTE] + tail == PrintChar(s[0]) + more;
      PrintedCharScans(s[0], more, value);
      EscapedScans(s[1..], tail, value + [s[0]]);
      assert value + [s[0]] + s[1..] == value + s;
    }
  }

  lemma {:induction false} NatDigitsRead(n: nat)
    ensures var d := NatDigits(n);
            d != [] && NatValue(d) == n && (forall i :: 0 <= i < |d| ==> IsDigit(d[i])) && (|d| == 1 <==> n < 10)
  {
    var d := NatDigits(n);
    if n < 10 {
      assert d[..|d| - 1] == [] && NatValue([]) == 0;
    } else {
      NatDigitsRead(n / 10);
      assert d[..|d| - 1] == NatDigits(n / 10);
    }
  }

  lemma {:induction false} DigitsEndAt(t: Text, k: nat, end: nat)
    requires k <= end <= |t|
    requires forall i :: k <= i < end ==> IsDigit(t[i])
    requires end == |t| || !IsDigit(t[end])
    ensures DigitsEnd(t, k) == end
    decreases end - k
  {
    if k < end {
      DigitsEndAt(t, k + 1, end);
    }
  }

  /** What may not follow a number: it would be taken for a part of it. */
  predicate ExtendsNumber(c: nat) { IsDigit(c) || c == DOT }

  predicate OneDigit(v: Value) { v.Int? && 0 <= v.n <= 9 }

  /** What the reader needs to know of a printed number. */
  lemma IntDigitsRead(n: int)
    ensures var d := IntDigits(n);
            && d != [] && (IsDigit(d[0]) || d[0] == MINUS) && (forall i :: 1 <= i < |d| ==> IsDigit(d[i]))
            && IntValue(d) == Some(n) && (|d| == 1 <==> 0 <= n <= 9)
  {
    var m: nat := if n < 0 then -n else n;
    NatDigitsRead(m);
    if n < 0 {
      var d := [MINUS] + NatDigits(m);
      assert d[1..] == NatDigits(m);
    }
  }

  /** A number is read back, except for a single digit at the very end of the source. At the end the reader
      is left with the last digit. */
  lemma IntScans(n: int, tail: Text)
    requires tail == [] || !ExtendsNumber(tail[0])
    ensures var t := IntDigits(n) + tail;
            && t != [] && (IsDigit(t[0]) || t[0] == MINUS)
            && ScanNumber(t) ==
               if tail == [] && 0 <= n <= 9 then LexError(EndOfSource)
               else Lexed(Scalar(Int(n)), if tail == [] then t[|t| - 1..] else tail)
  {
    var d := IntDigits(n);
    var t := d + tail;
    IntDigitsRead(n);
    assert t[..|d|] == d && t[|d|..] == tail && t[0] == d[0];
    if |t| > 1 {
      DigitsEndAt(t, 1, |d|);
    }
  }

  lemma KeywordsScan(tail: Text)
    ensures ScanKeyword(NULL_WORD + tail) == Lexed(Scalar(Null), tail)
    ensures ScanKeyword(TRUE_WORD + tail) == Lexed(Scalar(Bool(true)), tail)
    ensures ScanKeyword(FALSE_WORD + tail) == Lexed(Scalar(Bool(false)), tail)
  {
    assert (NULL_WORD + tail)[..4] == NULL_WORD && (NULL_WORD + tail)[4..] == tail;
    assert (TRUE_WORD + tail)[..4] == TRUE_WORD && (TRUE_WORD + tail)[4..] == tail;
    var f := FALSE_WORD + tail;
    assert f[..4] == FALSE_WORD[..4] && f[4] == FALSE_WORD[4] && f[5..] == tail;
    assert f[..4][0] != NULL_WORD[0] && f[..4][0] != TRUE_WORD[0];
  }

  /** The tokens the printer writes: a scalar is not a list, a dictionary or a float. */
  ghost predicate Spellable(token: Token) {
    token.Scalar? ==> token.v.Null? || token.v.Bool? || token.v.Int? || token.v.Str?
  }

  /** No two scalars stand side by side. */
  ghost predicate Separated(tokens: seq<Token>) {
    && (forall i :: 0 <= i < |tokens| ==> Spellable(tokens[i]))
    && (forall i :: 0 <= i < |tokens| - 1 ==> !(tokens[i].Scalar? && tokens[i + 1].Scalar?))
  }

  lemma SpellScalar(v: Value)
    requires v.Null? || v.Bool? || v.Int?
    ensures Spell(Scalar(v)) == if v.Null? then NULL_WORD
                                else if v.Bool? then (if v.b then TRUE_WORD else FALSE_WORD)
                                else IntDigits(v.n)
  {
    assert DumpParts(v)[1..] == [];
    assert Join(DumpParts(v)) == DumpParts(v)[0] + [];
  }

  lemma StringLexes(s: Text, tail: Text)
    ensures Lex(Quoted(s) + tail) == Lexed(Scalar(Str(s)), tail)
  {
    var t := Quoted(s) + tail;
    EscapedScans(s, tail, []);
    assert t[1..] == Escape(s) + [QUOTE] + tail;
    assert [] + s == s;
  }

  lemma KeywordLexes(v: Value, tail: Text)
    requires v.Null? || v.Bool?
    ensures var t := Spell(Scalar(v)) + tail;
            t != [] && !IsSpace(t[0]) && Lex(t) == Lexed(Scalar(v), tail)
  {
    SpellScalar(v);
    KeywordsScan(tail);
  }

  lemma IntLexes(n: int, tail: Text)
    requires tail == [] || !ExtendsNumber(tail[0])
    requires 0 <= n <= 9 ==> tail != []
    ensures var t := Spell(Scalar(Int(n))) + tail;
            t != [] && !IsSpace(t[0]) && Lex(t) == Lexed(Scalar(Int(n)), if tail == [] then t[|t| - 1..] else tail)
  {
    hide ScanNumber, IntDigits, Spell;
    SpellScalar(Int(n));
    IntScans(n, tail);
  }

  lemma MarkLexes(token: Token, tail: Text)
    requires !token.Scalar?
    ensures var t := Spell(token) + tail;
            t != [] && !IsSpace(t[0]) && Lex(t) == Lexed(token, tail)
  {
    assert (Spell(token) + tail)[1..] == tail;
  }

  /** One token is read back, whatever follows it; for a number, whatever may follow a number. */
  lemma TokenLexes(token: Token, tail: Text)
    requires Spellable(token)
    requires token.Scalar? && token.v.Int? ==> tail == [] || !ExtendsNumber(tail[0])
    requires token.Scalar? && OneDigit(token.v) ==> tail != []
    ensures var t := Spell(token) + tail;
            t != [] && !IsSpace(t[0]) && Lex(t).Lexed? && Lex(t).token == token
            && (Lex(t).rest == tail || (tail == [] && token.Scalar? && token.v.Int? && Lex(t).rest == t[|t| - 1..]))
  {
    if token.Scalar? {
      var v := token.v;
      if v.Str? {
        StringLexes(v.s, tail);
      } else if v.Int? {
        IntLexes(v.n, tail);
      } else {
        KeywordLexes(v, tail);
      }
    } else {
      MarkLexes(token, tail);
    }
  }

  ghost predicate EndsInBareDigit(tokens: seq<Token>, gaps: seq<Text>)
    requires |gaps| == |tokens| + 1
  {
    tokens != [] && tokens[|tokens| - 1].Scalar? && OneDigit(tokens[|tokens| - 1].v) && gaps[|tokens|] == []
  }

  function Conclude(step: Step): Outcome {
    match step
    case Continue(_) => Err(EndOfSource)
    case Return(v) => Ok(v)
    case Raise(e) => Err(e)
  }

  /** What follows a scalar cannot extend a number. */
  lemma NextStopsNumber(tokens: seq<Token>, gaps: seq<Text>)
    requires Gaps(gaps, |tokens|)
    requires tokens != [] ==> !tokens[0].Scalar?
    ensures var t := Weave(tokens, gaps); t == [] || !ExtendsNumber(t[0])
  {
    if gaps[0] != [] {
      assert IsSpace(gaps[0][0]);
    }
  }

  lemma LastDigitIsUnfinished(t: Text, stack: seq<Value>)
    requires |t| == 1 && IsDigit(t[0])
    ensures Load(t, stack) == Err(EndOfSource)
  {
  }

  lemma IntEndsInDigit(n: int)
    ensures IntDigits(n) != [] && IsDigit(IntDigits(n)[|IntDigits(n)| - 1])
  {
    NatDigitsRead(if n < 0 then -n else n);
  }

  /** The reader on characters is the stack machine on tokens, whatever whitespace stands between them. */
  lemma {:induction false} LoadRunsTokens(tokens: seq<Token>, gaps: seq<Text>, stack: seq<Value>)
    requires Separated(tokens) && Gaps(gaps, |tokens|) && !EndsInBareDigit(tokens, gaps)
    ensures Load(Weave(tokens, gaps), stack) == Conclude(Run(tokens, stack))
    decreases |tokens|
  {
    if tokens == [] {
      assert gaps[0] + [] == gaps[0];
      SkipGap(gaps[0], []);
    } else {
      var token, tail := tokens[0], Weave(tokens[1..], gaps[1..]);
      var t := Spell(token) + tail;
      assert Weave(tokens, gaps) == gaps[0] + t;
      assert tail == [] ==> |tokens| == 1 && gaps[1] == [] by {
        WeaveEmpty(tokens[1..], gaps[1..]);
      }
      if token.Scalar? {
        NextStopsNumber(tokens[1..], gaps[1..]);
      }
      TokenLexes(token, tail);
      SkipGap(gaps[0], t);
      match Act(token, stack) {
        case Continue(stack') =>
          if Lex(t).rest == tail {
            assert Separated(tokens[1..]);
            LoadRunsTokens(tokens[1..], gaps[1..], stack');
          } else {
            SpellScalar(token.v);
            IntEndsInDigit(token.v.n);
            LastDigitIsUnfinished(t[|t| - 1..], stack');
          }
        case _ =>
      }
    }
  }

  lemma WeaveEmpty(tokens: seq<Token>, gaps: seq<Text>)
    requires |gaps| == |tokens| + 1
    requires forall i :: 0 <= i < |tokens| ==> Spellable(tokens[i])
    ensures Weave(tokens, gaps) == [] ==> tokens == [] && gaps[0] == []
  {
    if tokens != [] {
      assert Spellable(tokens[0]);
      if tokens[0].Scalar? && !tokens[0].v.Str? {
        SpellScalar(tokens[0].v);
        if tokens[0].v.Int? {
          IntEndsInDigit(tokens[0].v.n);
        }
      }
      assert Spell(tokens[0]) != [];
    }
  }

  // ----- The tokens of a value are separated -----

  lemma SeparatedAppend(a: seq<Token>, b: seq<Token>)
    requires Separated(a) && Separated(b)
    requires a == [] || b == [] || !a[|a| - 1].Scalar? || !b[0].Scalar?
    ensures Separated(a + b)
  {
  }

  lemma {:induction false} TokensSeparated(v: Value)
    requires Printable(v)
    ensures Separated(Tokens(v)) && Tokens(v) != []
    decreases v, 0
  {
    match v
    case List(items) =>
      ItemTokensSeparated(items, true);
      SeparatedAppend([OpenList], ItemTokens(items, true));
      SeparatedAppend([OpenList] + ItemTokens(items, true), [CloseList]);
    case Dict(entries) =>
      EntryTokensSeparated(entries, true);
      SeparatedAppend([OpenDict], EntryTokens(entries, true));
      SeparatedAppend([OpenDict] + EntryTokens(entries, true), [CloseDict]);
    case _ =>
  }

  lemma {:induction false} ItemTokensSeparated(items: seq<Value>, isFirst: bool)
    requires forall i :: 0 <= i < |items| ==> Printable(items[i])
    ensures Separated(ItemTokens(items, isFirst))
    ensures var ts := ItemTokens(items, isFirst); !isFirst && ts != [] ==> !ts[0].Scalar?
    decreases items, 1
  {
    if items != [] {
      var comma := if isFirst then [] else [Comma];
      TokensSeparated(items[0]);
      ItemTokensSeparated(items[1..], false);
      SeparatedAppend(comma, Tokens(items[0]));
      SeparatedAppend(comma + Tokens(items[0]), ItemTokens(items[1..], false));
    }
  }

  lemma {:induction false} EntryTokensSeparated(entries: seq<Entry>, isFirst: bool)
    requires forall i :: 0 <= i < |entries| ==> Printable(entries[i].value)
    ensures Separated(EntryTokens(entries, isFirst))
    ensures var ts := EntryTokens(entries, isFirst); !isFirst && ts != [] ==> !ts[0].Scalar?
    decreases entries, 1
  {
    if entries != [] {
      var comma := if isFirst then [] else [Comma];
      var key := [Scalar(Str(entries[0].key)), Colon];
      var value := Tokens(entries[0].value);
      TokensSeparated(entries[0].value);
      EntryTokensSeparated(entries[1..], false);
      SeparatedAppend(comma, key);
      SeparatedAppend(comma + key, value);
      SeparatedAppend(comma + key + value, EntryTokens(entries[1..], false));
    }
  }

  // ----- What dumps writes is these tokens without gaps -----

  function Flat(tokens: seq<Token>): Text {
    if tokens == [] then [] else Spell(tokens[0]) + Flat(tokens[1..])
  }

  lemma {:induction false} FlatAppend(a: seq<Token>, b: seq<Token>)
    ensures Flat(a + b) == Flat(a) + Flat(b)
  {
    if a == [] {
      assert a + b == b;
    } else {
      assert (a + b)[1..] == a[1..] + b;
      FlatAppend(a[1..], b);
    }
  }

  lemma {:induction false} JoinAppend(a: seq<Text>, b: seq<Text>)
    ensures Join(a + b) == Join(a) + Join(b)
  {
    if a == [] {
      assert a + b == b;
    } else {
      assert (a + b)[1..] == a[1..] + b;
      JoinAppend(a[1..], b);
    }
  }

  lemma JoinAppend4(a: seq<Text>, b: seq<Text>, c: seq<Text>, d: seq<Text>)
    ensures Join(a + b + c + d) == Join(a) + Join(b) + Join(c) + Join(d)
  {
    JoinAppend(a, b);
    JoinAppend(a + b, c);
    JoinAppend(a + b + c, d);
  }

  lemma FlatAppend4(a: seq<Token>, b: seq<Token>, c: seq<Token>, d: seq<Token>)
    ensures Flat(a + b + c + d) == Flat(a) + Flat(b) + Flat(c) + Flat(d)
  {
    FlatAppend(a, b);
    FlatAppend(a + b, c);
    FlatAppend(a + b + c, d);
  }

  lemma {:induction false} WeaveNoGaps(tokens: seq<Token>, gaps: seq<Text>)
    requires |gaps| == |tokens| + 1 && forall i :: 0 <= i < |gaps| ==> gaps[i] == []
    ensures Weave(tokens, gaps) == Flat(tokens)
  {
    if tokens != [] {
      WeaveNoGaps(tokens[1..], gaps[1..]);
      assert gaps[0] + Spell(tokens[0]) == Spell(tokens[0]);
    }
  }

  lemma JoinOne(part: Text)
    ensures Join([part]) == part
  {
    assert [part][1..] == [];
    assert part + [] == part;
  }

  lemma FlatOne(token: Token)
    ensures Flat([token]) == Spell(token)
  {
    assert [token][1..] == [];
    assert Spell(token) + [] == Spell(token);
  }

  lemma {:induction false} DumpsIsFlat(v: Value)
    requires Printable(v)
    ensures Dumps(v) == Flat(Tokens(v))
    decreases v, 0
  {
    match v
    case List(items) =>
      var parts, tokens := DumpItems(items, true), ItemTokens(items, true);
      DumpItemsIsFlat(items, true);
      JoinAppend([[LBRACKET]], parts);
      JoinAppend([[LBRACKET]] + parts, [[RBRACKET]]);
      JoinOne([LBRACKET]);
      JoinOne([RBRACKET]);
      FlatAppend([OpenList], tokens);
      FlatAppend([OpenList] + tokens, [CloseList]);
      FlatOne(OpenList);
      FlatOne(CloseList);
    case Dict(entries) =>
      var parts, tokens := DumpEntries(entries, true), EntryTokens(entries, true);
      DumpEntriesIsFlat(entries, true);
      JoinAppend([[LBRACE]], parts);
      JoinAppend([[LBRACE]] + parts, [[RBRACE]]);
      JoinOne([LBRACE]);
      JoinOne([RBRACE]);
      FlatAppend([OpenDict], tokens);
      FlatAppend([OpenDict] + tokens, [CloseDict]);
      FlatOne(OpenDict);
      FlatOne(CloseDict);
    case Str(s) =>
      JoinOne(Quoted(s));
      FlatOne(Scalar(v));
    case _ =>
      FlatOne(Scalar(v));
  }

  lemma CommaIsFlat(isFirst: bool)
    ensures Join(if isFirst then [] else [[COMMA]]) == Flat(if isFirst then [] else [Comma])
  {
    JoinOne([COMMA]);
    FlatOne(Comma);
  }

  lemma KeyIsFlat(key: Text)
    ensures Join([Quoted(key) + [COLON]]) == Flat([Scalar(Str(key)), Colon])
  {
    JoinOne(Quoted(key) + [COLON]);
    FlatAppend([Scalar(Str(key))], [Colon]);
    FlatOne(Scalar(Str(key)));
    FlatOne(Colon);
  }

  lemma NothingIsFlat()
    ensures Join([]) == Flat([])
  {
  }

  lemma {:induction false} DumpItemsIsFlat(items: seq<Value>, isFirst: bool)
    requires forall i :: 0 <= i < |items| ==> Printable(items[i])
    ensures Join(DumpItems(items, isFirst)) == Flat(ItemTokens(items, isFirst))
    decreases items, 1
  {
    hide Join, Flat;
    if items == [] {
      NothingIsFlat();
    } else {
      var comma: seq<Text>, comma' := if isFirst then [] else [[COMMA]], if isFirst then [] else [Comma];
      var parts, tokens := DumpParts(items[0]), Tokens(items[0]);
      DumpsIsFlat(items[0]);
      DumpItemsIsFlat(items[1..], false);
      CommaIsFlat(isFirst);
      JoinAppend(comma, parts);
      JoinAppend(comma + parts, DumpItems(items[1..], false));
      FlatAppend(comma', tokens);
      FlatAppend(comma' + tokens, ItemTokens(items[1..], false));
    }
  }

  lemma {:induction false} DumpEntriesIsFlat(entries: seq<Entry>, isFirst: bool)
    requires forall i :: 0 <= i < |entries| ==> Printable(entries[i].value)
    ensures Join(DumpEntries(entries, isFirst)) == Flat(EntryTokens(entries, isFirst))
    decreases entries, 1
  {
    hide Join, Flat, Quoted;
    if entries == [] {
      NothingIsFlat();
    } else {
      var comma: seq<Text>, comma' := if isFirst then [] else [[COMMA]], if isFirst then [] else [Comma];
      var key, value := entries[0].key, entries[0].value;
      DumpsIsFlat(value);
      DumpEntriesIsFlat(entries[1..], false);
      CommaIsFlat(isFirst);
      KeyIsFlat(key);
      JoinAppend4(comma, [Quoted(key) + [COLON]], DumpParts(value), DumpEntries(entries[1..], false));
      FlatAppend4(comma', [Scalar(Str(key)), Colon], Tokens(value), EntryTokens(entries[1..], false));
    }
  }

  // ----- The round trip -----

  /** Reading a printed value, with any whitespace before, between and after its tokens, gives the value back:
      always, except that a one-digit number must not end the source. */
  lemma SpacedRoundTrip(v: Value, gaps: seq<Text>)
    requires Printable(v) && Gaps(gaps, |Tokens(v)|)
    ensures Load(Weave(Tokens(v), gaps), []) == Ok(v) <==> !(OneDigit(v) && gaps[1] == [])
  {
    var tokens := Tokens(v);
    TokensSeparated(v);
    TokensDeliver(v, []);
    if OneDigit(v) && gaps[1] == [] {
      SpellScalar(v);
      var t := IntDigits(v.n);
      assert Weave(tokens[1..], gaps[1..]) == [];
      assert Weave(tokens, gaps) == gaps[0] + (t + []);
      IntScans(v.n, []);
      SkipGap(gaps[0], t + []);
    } else {
      LoadRunsTokens(tokens, gaps, []);
    }
  }

  /** loads(dumps(v)) == v, for every printable value but the numbers 0 to 9. */
  lemma RoundTrip(v: Value)
    requires Printable(v)
    ensures Load(Dumps(v), []) == Ok(v) <==> !OneDigit(v)
  {
    var gaps: seq<Text> := seq(|Tokens(v)| + 1, _ => []);
    DumpsIsFlat(v);
    WeaveNoGaps(Tokens(v), gaps);
    SpacedRoundTrip(v, gaps);
  }

  // ----- Section 7 of RFC 8259 -----

  predicate IsControl(c: nat) { c < 0x20 }

  /** Strings are printed with every control character escaped, as section 7 of RFC 8259 demands, exactly when
      they are free of the six control characters that StringEscapeRE passes over. */
  lemma {:induction false} ControlsEscaped(s: Text)
    ensures (forall i :: 0 <= i < |Escape(s)| ==> !IsControl(Escape(s)[i]))
       <==> (forall i :: 0 <= i < |s| ==> !(0x1A <= s[i] <= 0x1F))
  {
    if s != [] {
      var head, tail := PrintChar(s[0]), Escape(s[1..]);
      ControlsEscaped(s[1..]);
      assert forall i :: 0 <= i < |head| ==> Escape(s)[i] == head[i];
      assert forall i :: 0 <= i < |tail| ==> Escape(s)[|head| + i] == tail[i];
      assert forall i :: 0 <= i < |s| - 1 ==> s[1..][i] == s[i + 1];
      PrintedControls(s[0]);
      if (forall i :: 0 <= i < |Escape(s)| ==> !IsControl(Escape(s)[i])) {
        assert forall i :: 0 <= i < |s[1..]| ==> !(0x1A <= s[1..][i] <= 0x1F);
        assert forall i :: 0 <= i < |head| ==> !IsControl(head[i]);
        forall i | 0 <= i < |s| ensures !(0x1A <= s[i] <= 0x1F) {
          assert i > 0 ==> s[1..][i - 1] == s[i];
        }
      } else if forall i :: 0 <= i < |s| ==> !(0x1A <= s[i] <= 0x1F) {
        forall i | 0 <= i < |Escape(s)| ensures !IsControl(Escape(s)[i]) {
          assert i >= |head| ==> Escape(s)[i] == tail[i - |head|];
        }
      }
    }
  }

  lemma PrintedControls(c: nat)
    ensures (forall i :: 0 <= i < |PrintChar(c)| ==> !IsControl(PrintChar(c)[i])) <==> !(0x1A <= c <= 0x1F)
  {
    if 0x1A <= c <= 0x1F {
      assert PrintChar(c)[0] == c;
    }
  }

  // ----- Keys always sit on dictionaries -----

  /** A string in the stack, waiting as a key, has an open dictionary right below it. */
  ghost predicate KeysOnDicts(stack: seq<Value>) {
    forall i :: 0 <= i < |stack| && stack[i].Str? ==> 0 < i && stack[i - 1].Dict?
  }

  /** What a turn of the reader may end in: never a type error, and an index error only on an empty stack. */
  ghost predicate Keeps(step: Step, stack: seq<Value>) {
    && (step.Continue? ==> KeysOnDicts(step.stack))
    && (step.Raise? ==> step.error != PythonTypeError && (step.error == PythonIndexError ==> stack == []))
  }

  lemma DeliverKeepsKeysOnDicts(stack: seq<Value>, v: Value)
    requires KeysOnDicts(stack)
    ensures var step := Deliver(stack, v);
      (step.Continue? ==> KeysOnDicts(step.stack)) && (step.Raise? ==> step.error == BadKey)
  {
    if stack != [] {
      assert Pop(stack) == stack[..|stack| - 1];
      if Top(stack).Str? {
        assert stack[|stack| - 2].Dict? && Top(Pop(stack)) == stack[|stack| - 2];
      }
    }
  }

  lemma ActKeepsKeysOnDicts(token: Token, stack: seq<Value>)
    requires KeysOnDicts(stack)
    ensures Keeps(Act(token, stack), stack)
  {
    if token.Scalar? {
      DeliverKeepsKeysOnDicts(stack, token.v);
    } else if (token.CloseDict? || token.CloseList?) && stack != [] {
      DeliverKeepsKeysOnDicts(Pop(stack), Top(stack));
    }
  }

  lemma {:induction false} StringErrors(t: Text, value: Text)
    ensures var r := ScanString(t, value); r.LexError? ==> r.error != PythonTypeError
    decreases |t|
  {
    if t != [] && t[0] == BACKSLASH {
      match ScanEscape(t[1..]) {
        case Lexed(c, rest) => StringErrors(rest, value + [c]);
        case LexError(_) =>
      }
    } else if t != [] && t[0] != QUOTE {
      StringErrors(t[1..], value + [t[0]]);
    }
  }

  /** On no source does `stack[-1][key] = value` meet anything but a dictionary. */
  lemma {:induction false} LoadNeverTypeErrors(t: Text, stack: seq<Value>)
    requires KeysOnDicts(stack)
    ensures Load(t, stack) != Err(PythonTypeError)
    decreases |t|
  {
    var u := SkipSpace(t);
    SkipSpaceShortens(t);
    if u != [] && u[0] == QUOTE {
      StringErrors(u[1..], []);
    }
    if u != [] && Lex(u).Lexed? {
      ActKeepsKeysOnDicts(Lex(u).token, stack);
      match Act(Lex(u).token, stack) {
        case Continue(stack') => LoadNeverTypeErrors(Lex(u).rest, stack');
        case _ =>
      }
    }
  }
}
