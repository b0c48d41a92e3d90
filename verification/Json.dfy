/**
 The JSON printer and reader of libraries/BitCoin_Miner/jsonrpc/json.py.

 A text is a sequence of code points. The printer is pure; the reader is one loop over the
 characters with an explicit stack on which unfinished lists, unfinished dictionaries and
 pending dictionary keys are mixed. `Load` specifies that loop on the text that is left,
 and the method `Loads` is the loop itself.
 */
module Json {
  import opened Wrappers

  type Text = seq<nat>

  const TAB: nat := 0x09
  const LF: nat := 0x0A
  const CR: nat := 0x0D
  const SPACE: nat := 0x20
  const QUOTE: nat := 0x22
  const PLUS: nat := 0x2B
  const COMMA: nat := 0x2C
  const MINUS: nat := 0x2D
  const DOT: nat := 0x2E
  const SLASH: nat := 0x2F
  const ZERO: nat := 0x30
  const NINE: nat := 0x39
  const COLON: nat := 0x3A
  const LBRACKET: nat := 0x5B
  const BACKSLASH: nat := 0x5C
  const RBRACKET: nat := 0x5D
  const LBRACE: nat := 0x7B
  const RBRACE: nat := 0x7D

  const NULL_WORD: Text := [0x6E, 0x75, 0x6C, 0x6C]
  const TRUE_WORD: Text := [0x74, 0x72, 0x75, 0x65]
  const FALSE_WORD: Text := [0x66, 0x61, 0x6C, 0x73, 0x65]

  /** A Python value. `Float` is the value of float(literal); `Dict` lists its entries in the
      order in which items() yields them. */
  datatype Value =
    | Null
    | Bool(b: bool)
    | Int(n: int)
    | Float(literal: Text)
    | Str(s: Text)
    | List(items: seq<Value>)
    | Dict(entries: seq<Entry>)

  datatype Entry = Entry(key: Text, value: Value)

  // ----- Characters -----

  predicate IsSpace(c: nat) { c == SPACE || c == TAB || c == CR || c == LF }

  predicate IsDigit(c: nat) { ZERO <= c <= NINE }

  function HexDigit(d: nat): nat
    requires d < 16
  {
    if d < 10 then 0x30 + d else 0x61 + (d - 10)
  }

  function HexValue(c: nat): Option<nat> {
    if 0x30 <= c <= 0x39 then Some(c - 0x30)
    else if 0x61 <= c <= 0x66 then Some(c - 0x61 + 10)
    else if 0x41 <= c <= 0x46 then Some(c - 0x41 + 10)
    else None
  }

  /** CharReplacements: the letter after the backslash. */
  function ShortEscape(c: nat): Option<nat> {
    if c == TAB then Some(0x74)
    else if c == 0x08 then Some(0x62)
    else if c == 0x0C then Some(0x66)
    else if c == LF then Some(0x6E)
    else if c == CR then Some(0x72)
    else if c == BACKSLASH || c == SLASH || c == QUOTE then Some(c)
    else None
  }

  /** EscapeCharToChar. */
  function Unescape(c: nat): Option<nat> {
    if c == 0x74 then Some(TAB)
    else if c == 0x62 then Some(0x08)
    else if c == 0x66 then Some(0x0C)
    else if c == 0x6E then Some(LF)
    else if c == 0x72 then Some(CR)
    else if c == BACKSLASH || c == SLASH || c == QUOTE then Some(c)
    else None
  }

  // ----- The printer -----

  /** StringEscapeRE; note that its range ends at 0x19, not at 0x1F. */
  predicate MatchesEscapeRE(c: nat) {
    c <= 0x19 || c == BACKSLASH || c == QUOTE || c == SLASH
  }

  function EscapeChar(c: nat): Text {
    match ShortEscape(c)
    case Some(letter) => [BACKSLASH, letter]
    case None =>
      if c < 32 then
        [BACKSLASH, 0x75, HexDigit(c / 4096 % 16), HexDigit(c / 256 % 16), HexDigit(c / 16 % 16), HexDigit(c % 16)]
      else [c]
  }

  function PrintChar(c: nat): Text {
    if MatchesEscapeRE(c) then EscapeChar(c) else [c]
  }

  function Escape(s: Text): Text {
    if s == [] then [] else PrintChar(s[0]) + Escape(s[1..])
  }

  function Quoted(s: Text): Text {
    [QUOTE] + Escape(s) + [QUOTE]
  }

  function NatDigits(n: nat): Text {
    if n < 10 then [ZERO + n] else NatDigits(n / 10) + [ZERO + n % 10]
  }

  function IntDigits(n: int): Text {
    if n < 0 then [MINUS] + NatDigits(-n) else NatDigits(n)
  }

  /** The values the printer is asked about: no floats, and no key twice in a dictionary. */
  ghost predicate Printable(v: Value) {
    match v
    case Float(_) => false
    case List(items) => forall i :: 0 <= i < |items| ==> Printable(items[i])
    case Dict(entries) =>
      && (forall i :: 0 <= i < |entries| ==> Printable(entries[i].value))
      && (forall i, j :: 0 <= i < j < |entries| ==> entries[i].key != entries[j].key)
    case _ => true
  }

  /** The parts yielded by the generator dumpParts. */
  function DumpParts(v: Value): seq<Text>
    decreases v, 0
  {
    match v
    case Null => [NULL_WORD]
    case Bool(b) => [if b then TRUE_WORD else FALSE_WORD]
    case Dict(entries) => [[LBRACE]] + DumpEntries(entries, true) + [[RBRACE]]
    case Str(s) => [Quoted(s)]
    case List(items) => [[LBRACKET]] + DumpItems(items, true) + [[RBRACKET]]
    case Int(n) => [IntDigits(n)]
    case Float(literal) => [literal]
  }

  function DumpItems(items: seq<Value>, isFirst: bool): seq<Text>
    decreases items, 1
  {
    if items == [] then []
    else (if isFirst then [] else [[COMMA]]) + DumpParts(items[0]) + DumpItems(items[1..], false)
  }

  function DumpEntries(entries: seq<Entry>, isFirst: bool): seq<Text>
    decreases entries, 1
  {
    if entries == [] then []
    else
      (if isFirst then [] else [[COMMA]])
      + [Quoted(entries[0].key) + [COLON]]
      + DumpParts(entries[0].value)
      + DumpEntries(entries[1..], false)
  }

  function Join(parts: seq<Text>): Text {
    if parts == [] then [] else parts[0] + Join(parts[1..])
  }

  function Dumps(v: Value): Text {
    Join(DumpParts(v))
  }

  // ----- The reader: what it says of a text -----

  datatype Error =
    | EndOfSource
    | UnterminatedString
    | BadEscape
    | BadExponent
    | BadKeyword
    | UnexpectedChar
    | BadKey
    | PythonIndexError
    | PythonTypeError
    | PythonValueError

  datatype Outcome = Ok(value: Value) | Err(error: Error)

  datatype Token = OpenDict | CloseDict | OpenList | CloseList | Comma | Colon | Scalar(v: Value)

  /** A token (or the content of a string), with the text that follows it. */
  datatype Lexed<+T> = Lexed(token: T, rest: Text) | LexError(error: Error)

  function SkipSpace(t: Text): Text {
    if t != [] && IsSpace(t[0]) then SkipSpace(t[1..]) else t
  }

  /** int(code, 16), for codes made of hexadecimal digits. */
  function HexCode(t: Text): Option<nat>
    requires |t| == 4
  {
    match (HexValue(t[0]), HexValue(t[1]), HexValue(t[2]), HexValue(t[3]))
    case (Some(a), Some(b), Some(c), Some(d)) => Some(a * 4096 + b * 256 + c * 16 + d)
    case _ => None
  }

  /** One escape; `t` starts after the backslash. */
  function ScanEscape(t: Text): (r: Lexed<nat>)
    ensures r.Lexed? ==> |r.rest| < |t|
  {
    if t == [] then LexError(UnterminatedString)
    else
      match Unescape(t[0])
      case Some(c) => Lexed(c, t[1..])
      case None =>
        if t[0] != 0x75 then LexError(BadEscape)
        else if |t| < 5 then LexError(UnterminatedString)
        else
          match HexCode(t[1..5])
          case Some(c) => Lexed(c, t[5..])
          case None => LexError(PythonValueError)
  }

  /** Reads up to the closing quote; `t` starts after what went into `value`. */
  function ScanString(t: Text, value: Text): (r: Lexed<Text>)
    ensures r.Lexed? ==> |r.rest| < |t|
    decreases |t|
  {
    if t == [] then LexError(UnterminatedString)
    else if t[0] == QUOTE then Lexed(value, t[1..])
    else if t[0] == BACKSLASH then
      match ScanEscape(t[1..])
      case Lexed(c, rest) => ScanString(rest, value + [c])
      case LexError(e) => LexError(e)
    else ScanString(t[1..], value + [t[0]])
  }

  /** The first index from `k` on that holds no digit. */
  function DigitsEnd(t: Text, k: nat): (end: nat)
    requires k <= |t|
    ensures k <= end <= |t|
    decreases |t| - k
  {
    if k < |t| && IsDigit(t[k]) then DigitsEnd(t, k + 1) else k
  }

  function NatValue(digits: Text): int {
    if digits == [] then 0
    else NatValue(digits[..|digits| - 1]) * 10 + (digits[|digits| - 1] - ZERO)
  }

  /** int("".join(digits)), where only the first character may be a minus. */
  function IntValue(digits: Text): Option<int>
    requires digits != []
  {
    if digits == [MINUS] then None
    else if digits[0] == MINUS then Some(-NatValue(digits[1..]))
    else Some(NatValue(digits))
  }

  /** After a number that ends before `end` the reader looks again at the last character it took: the
      first one that is not part of the number or, at the end of the source, the last one that is. */
  function Resume(t: Text, end: nat): (k: nat)
    requires 0 < end <= |t|
    ensures k < |t|
  {
    if end == |t| then end - 1 else end
  }

  function FloatToken(t: Text, k: nat, ok: bool): Lexed<Token>
    requires 0 < k <= |t|
  {
    if ok then Lexed(Scalar(Float(t[..k])), t[Resume(t, k)..]) else LexError(PythonValueError)
  }

  /** The exponent of a float; `k` is just after the letter e. */
  function ScanExponent(t: Text, k: nat, mantissa: bool): Lexed<Token>
    requires 0 < k <= |t|
  {
    if k == |t| then LexError(PythonValueError)
    else if t[k] != PLUS && t[k] != MINUS then LexError(BadExponent)
    else
      var end := DigitsEnd(t, k + 1);
      FloatToken(t, end, mantissa && end > k + 1)
  }

  /** The fraction of a float; the dot is at `k`, and `whole` says that digits precede it. */
  function ScanFraction(t: Text, k: nat, whole: bool): Lexed<Token>
    requires 0 < k < |t|
  {
    var end := DigitsEnd(t, k + 1);
    var mantissa := whole || end > k + 1;
    if end < |t| && (t[end] == 0x65 || t[end] == 0x45) then ScanExponent(t, end + 1, mantissa)
    else FloatToken(t, end, mantissa)
  }

  /** A number; `t` starts with a digit or a minus. */
  function ScanNumber(t: Text): (r: Lexed<Token>)
    requires t != [] && (IsDigit(t[0]) || t[0] == MINUS)
    ensures r.Lexed? ==> |r.rest| < |t|
  {
    if |t| == 1 then LexError(EndOfSource)
    else
      var end := DigitsEnd(t, 1);
      if end < |t| && t[end] == DOT then ScanFraction(t, end, end > 1 || t[0] != MINUS)
      else
        match IntValue(t[..end])
        case Some(n) => Lexed(Scalar(Int(n)), t[Resume(t, end)..])
        case None => LexError(PythonValueError)
  }

  function ScanKeyword(t: Text): Lexed<Token> {
    if |t| < 4 then LexError(EndOfSource)
    else if t[..4] == NULL_WORD then Lexed(Scalar(Null), t[4..])
    else if t[..4] == TRUE_WORD then Lexed(Scalar(Bool(true)), t[4..])
    else if t[..4] == FALSE_WORD[..4] then
      if |t| == 4 then LexError(EndOfSource)
      else if t[4] == FALSE_WORD[4] then Lexed(Scalar(Bool(false)), t[5..])
      else LexError(BadKeyword)
    else LexError(BadKeyword)
  }

  function Lex(t: Text): (r: Lexed<Token>)
    requires t != []
    ensures r.Lexed? ==> |r.rest| < |t|
  {
    var c := t[0];
    if c == QUOTE then
      match ScanString(t[1..], [])
      case Lexed(s, rest) => Lexed(Scalar(Str(s)), rest)
      case LexError(e) => LexError(e)
    else if c == LBRACE then Lexed(OpenDict, t[1..])
    else if c == RBRACE then Lexed(CloseDict, t[1..])
    else if c == LBRACKET then Lexed(OpenList, t[1..])
    else if c == RBRACKET then Lexed(CloseList, t[1..])
    else if c == COMMA then Lexed(Comma, t[1..])
    else if c == COLON then Lexed(Colon, t[1..])
    else if IsDigit(c) || c == MINUS then ScanNumber(t)
    else if c == TRUE_WORD[0] || c == FALSE_WORD[0] || c == NULL_WORD[0] then ScanKeyword(t)
    else LexError(UnexpectedChar)
  }

  /** d[key] = value. */
  function Assign(entries: seq<Entry>, key: Text, value: Value): seq<Entry> {
    if entries == [] then [Entry(key, value)]
    else if entries[0].key == key then [Entry(key, value)] + entries[1..]
    else [entries[0]] + Assign(entries[1..], key, value)
  }

  /** What one turn of the loop does to the stack. */
  datatype Step = Continue(stack: seq<Value>) | Return(value: Value) | Raise(error: Error)

  function Top(stack: seq<Value>): Value
    requires stack != []
  {
    stack[|stack| - 1]
  }

  function Pop(stack: seq<Value>): seq<Value>
    requires stack != []
  {
    stack[..|stack| - 1]
  }

  /** The end of a turn that produced a value: hand it to the top of the stack. */
  function Deliver(stack: seq<Value>, v: Value): Step {
    if stack == [] then Return(v)
    else
      match Top(stack)
      case List(items) => Continue(Pop(stack) + [List(items + [v])])
      case Dict(_) => Continue(stack + [v])
      case Str(key) =>
        var below := Pop(stack);
        if below == [] then Raise(PythonIndexError)
        else (
          match Top(below)
          case Dict(entries) => Continue(Pop(below) + [Dict(Assign(entries, key, v))])
          case _ => Raise(PythonTypeError))
      case _ => Raise(BadKey)
  }

  function Act(token: Token, stack: seq<Value>): Step {
    match token
    case OpenDict => Continue(stack + [Dict([])])
    case OpenList => Continue(stack + [List([])])
    case CloseDict | CloseList =>
      if stack == [] then Raise(PythonIndexError) else Deliver(Pop(stack), Top(stack))
    case Comma | Colon => Continue(stack)
    case Scalar(v) => Deliver(stack, v)
  }

  /** The reader on the text `t` that is left, with the values under construction in `stack`. */
  function Load(t: Text, stack: seq<Value>): Outcome
    decreases |t|
  {
    var u := SkipSpace(t);
    SkipSpaceShortens(t);
    if u == [] then Err(EndOfSource)
    else
      match Lex(u)
      case LexError(e) => Err(e)
      case Lexed(token, rest) =>
        match Act(token, stack)
        case Continue(stack') => Load(rest, stack')
        case Return(v) => Ok(v)
        case Raise(e) => Err(e)
  }

  lemma SkipSpaceShortens(t: Text)
    ensures |SkipSpace(t)| <= |t|
  {
    if t != [] && IsSpace(t[0]) {
      SkipSpaceShortens(t[1..]);
    }
  }
}
