/**
 What the reader of libraries/BitCoin_Miner/jsonrpc/json.py takes, whether its printer writes it or not: every spelling
 of a string, numbers digit by digit, floats, and keys that come twice.
 */
module JsonSpellings {
  import opened Arithmetic
  import opened Json
  import opened JsonProofs
  import opened Wrappers

  /** The code points of a text of ASCII characters. */
  function Codes(s: string): (t: Text)
    ensures |t| == |s|
  {
    seq(|s|, i requires 0 <= i < |s| => s[i] as nat)
  }

  /** The marks and words of section 2 of RFC 8259. */
  lemma TokensSpelled()
    ensures Spell(OpenDict) == Codes("{") && Spell(CloseDict) == Codes("}")
    ensures Spell(OpenList) == Codes("[") && Spell(CloseList) == Codes("]")
    ensures Spell(Comma) == Codes(",") && Spell(Colon) == Codes(":")
    ensures Spell(Scalar(Null)) == Codes("null")
    ensures Spell(Scalar(Bool(true))) == Codes("true") && Spell(Scalar(Bool(false))) == Codes("false")
    ensures Quoted([]) == Codes("\"\"") && IntDigits(-7) == Codes("-7")
    ensures forall c: nat :: IsSpace(c) <==> c == ' ' as nat || c == '\t' as nat || c == '\n' as nat || c == '\r' as nat
  {
    SpellScalar(Null);
    SpellScalar(Bool(true));
    SpellScalar(Bool(false));
    WordCodes();
  }

  lemma WordCodes()
    ensures NULL_WORD == Codes("null") && TRUE_WORD == Codes("true") && FALSE_WORD == Codes("false")
  {
  }

  // ----- Escapes -----

  const LOWER_DIGITS: string := "0123456789abcdef"
  const UPPER_DIGITS: string := "0123456789ABCDEF"

  /** In either case. */
  predicate SpellsDigit(c: nat, d: nat)
    requires d < 16
  {
    c == LOWER_DIGITS[d] as nat || c == UPPER_DIGITS[d] as nat
  }

  /** Four digits, the highest first. */
  predicate SpellsCode(digits: Text, code: nat) {
    && |digits| == 4 && code < 0x1_0000
    && SpellsDigit(digits[0], code / 0x1000) && SpellsDigit(digits[1], code / 0x100 % 0x10)
    && SpellsDigit(digits[2], code / 0x10 % 0x10) && SpellsDigit(digits[3], code % 0x10)
  }

  lemma DigitSpelled(c: nat, d: nat)
    requires d < 16
    ensures SpellsDigit(c, d) <==> HexValue(c) == Some(d)
  {
  }

  /** The printer writes them in lower case. */
  lemma DigitPrinted(d: nat)
    requires d < 16
    ensures HexDigit(d) == LOWER_DIGITS[d] as nat
  {
  }

  lemma CodeDigits(a: nat, b: nat, c: nat, d: nat)
    requires a < 16 && b < 16 && c < 16 && d < 16
    ensures var code := a * 4096 + b * 256 + c * 16 + d;
      code < 0x1_0000 && code / 0x1000 == a && code / 0x100 % 0x10 == b && code / 0x10 % 0x10 == c && code % 0x10 == d
  {
    var x := a * 16 + b;
    var y := x * 16 + c;
    var code := y * 16 + d;
    LastHex(a, b);
    LastHex(x, c);
    LastHex(y, d);
    assert code / 0x100 == code / 0x10 / 0x10 && code / 0x1000 == code / 0x100 / 0x10;
  }

  lemma LastHex(x: nat, d: nat)
    requires d < 16
    ensures (x * 16 + d) / 16 == x && (x * 16 + d) % 16 == d
  {
  }

  lemma CodeOfDigits(code: nat)
    requires code < 0x1_0000
    ensures code == code / 0x1000 * 4096 + code / 0x100 % 0x10 * 256 + code / 0x10 % 0x10 * 16 + code % 0x10
    ensures code / 0x1000 < 16
  {
  }

  lemma HexValueBound(c: nat)
    ensures HexValue(c).Some? ==> HexValue(c).value < 16
  {
  }

  lemma CodeSpelled(digits: Text, code: nat)
    requires |digits| == 4
    ensures SpellsCode(digits, code) <==> HexCode(digits) == Some(code)
  {
    hide HexValue, SpellsDigit;
    HexValueBound(digits[0]);
    HexValueBound(digits[1]);
    HexValueBound(digits[2]);
    HexValueBound(digits[3]);
    if code < 0x1_0000 {
      CodeOfDigits(code);
      DigitSpelled(digits[0], code / 0x1000);
      DigitSpelled(digits[1], code / 0x100 % 0x10);
      DigitSpelled(digits[2], code / 0x10 % 0x10);
      DigitSpelled(digits[3], code % 0x10);
    }
    if HexCode(digits).Some? {
      CodeDigits(HexValue(digits[0]).value, HexValue(digits[1]).value, HexValue(digits[2]).value,
                 HexValue(digits[3]).value);
    }
  }

  /** The long form of an escape stands for the code that its four digits spell, in either case; any other four
      characters fail. */
  lemma CodeScans(digits: Text, tail: Text)
    requires |digits| == 4
    ensures var r := ScanEscape([0x75] + digits + tail);
      && (forall code: nat :: r == Lexed(code, tail) <==> SpellsCode(digits, code))
      && (r.Lexed? || r == LexError(PythonValueError))
      && (r.Lexed? ==> r.rest == tail)
  {
    hide HexCode, SpellsCode;
    var t := [0x75] + digits + tail;
    assert t[1..5] == digits && t[5..] == tail && t[0] == 0x75;
    forall code: nat ensures SpellsCode(digits, code) <==> HexCode(digits) == Some(code) {
      CodeSpelled(digits, code);
    }
  }

  /** The short forms of section 7 of RFC 8259. */
  function ShortForm(letter: char): Option<char> {
    match letter
    case '"' => Some('"')
    case '\\' => Some('\\')
    case '/' => Some('/')
    case 'b' => Some('\U{0008}')
    case 'f' => Some('\U{000C}')
    case 'n' => Some('\n')
    case 'r' => Some('\r')
    case 't' => Some('\t')
    case _ => None
  }

  predicate SpellsShort(letter: nat, c: nat) {
    letter < 0x80 && ShortForm(letter as char).Some? && c == ShortForm(letter as char).value as nat
  }

  lemma ShortScans(letter: nat, tail: Text)
    ensures letter != 0x75 ==>
      var r := ScanEscape([letter] + tail);
      && (forall c: nat :: r == Lexed(c, tail) <==> SpellsShort(letter, c))
      && (r.Lexed? || r == LexError(BadEscape))
      && (r.Lexed? ==> r.rest == tail)
  {
    var t := [letter] + tail;
    assert t[0] == letter && t[1..] == tail;
  }

  /** A character that has a short form is printed in it, and any other one up to 0x19 by its code. */
  lemma PrintedForm(c: nat, letter: nat)
    ensures SpellsShort(letter, c) ==> PrintChar(c) == [BACKSLASH, letter]
    ensures (forall other: nat :: !SpellsShort(other, c)) ==>
      PrintChar(c) == if c > 0x19 then [c]
                      else Codes("\\u00") + [LOWER_DIGITS[c / 16] as nat, LOWER_DIGITS[c % 16] as nat]
  {
    hide Codes, HexDigit;
    if exists known: nat :: SpellsShort(known, c) {
    } else if c <= 0x19 {
      assert !SpellsShort('b' as nat, c) && !SpellsShort('f' as nat, c) && !SpellsShort('n' as nat, c);
      assert !SpellsShort('r' as nat, c) && !SpellsShort('t' as nat, c);
      DigitPrinted(0);
      DigitPrinted(c / 16);
      DigitPrinted(c % 16);
      LongStart();
    } else {
      assert !SpellsShort('"' as nat, c) && !SpellsShort('\\' as nat, c) && !SpellsShort('/' as nat, c);
    }
  }

  lemma LongStart()
    ensures Codes("\\u00") == [BACKSLASH, 0x75, '0' as nat, '0' as nat] && LOWER_DIGITS[0] == '0'
  {
  }

  // ----- String literals -----

  /** How one character of a string literal is written. */
  datatype Spelling = Plain | Short(letter: nat) | Code(digits: Text)

  predicate Spells(spelling: Spelling, c: nat) {
    match spelling
    case Plain => c != QUOTE && c != BACKSLASH
    case Short(letter) => SpellsShort(letter, c)
    case Code(digits) => SpellsCode(digits, c)
  }

  function Written(spelling: Spelling, c: nat): Text {
    match spelling
    case Plain => [c]
    case Short(letter) => [BACKSLASH, letter]
    case Code(digits) => [BACKSLASH, 0x75] + digits
  }

  ghost predicate SpellsAll(spellings: seq<Spelling>, s: Text) {
    |spellings| == |s| && forall i :: 0 <= i < |s| ==> Spells(spellings[i], s[i])
  }

  function Literal(spellings: seq<Spelling>, s: Text): Text
    requires |spellings| == |s|
  {
    if s == [] then [] else Written(spellings[0], s[0]) + Literal(spellings[1..], s[1..])
  }

  lemma CharScans(spelling: Spelling, c: nat, tail: Text, value: Text)
    requires Spells(spelling, c)
    ensures ScanString(Written(spelling, c) + tail, value) == ScanString(tail, value + [c])
  {
    hide ScanEscape, SpellsCode, SpellsShort;
    var t := Written(spelling, c) + tail;
    match spelling
    case Plain => assert t[0] == c && t[1..] == tail;
    case Short(letter) =>
      ShortScans(letter, tail);
      NotLong(letter, c);
      assert t[0] == BACKSLASH && t[1..] == [letter] + tail;
    case Code(digits) =>
      CodeLength(digits, c);
      CodeScans(digits, tail);
      assert t[0] == BACKSLASH && t[1..] == [0x75] + digits + tail;
  }

  lemma NotLong(letter: nat, c: nat)
    requires SpellsShort(letter, c)
    ensures letter != 0x75
  {
  }

  lemma CodeLength(digits: Text, code: nat)
    requires SpellsCode(digits, code)
    ensures |digits| == 4
  {
  }

  /** Every spelling of a string is read as that string, whatever follows the literal. */
  lemma {:induction false} LiteralScans(spellings: seq<Spelling>, s: Text, tail: Text, value: Text)
    requires SpellsAll(spellings, s)
    ensures ScanString(Literal(spellings, s) + [QUOTE] + tail, value) == Lexed(value + s, tail)
    decreases |s|
  {
    hide Spells, Written;
    if s == [] {
      assert Literal(spellings, s) + [QUOTE] + tail == [QUOTE] + tail;
      assert ([QUOTE] + tail)[0] == QUOTE && ([QUOTE] + tail)[1..] == tail;
      assert value + s == value;
    } else {
      var more := Literal(spellings[1..], s[1..]) + [QUOTE] + tail;
      assert Literal(spellings, s) + [QUOTE] + tail == Written(spellings[0], s[0]) + more;
      CharScans(spellings[0], s[0], more, value);
      LiteralScans(spellings[1..], s[1..], tail, value + [s[0]]);
      assert value + [s[0]] + s[1..] == value + s;
    }
  }

  /** Nothing else is read as a string. */
  lemma {:induction false} ScannedIsLiteral(t: Text, value: Text) returns (spellings: seq<Spelling>, s: Text)
    requires ScanString(t, value).Lexed?
    ensures ScanString(t, value).token == value + s && SpellsAll(spellings, s)
    ensures t == Literal(spellings, s) + [QUOTE] + ScanString(t, value).rest
    decreases |t|
  {
    hide Spells, Written, ScanEscape;
    if t[0] == QUOTE {
      spellings, s := [], [];
      assert value + s == value;
      assert t == [] + [QUOTE] + t[1..];
    } else {
      var spelling, c, rest := ScannedChar(t);
      ScannedNext(t, value, spelling, c, rest);
      var more, s' := ScannedIsLiteral(rest, value + [c]);
      spellings, s := [spelling] + more, [c] + s';
      assert spellings[1..] == more && s[1..] == s';
      assert value + [c] + s' == value + s;
      assert Literal(spellings, s) == Written(spelling, c) + Literal(more, s');
    }
  }

  lemma ScannedNext(t: Text, value: Text, spelling: Spelling, c: nat, rest: Text)
    requires ScanString(t, value).Lexed? && t[0] != QUOTE
    requires Spells(spelling, c) && t == Written(spelling, c) + rest
    ensures ScanString(t, value) == ScanString(rest, value + [c]) && |rest| < |t|
  {
    hide ScanString;
    CharScans(spelling, c, rest, value);
  }

  lemma ScannedChar(t: Text) returns (spelling: Spelling, c: nat, rest: Text)
    requires t != [] && t[0] != QUOTE && (t[0] == BACKSLASH ==> ScanEscape(t[1..]).Lexed?)
    ensures Spells(spelling, c) && t == Written(spelling, c) + rest
  {
    hide SpellsCode, SpellsShort;
    if t[0] != BACKSLASH {
      spelling, c, rest := Plain, t[0], t[1..];
    } else if t[1] == 0x75 {
      var digits := t[2..6];
      spelling, c, rest := Code(digits), ScanEscape(t[1..]).token, t[6..];
      assert t[1..] == [0x75] + digits + rest;
      CodeScans(digits, rest);
    } else {
      spelling, c, rest := Short(t[1]), ScanEscape(t[1..]).token, t[2..];
      assert t[1..] == [t[1]] + rest;
      ShortScans(t[1], rest);
    }
  }

  lemma LiteralLexes(spellings: seq<Spelling>, s: Text, tail: Text)
    requires SpellsAll(spellings, s)
    ensures Lex([QUOTE] + Literal(spellings, s) + [QUOTE] + tail) == Lexed(Scalar(Str(s)), tail)
  {
    hide Literal, ScanString;
    var t := [QUOTE] + Literal(spellings, s) + [QUOTE] + tail;
    LiteralScans(spellings, s, tail, []);
    assert t[0] == QUOTE && t[1..] == Literal(spellings, s) + [QUOTE] + tail && [] + s == s;
  }

  /** A source that is a string literal in any spelling loads as the string. */
  lemma LiteralLoads(spellings: seq<Spelling>, s: Text)
    requires SpellsAll(spellings, s)
    ensures Load([QUOTE] + Literal(spellings, s) + [QUOTE], []) == Ok(Str(s))
  {
    hide Literal, Lex;
    var t := [QUOTE] + Literal(spellings, s) + [QUOTE];
    LiteralLexes(spellings, s, []);
    assert t + [] == t && t[0] == QUOTE && SkipSpace(t) == t;
  }

  // ----- Whole numbers -----

  function Pow10(n: nat): nat { if n == 0 then 1 else 10 * Pow10(n - 1) }

  ghost predicate Digits(d: Text) { forall i :: 0 <= i < |d| ==> IsDigit(d[i]) }

  /** What digits are worth by their places, from the left. */
  function Places(d: Text): int {
    if d == [] then 0 else (d[0] - '0' as int) * Pow10(|d| - 1) + Places(d[1..])
  }

  lemma {:induction false} LastPlace(d: Text, c: nat)
    ensures Places(d + [c]) == Places(d) * 10 + (c - '0' as int)
    decreases |d|
  {
    if d == [] {
      assert [c][1..] == [];
    } else {
      assert (d + [c])[1..] == d[1..] + [c];
      LastPlace(d[1..], c);
    }
  }

  lemma {:induction false} ValueByPlaces(d: Text)
    ensures NatValue(d) == Places(d)
    decreases |d|
  {
    if d != [] {
      var last := |d| - 1;
      ValueByPlaces(d[..last]);
      LastPlace(d[..last], d[last]);
      assert d[..last] + [d[last]] == d;
    }
  }

  function Signed(minus: bool, d: Text): Text { if minus then [MINUS] + d else d }

  lemma SignedValue(minus: bool, d: Text)
    requires d != [] && Digits(d)
    ensures IntValue(Signed(minus, d)) == Some(if minus then -Places(d) else Places(d))
  {
    ValueByPlaces(d);
    if minus {
      assert ([MINUS] + d)[1..] == d;
    }
  }

  /** Any digits are read, leading zeros too, as what they are worth; but not a single one at the end of the source. */
  lemma NumberScans(minus: bool, d: Text, tail: Text)
    requires d != [] && Digits(d) && (tail == [] || !ExtendsNumber(tail[0]))
    ensures var t := Signed(minus, d) + tail;
      t != [] && (IsDigit(t[0]) || t[0] == MINUS)
      && ScanNumber(t) ==
         if |t| == 1 then LexError(EndOfSource)
         else Lexed(Scalar(Int(if minus then -Places(d) else Places(d))), if tail == [] then t[|t| - 1..] else tail)
  {
    hide IntValue, Places, DigitsEnd;
    var number := Signed(minus, d);
    var t := number + tail;
    SignedValue(minus, d);
    assert t[..|number|] == number && t[|number|..] == tail && t[0] == number[0];
    if |t| > 1 {
      DigitsEndAt(t, 1, |number|);
    }
  }

  /** A sign without digits fails. */
  lemma SignFails(tail: Text)
    requires tail != [] && !IsDigit(tail[0]) && tail[0] != DOT
    ensures ScanNumber([MINUS] + tail) == LexError(PythonValueError)
  {
    assert ([MINUS] + tail)[..1] == [MINUS];
  }

  /** A printed number has no leading zeros. */
  lemma {:induction false} NoLeadingZeros(n: nat)
    ensures NatDigits(n)[0] == '0' as nat <==> n == 0
    ensures Digits(NatDigits(n)) && Places(NatDigits(n)) == n
    decreases n
  {
    NatDigitsRead(n);
    ValueByPlaces(NatDigits(n));
    if n >= 10 {
      NatDigitsRead(n / 10);
      NoLeadingZeros(n / 10);
    }
  }

  // ----- Floats -----

  datatype Exponent = Exponent(letter: nat, sign: nat, digits: Text)

  datatype FloatText = FloatText(minus: bool, whole: Text, fraction: Text, exponent: Option<Exponent>) {
    /** The sign of an exponent is not optional. */
    ghost predicate Shaped() {
      && Digits(whole) && Digits(fraction) && (minus || whole != [])
      && match exponent
         case None => true
         case Some(e) =>
           && (e.letter == 'e' as nat || e.letter == 'E' as nat) && (e.sign == '+' as nat || e.sign == '-' as nat)
           && Digits(e.digits)
    }

    /** There are digits where there must be some. */
    ghost predicate Legal() {
      Shaped() && whole + fraction != [] && (exponent.Some? ==> exponent.value.digits != [])
    }

    function Mantissa(): Text { (if minus then [MINUS] else []) + whole + [DOT] + fraction }

    function Written(): Text {
      match exponent
      case None => Mantissa()
      case Some(e) => Mantissa() + [e.letter, e.sign] + e.digits
    }

    /** What follows is not taken for a part of it. */
    predicate EndsBefore(tail: Text) {
      tail == [] || (!IsDigit(tail[0])
                     && (exponent.None? ==> tail[0] != 'e' as nat && tail[0] != 'E' as nat))
    }
  }

  lemma MantissaScans(f: FloatText, rest: Text)
    requires Digits(f.whole) && Digits(f.fraction) && (f.minus || f.whole != [])
    requires rest == [] || !IsDigit(rest[0])
    ensures var t, dot := f.Mantissa() + rest, |f.Mantissa()| - 1 - |f.fraction|;
      && |t| > 1 && (IsDigit(t[0]) || t[0] == MINUS) && 0 < dot < |t| && t[dot] == DOT
      && DigitsEnd(t, 1) == dot && DigitsEnd(t, dot + 1) == |f.Mantissa()|
      && (dot > 1 || t[0] != MINUS <==> f.whole != [])
  {
    var t, dot := f.Mantissa() + rest, |f.Mantissa()| - 1 - |f.fraction|;
    var first := if f.minus then 1 else 0;
    forall i | first <= i < dot ensures t[i] == f.whole[i - first] {
    }
    forall i | dot < i < |f.Mantissa()| ensures t[i] == f.fraction[i - dot - 1] {
    }
    DigitsEndAt(t, 1, dot);
    DigitsEndAt(t, dot + 1, |f.Mantissa()|);
  }

  lemma PlainFloatScans(f: FloatText, tail: Text, t: Text)
    requires f.Shaped() && f.EndsBefore(tail) && f.exponent.None? && t == f.Mantissa() + tail
    ensures t != [] && (IsDigit(t[0]) || t[0] == MINUS)
    ensures ScanNumber(t) == if f.whole + f.fraction == [] then LexError(PythonValueError)
                             else Lexed(Scalar(Float(f.Mantissa())), if tail == [] then t[|t| - 1..] else tail)
  {
    hide DigitsEnd, IntValue, FloatText.Mantissa;
    MantissaScans(f, tail);
    assert t[..|f.Mantissa()|] == f.Mantissa() && t[|f.Mantissa()|..] == tail;
  }

  lemma ExponentFloatScans(f: FloatText, e: Exponent, tail: Text, t: Text)
    requires f.Shaped() && f.EndsBefore(tail) && f.exponent == Some(e) && t == f.Written() + tail
    ensures t != [] && (IsDigit(t[0]) || t[0] == MINUS)
    ensures ScanNumber(t) == if f.whole + f.fraction == [] || e.digits == [] then LexError(PythonValueError)
                             else Lexed(Scalar(Float(f.Written())), if tail == [] then t[|t| - 1..] else tail)
  {
    hide DigitsEnd, IntValue, FloatText.Mantissa, FloatText.Written;
    var n := |f.Mantissa()|;
    ExponentScans(f, e, tail, t, n, n + 2 + |e.digits|);
    MantissaScans(f, [e.letter, e.sign] + e.digits + tail);
  }

  /** A float is read as its literal exactly when it has digits where it must, and else it fails: what Python makes of
      the literal is not part of this model. */
  lemma FloatScans(f: FloatText, tail: Text)
    requires f.Shaped() && f.EndsBefore(tail)
    ensures var t := f.Written() + tail;
      t != [] && (IsDigit(t[0]) || t[0] == MINUS)
      && ScanNumber(t) == if f.Legal() then
                            Lexed(Scalar(Float(f.Written())), if tail == [] then t[|t| - 1..] else tail)
                          else LexError(PythonValueError)
  {
    hide ScanNumber, FloatText.Mantissa, FloatText.Shaped, FloatText.EndsBefore;
    match f.exponent
    case None => PlainFloatScans(f, tail, f.Written() + tail);
    case Some(e) => ExponentFloatScans(f, e, tail, f.Written() + tail);
  }

  lemma ExponentScans(f: FloatText, e: Exponent, tail: Text, t: Text, n: nat, end: nat)
    requires f.exponent == Some(e) && Digits(e.digits) && (tail == [] || !IsDigit(tail[0]))
    requires t == f.Written() + tail && n == |f.Mantissa()| && end == n + 2 + |e.digits|
    ensures t == f.Mantissa() + ([e.letter, e.sign] + e.digits + tail) && end <= |t|
    ensures t[n] == e.letter && t[n + 1] == e.sign && DigitsEnd(t, n + 2) == end
    ensures t[end..] == tail && t[..end] == f.Written()
  {
    hide DigitsEnd, FloatText.Mantissa;
    forall i | n + 2 <= i < end ensures t[i] == e.digits[i - n - 2] {
    }
    DigitsEndAt(t, n + 2, end);
  }

  /** An exponent without a sign fails. */
  lemma ExponentNeedsSign(f: FloatText, letter: nat, tail: Text)
    requires f.Shaped() && f.exponent.None? && (letter == 'e' as nat || letter == 'E' as nat)
    requires tail != [] && tail[0] != '+' as nat && tail[0] != '-' as nat
    ensures ScanNumber(f.Written() + [letter] + tail) == LexError(BadExponent)
  {
    hide DigitsEnd, IntValue, FloatText.Mantissa;
    var rest := [letter] + tail;
    assert f.Written() + [letter] + tail == f.Mantissa() + rest;
    MantissaScans(f, rest);
  }

  // ----- Keys -----

  /** What a dictionary holds under a key. */
  function Lookup(entries: seq<Entry>, key: Text): Option<Value> {
    if entries == [] then None
    else if entries[0].key == key then Some(entries[0].value)
    else Lookup(entries[1..], key)
  }

  function Keys(entries: seq<Entry>): seq<Text> {
    if entries == [] then [] else [entries[0].key] + Keys(entries[1..])
  }

  /** A key that comes again gets the later value in its first place; another one comes last. */
  lemma {:induction false} AssignMeans(entries: seq<Entry>, key: Text, value: Value, other: Text)
    ensures var after := Assign(entries, key, value);
      && Lookup(after, other) == (if other == key then Some(value) else Lookup(entries, other))
      && Keys(after) == if key in Keys(entries) then Keys(entries) else Keys(entries) + [key]
    decreases |entries|
  {
    if entries != [] && entries[0].key != key {
      AssignMeans(entries[1..], key, value, other);
      var rest := Assign(entries[1..], key, value);
      assert ([entries[0]] + rest)[1..] == rest;
    } else if entries != [] {
      assert ([Entry(key, value)] + entries[1..])[1..] == entries[1..];
    } else {
      assert [Entry(key, value)][1..] == [];
    }
  }

  // ----- Marks -----

  /** Commas and colons, and which bracket closes, are of no account. */
  function Simplified(tokens: seq<Token>): seq<Token> {
    if tokens == [] then []
    else (match tokens[0]
          case Comma => []
          case Colon => []
          case CloseDict => [CloseList]
          case token => [token]) + Simplified(tokens[1..])
  }

  lemma {:induction false} MarksIgnored(tokens: seq<Token>, stack: seq<Value>)
    ensures Run(tokens, stack) == Run(Simplified(tokens), stack)
    decreases |tokens|
  {
    if tokens != [] {
      var rest := Simplified(tokens[1..]);
      match tokens[0] {
        case Comma =>
          assert [] + rest == rest;
          MarksIgnored(tokens[1..], stack);
        case Colon =>
          assert [] + rest == rest;
          MarksIgnored(tokens[1..], stack);
        case token =>
          var first := if token == CloseDict then CloseList else token;
          assert ([first] + rest)[1..] == rest;
          match Act(token, stack) {
            case Continue(stack') => MarksIgnored(tokens[1..], stack');
            case _ =>
          }
      }
    }
  }
}
