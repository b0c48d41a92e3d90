/**
 The reader `loads` as the loop it is: `i` is the position of the iterator over the source and
 `c` the last character taken from it. Each method is proved equal to its specification in
 module Json on the text that is left.
 */
module JsonReader {
  import opened Json
  import opened Wrappers

  /** The specification's view of what a branch of the reader leaves in its variables. */
  function Result<T>(value: T, error: Option<Error>, rest: Text): Lexed<T> {
    match error
    case None => Lexed(value, rest)
    case Some(e) => LexError(e)
  }

  /** What a backslash in a string stands for; the backslash has been taken. */
  method ReadEscape(s: Text, start: nat) returns (plain: nat, error: Option<Error>, i: nat)
    requires start <= |s|
    ensures start <= i <= |s|
    ensures ScanEscape(s[start..]) == Result(plain, error, s[i..])
  {
    plain, error, i := 0, None, start;
    ghost var t := s[start..];
    if i == |s| {
      return plain, Some(UnterminatedString), i;
    }
    var c := s[i];
    i := i + 1;
    match Unescape(c) {
      case Some(p) =>
        plain := p;
      case None =>
        if c != 0x75 {
          return plain, Some(BadEscape), i;
        }
        if |s| - i < 4 {
          return plain, Some(UnterminatedString), |s|;
        }
        var hexCode := s[i..i + 4];
        assert hexCode == t[1..5];
        i := i + 4;
        match HexCode(hexCode) {
          case Some(p) => plain := p;
          case None => error := Some(PythonValueError);
        }
    }
  }

  /** The branch of `loads` for a quoted string; the opening quote has been taken. */
  method ReadString(s: Text, start: nat) returns (value: Text, error: Option<Error>, i: nat)
    requires start <= |s|
    ensures i <= |s|
    ensures ScanString(s[start..], []) == Result(value, error, s[i..])
  {
    hide ScanEscape;
    value, error, i := [], None, start;
    if i == |s| {
      return value, Some(UnterminatedString), i;
    }
    var c := s[i];
    i := i + 1;
    while c != QUOTE
      invariant start < i <= |s| && c == s[i - 1] && error == None
      invariant ScanString(s[start..], []) == ScanString(s[i - 1..], value)
      decreases |s| - i
    {
      assert s[i - 1..][0] == c && s[i - 1..][1..] == s[i..];
      if c == BACKSLASH {
        var plain;
        plain, error, i := ReadEscape(s, i);
        if error.Some? {
          return;
        }
        value := value + [plain];
      } else {
        value := value + [c];
      }
      if i == |s| {
        return value, Some(UnterminatedString), i;
      }
      c := s[i];
      i := i + 1;
    }
    assert s[i - 1..][1..] == s[i..];
  }

  /** One of the inner loops over digits, on the text from the number on: t[k] is the current character,
      `digits` holds the characters before it, and `stopped` reports that the source ended. */
  method TakeDigits(t: Text, from: nat, taken: Text) returns (digits: Text, k: nat, stopped: bool)
    requires 0 < from < |t| && taken == t[..from]
    ensures var end := DigitsEnd(t, from);
            digits == t[..end] && k == Resume(t, end) && stopped == (end == |t|)
  {
    digits, k, stopped := taken, from, false;
    while IsDigit(t[k])
      invariant from <= k < |t| && digits == t[..k]
      invariant DigitsEnd(t, from) == DigitsEnd(t, k)
      decreases |t| - k
    {
      digits := digits + [t[k]];
      if k + 1 == |t| {
        return digits, k, true;
      }
      k := k + 1;
    }
  }

  /** The branch of `loads` for a number, which starts at the front of `t`. On success the current
      character, t[k], is the next one to look at. */
  method ReadNumber(t: Text) returns (value: Value, error: Option<Error>, k: nat)
    requires t != [] && (IsDigit(t[0]) || t[0] == MINUS)
    ensures k < |t|
    ensures ScanNumber(t) == Result(Scalar(value), error, t[k..])
  {
    value, error, k := Null, None, 0;
    var digits, stopped := [t[k]], false;
    if k + 1 == |t| {
      return value, Some(EndOfSource), k;
    }
    k := k + 1;
    digits, k, stopped := TakeDigits(t, k, digits);
    if !stopped && t[k] == DOT {
      value, error, k := ReadFraction(t, k, digits, |digits| > 1 || digits[0] != MINUS);
    } else {
      match IntValue(digits) {
        case Some(n) => value := Int(n);
        case None => error := Some(PythonValueError);
      }
    }
  }

  /** The part of the number branch after a dot, which is the current character. */
  method ReadFraction(t: Text, dot: nat, taken: Text, whole: bool) returns (value: Value, error: Option<Error>, k: nat)
    requires 0 < dot < |t| && taken == t[..dot]
    ensures k < |t|
    ensures ScanFraction(t, dot, whole) == Result(Scalar(value), error, t[k..])
  {
    value, error, k := Null, None, dot;
    var digits, stopped := taken + [t[k]], k + 1 == |t|;
    assert digits == t[..k + 1];
    if !stopped {
      k := k + 1;
      digits, k, stopped := TakeDigits(t, k, digits);
    }
    var mantissa := whole || |digits| > dot + 1;
    if !stopped && (t[k] == 0x65 || t[k] == 0x45) {
      value, error, k := ReadExponent(t, k, digits, mantissa);
    } else if mantissa {
      value := Float(digits);
    } else {
      error := Some(PythonValueError);
    }
  }

  /** The part of the number branch after the letter e, which is the current character. */
  method ReadExponent(t: Text, e: nat, taken: Text, mantissa: bool) returns (value: Value, error: Option<Error>, k: nat)
    requires 0 < e < |t| && taken == t[..e]
    ensures k < |t|
    ensures ScanExponent(t, e + 1, mantissa) == Result(Scalar(value), error, t[k..])
  {
    value, error, k := Null, None, e;
    var digits := taken + [t[k]];
    if k + 1 == |t| {
      return value, Some(PythonValueError), k;
    }
    k := k + 1;
    if t[k] != PLUS && t[k] != MINUS {
      return value, Some(BadExponent), k;
    }
    digits := digits + [t[k]];
    assert digits == t[..k + 1];
    if k + 1 < |t| {
      var stopped;
      k := k + 1;
      digits, k, stopped := TakeDigits(t, k, digits);
    }
    if mantissa && |digits| > e + 2 {
      value := Float(digits);
    } else {
      error := Some(PythonValueError);
    }
  }

  /** The branch of `loads` for null, true and false, whose first letter is s[first - 1]. */
  method ReadKeyword(s: Text, first: nat) returns (value: Value, error: Option<Error>, i: nat)
    requires 0 < first <= |s|
    ensures i <= |s|
    ensures ScanKeyword(s[first - 1..]) == Result(Scalar(value), error, s[i..])
  {
    value, error, i := Null, None, first;
    if |s| - i < 3 {
      return value, Some(EndOfSource), |s|;
    }
    var kw := s[i - 1..i + 3];
    ghost var t := s[first - 1..];
    i := i + 3;
    assert kw == t[..4] && t[4..] == s[i..];
    if kw == NULL_WORD {
      value := Null;
    } else if kw == TRUE_WORD {
      value := Bool(true);
    } else if kw == FALSE_WORD[..4] {
      if i == |s| {
        return value, Some(EndOfSource), i;
      }
      var c := s[i];
      i := i + 1;
      assert t[5..] == s[i..];
      if c == FALSE_WORD[4] {
        value := Bool(false);
      } else {
        error := Some(BadKeyword);
      }
    } else {
      error := Some(BadKeyword);
    }
  }

  /** The current character after whitespace, or None when the source ends first. */
  method NextNonSpace(s: Text, from: nat, currCharIsNext: bool) returns (found: bool, i: nat)
    requires from <= |s| && (currCharIsNext ==> 0 < from)
    ensures i <= |s| && (found ==> 0 < i)
    ensures SkipSpace(s[if currCharIsNext then from - 1 else from..]) == if found then s[i - 1..] else []
    ensures found ==> !IsSpace(s[i - 1])
  {
    i := from;
    if !currCharIsNext {
      if i == |s| {
        return false, i;
      }
      i := i + 1;
    }
    ghost var t := s[i - 1..];
    while IsSpace(s[i - 1])
      invariant 0 < i <= |s|
      invariant SkipSpace(t) == SkipSpace(s[i - 1..])
      decreases |s| - i
    {
      assert s[i - 1..][1..] == s[i..];
      if i == |s| {
        return false, i;
      }
      i := i + 1;
    }
    found := true;
  }

  /** The choice made on the current character c = s[i - 1]: the next token, the position after it,
      and whether the current character is to be looked at again. */
  method ReadToken(s: Text, from: nat) returns (token: Token, error: Option<Error>, i: nat, currCharIsNext: bool)
    requires 0 < from <= |s|
    ensures i <= |s| && (currCharIsNext ==> 0 < i)
    ensures Lex(s[from - 1..]) == Result(token, error, s[if currCharIsNext then i - 1 else i..])
  {
    token, error, i, currCharIsNext := Comma, None, from, false;
    var c := s[i - 1];
    assert s[i - 1..][1..] == s[i..];
    if c == QUOTE {
      var text;
      text, error, i := ReadString(s, i);
      token := Scalar(Str(text));
    } else if c == LBRACE {
      token := OpenDict;
    } else if c == RBRACE {
      token := CloseDict;
    } else if c == LBRACKET {
      token := OpenList;
    } else if c == RBRACKET {
      token := CloseList;
    } else if c == COMMA {
      token := Comma;
    } else if c == COLON {
      token := Colon;
    } else if IsDigit(c) || c == MINUS {
      var value;
      var t, k := s[i - 1..], 0;
      value, error, k := ReadNumber(t);
      token := Scalar(value);
      assert t[k..] == s[i - 1 + k..];
      i := i + k;
      currCharIsNext := true;
    } else if c == TRUE_WORD[0] || c == FALSE_WORD[0] || c == NULL_WORD[0] {
      var value;
      value, error, i := ReadKeyword(s, i);
      token := Scalar(value);
    } else {
      error := Some(UnexpectedChar);
    }
  }

  /** loads(s): the result, or the exception that leaves it. */
  method Loads(s: Text) returns (r: Outcome)
    ensures r == Load(s, [])
  {
    var stack: seq<Value> := [];
    var i := 0;
    var currCharIsNext := false;
    assert s[0..] == s;
    while true
      invariant i <= |s| && (currCharIsNext ==> 0 < i)
      invariant Load(s, []) == Load(s[if currCharIsNext then i - 1 else i..], stack)
      decreases |s| - i + if currCharIsNext then 1 else 0
    {
      SkipSpaceShortens(s[if currCharIsNext then i - 1 else i..]);
      var found, token, error;
      found, i := NextNonSpace(s, i, currCharIsNext);
      if !found {
        return Err(EndOfSource);
      }
      token, error, i, currCharIsNext := ReadToken(s, i);
      if error.Some? {
        return Err(error.value);
      }
      var value := Null;
      match token {
        case Comma | Colon =>
          continue;
        case OpenDict =>
          stack := stack + [Dict([])];
          continue;
        case OpenList =>
          stack := stack + [List([])];
          continue;
        case CloseDict | CloseList =>
          if stack == [] {
            return Err(PythonIndexError);
          }
          value, stack := stack[|stack| - 1], stack[..|stack| - 1];
        case Scalar(v) =>
          value := v;
      }
      if stack == [] {
        return Ok(value);
      }
      var error';
      stack, error' := Store(stack, value);
      if error'.Some? {
        return Err(error'.value);
      }
    }
  }

  /** The end of a turn that did not skip: what becomes of `value` when something is open. */
  method Store(open: seq<Value>, value: Value) returns (stack: seq<Value>, error: Option<Error>)
    requires open != []
    ensures Deliver(open, value) == match error { case None => Continue(stack) case Some(e) => Raise(e) }
  {
    stack, error := open, None;
    match stack[|stack| - 1] {
      case List(items) =>
        stack := stack[..|stack| - 1] + [List(items + [value])];
      case Dict(_) =>
        stack := stack + [value];
      case Str(key) =>
        stack := stack[..|stack| - 1];
        if stack == [] {
          error := Some(PythonIndexError);
        } else {
          match stack[|stack| - 1] {
            case Dict(entries) =>
              stack := stack[..|stack| - 1] + [Dict(Assign(entries, key, value))];
            case _ =>
              error := Some(PythonTypeError);
          }
        }
      case _ =>
        error := Some(BadKey);
    }
  }
}
