/**
 Breaking a sentence into lines: `textSentence` and `textSentenceBreak` of core/methods/demo/PGraphics.java.

 Widths are non-negative reals. `EndFrom` and `Wrap` say line by line what a greedy layout is; the method
 `TextSentence` is the source's single loop, whose index moves backwards.
 */
module TextWrap {

  /** How a line ends: at the end of the sentence, before a word that goes to the next line, or inside of a word that
      is too long for any line; or not even one character fits. */
  datatype LineEnd = Last | WordBreak(at: nat) | Split(at: nat) | TooWide(at: nat)

  datatype Line = Line(start: int, stop: int)

  datatype Layout = Layout(lines: seq<Line>, ok: bool)

  datatype Sentence = Sentence(buffer: seq<char>, stop: nat, width: char -> real, boxWidth: real) {

    /** The caller appends a newline to the text, so that there is a character at `stop`. */
    ghost predicate Valid() {
      stop < |buffer| && boxWidth >= 0.0 && forall c :: width(c) >= 0.0
    }

    /** textWidthImpl. */
    function Width(from: int, until: int): real
      requires 0 <= from && until <= |buffer|
      decreases until - from
    {
      if from >= until then 0.0 else Width(from, until - 1) + width(buffer[until - 1])
    }

    lemma {:induction false} WidthAdds(a: nat, b: nat, c: nat)
      requires Valid() && a <= b <= c <= |buffer|
      ensures Width(a, c) == Width(a, b) + Width(b, c)
      ensures Width(a, b) >= 0.0
      decreases c - a
    {
      if b < c {
        WidthAdds(a, b, c - 1);
      } else if a < b {
        WidthAdds(a, b - 1, b - 1);
      }
    }

    predicate Boundary(i: nat)
      requires stop < |buffer| && i <= stop
    {
      buffer[i] == ' ' || i == stop
    }

    function NextBoundary(i: nat): (e: nat)
      requires stop < |buffer| && i <= stop
      ensures i <= e <= stop && Boundary(e)
      ensures forall j :: i <= j < e ==> buffer[j] != ' '
      decreases stop - i
    {
      if Boundary(i) then i else NextBoundary(i + 1)
    }

    function SkipSpaces(i: nat): (j: nat)
      requires stop < |buffer| && i <= stop
      ensures i <= j <= stop && (j == stop || buffer[j] != ' ')
      ensures forall k :: i <= k < j ==> buffer[k] == ' '
      decreases stop - i
    {
      if i < stop && buffer[i] == ' ' then SkipSpaces(i + 1) else i
    }

    /** The last index up to `to` such that the text from `from` to there fits. */
    function LongestFit(from: nat, until: nat): (k: nat)
      requires Valid() && from <= until <= stop
      ensures from <= k <= until && Width(from, k) <= boxWidth
      ensures k < until ==> Width(from, k + 1) > boxWidth
      decreases until - from
    {
      if Width(from, until) <= boxWidth then until else LongestFit(from, until - 1)
    }

    /** The end of the line that starts at `a`, when the words before `word` fit on it. */
    function EndFrom(a: nat, word: nat): LineEnd
      requires Valid() && a <= word <= stop
      decreases stop - word
    {
      var e := NextBoundary(word);
      if Width(a, e) > boxWidth then
        if Width(a, word) != 0.0 then WordBreak(word)
        else
          var k := LongestFit(word, e);
          if k == word then TooWide(word) else Split(k)
      else if e == stop then Last
      else EndFrom(a, e + 1)
    }

    /** The promises of a greedy layout: why the line from `a` ends where it does. */
    ghost predicate Means(a: nat, end: LineEnd)
      requires Valid() && a <= stop
    {
      match end
      case Last =>
        Width(a, stop) <= boxWidth
      case WordBreak(b) =>
        && a < b <= stop && buffer[b - 1] == ' '
        && Width(a, b - 1) <= boxWidth && Width(a, NextBoundary(b)) > boxWidth
      case Split(k) =>
        a < k < stop && buffer[k] != ' ' && Width(a, k) <= boxWidth && Width(a, k + 1) > boxWidth
      case TooWide(p) =>
        a <= p < stop && buffer[p] != ' ' && width(buffer[p]) > boxWidth
    }

    lemma OneWidth(p: nat)
      requires p < |buffer|
      ensures Width(p, p + 1) == width(buffer[p])
    {
    }

    lemma NoWidth(p: nat)
      requires p <= |buffer|
      ensures Width(p, p) == 0.0
    {
    }

    /** The line ends in or before the next word. */
    lemma BreakMeans(a: nat, word: nat)
      requires Valid() && a <= word <= stop && Width(a, NextBoundary(word)) > boxWidth
      requires word == a || (buffer[word - 1] == ' ' && Width(a, word - 1) <= boxWidth)
      ensures Means(a, EndFrom(a, word))
    {
      hide Sentence.Width, Sentence.NextBoundary;
      NoWidth(a);
      if Width(a, word) == 0.0 {
        var e := NextBoundary(word);
        var k := LongestFit(word, e);
        WidthAdds(a, word, e);
        WidthAdds(a, word, k);
        if k < e {
          WidthAdds(a, word, k + 1);
        }
        OneWidth(k);
      }
    }

    /** The next place where the line from `a` can be left. */
    lemma {:induction false} EndMeans(a: nat, word: nat)
      requires Valid() && a <= word <= stop
      requires word == a || (buffer[word - 1] == ' ' && Width(a, word - 1) <= boxWidth)
      ensures Means(a, EndFrom(a, word))
      decreases stop - word
    {
      hide Sentence.Width;
      var e := NextBoundary(word);
      if Width(a, e) > boxWidth {
        BreakMeans(a, word);
      } else if e != stop {
        EndMeans(a, e + 1);
      }
    }

    /** The layout of the sentence from `a` on. */
    function Wrap(a: nat): Layout
      requires Valid() && a <= stop
      decreases stop - a
    {
      EndMeans(a, a);
      match EndFrom(a, a)
      case Last => Layout([Line(a, stop)], true)
      case WordBreak(b) => Prepend(Line(a, b), Wrap(SkipSpaces(b)))
      case Split(k) => Prepend(Line(a, k), Wrap(k))
      case TooWide(_) => Layout([], false)
    }
  }

  function Prepend(line: Line, layout: Layout): Layout {
    Layout([line] + layout.lines, layout.ok)
  }

  // ----- What a layout promises -----

  /** What lies between two lines is spaces: all there are, so that the next line does not start with one. */
  ghost predicate Separated(t: Sentence, line: Line, next: Line)
    requires t.Valid() && 0 <= line.start && 0 <= next.start <= t.stop
  {
    && line.start < line.stop <= next.start && (next.start < t.stop ==> t.buffer[next.start] != ' ')
    && forall k :: line.stop <= k < next.start ==> t.buffer[k] == ' '
  }

  /** Lines are in order and disjoint, the first starts at `a`, and what lies between two lines is spaces. */
  ghost predicate Ordered(t: Sentence, lines: seq<Line>, a: nat)
    requires t.Valid()
  {
    && (forall i :: 0 <= i < |lines| ==> a <= lines[i].start <= lines[i].stop <= t.stop)
    && (lines != [] ==> lines[0].start == a)
    && (forall i, j :: 0 <= i && j == i + 1 < |lines| ==> Separated(t, lines[i], lines[j]))
  }

  /** A recorded line fits the box, once its final space is dropped if it was broken between words, and it is greedy:
      neither the next word nor, in a split word, the next character would have fitted. */
  ghost predicate FitsGreedily(t: Sentence, line: Line)
    requires t.Valid() && 0 <= line.start <= line.stop <= t.stop
  {
    || (line.stop == t.stop && t.Width(line.start, line.stop) <= t.boxWidth)
    || (line.start < line.stop && t.buffer[line.stop - 1] == ' '
        && t.Width(line.start, line.stop - 1) <= t.boxWidth
        && t.Width(line.start, t.NextBoundary(line.stop)) > t.boxWidth)
    || (line.start < line.stop < t.stop && t.buffer[line.stop] != ' '
        && t.Width(line.start, line.stop) <= t.boxWidth
        && t.Width(line.start, line.stop + 1) > t.boxWidth)
  }

  lemma PrependOrdered(t: Sentence, a: nat, b: nat, next: nat, lines: seq<Line>)
    requires t.Valid() && a < b <= next <= t.stop && Ordered(t, lines, next)
    requires next < t.stop ==> t.buffer[next] != ' '
    requires forall k :: b <= k < next ==> t.buffer[k] == ' '
    ensures Ordered(t, [Line(a, b)] + lines, a)
  {
    hide Separated;
    var all := [Line(a, b)] + lines;
    assert forall i :: 0 < i < |all| ==> all[i] == lines[i - 1];
    if lines != [] {
      SeparatedFirst(t, Line(a, b), lines[0]);
    }
  }

  lemma SeparatedFirst(t: Sentence, line: Line, next: Line)
    requires t.Valid() && 0 <= line.start < line.stop <= next.start <= t.stop
    requires next.start < t.stop ==> t.buffer[next.start] != ' '
    requires forall k :: line.stop <= k < next.start ==> t.buffer[k] == ' '
    ensures Separated(t, line, next)
  {
  }

  lemma {:induction false} WrapOrdered(t: Sentence, a: nat)
    requires t.Valid() && a <= t.stop
    ensures Ordered(t, t.Wrap(a).lines, a)
    ensures t.Wrap(a).ok ==> t.Wrap(a).lines != [] && t.Wrap(a).lines[|t.Wrap(a).lines| - 1].stop == t.stop
    decreases t.stop - a
  {
    t.EndMeans(a, a);
    match t.EndFrom(a, a) {
      case WordBreak(b) =>
        WrapOrdered(t, t.SkipSpaces(b));
        PrependOrdered(t, a, b, t.SkipSpaces(b), t.Wrap(t.SkipSpaces(b)).lines);
      case Split(k) =>
        WrapOrdered(t, k);
        PrependOrdered(t, a, k, k, t.Wrap(k).lines);
      case _ =>
    }
  }

  lemma {:induction false} WrapFits(t: Sentence, a: nat)
    requires t.Valid() && a <= t.stop
    ensures forall line :: line in t.Wrap(a).lines ==>
              a <= line.start <= line.stop <= t.stop && FitsGreedily(t, line)
    decreases t.stop - a
  {
    t.EndMeans(a, a);
    match t.EndFrom(a, a) {
      case WordBreak(b) => WrapFits(t, t.SkipSpaces(b));
      case Split(k) => WrapFits(t, k);
      case _ =>
    }
  }

  /** Every character that is not a space is no wider than the box. */
  ghost predicate CharactersFit(t: Sentence, from: nat, until: nat)
    requires t.Valid() && until <= t.stop
  {
    forall p :: from <= p < until && t.buffer[p] != ' ' ==> t.width(t.buffer[p]) <= t.boxWidth
  }

  lemma CharacterInLine(t: Sentence, a: nat, p: nat, b: nat)
    requires t.Valid() && a <= p < b <= t.stop && t.Width(a, b) <= t.boxWidth
    ensures t.width(t.buffer[p]) <= t.boxWidth
  {
    t.WidthAdds(a, p + 1, b);
    t.WidthAdds(a, p, p + 1);
    t.WidthAdds(p + 1, b, b);
  }

  lemma LineCharactersFit(t: Sentence, a: nat, b: nat)
    requires t.Valid() && a <= b <= t.stop && t.Width(a, b) <= t.boxWidth
    ensures CharactersFit(t, a, b)
  {
    forall p | a <= p < b ensures t.width(t.buffer[p]) <= t.boxWidth {
      CharacterInLine(t, a, p, b);
    }
  }

  /** The sentence can be laid out exactly when each of its characters other than spaces fits the box. */
  lemma {:induction false} WrapSucceeds(t: Sentence, a: nat)
    requires t.Valid() && a <= t.stop
    ensures t.Wrap(a).ok <==> CharactersFit(t, a, t.stop)
    decreases t.stop - a
  {
    hide Sentence.Width, Sentence.EndFrom, Sentence.NextBoundary, Sentence.SkipSpaces;
    t.EndMeans(a, a);
    match t.EndFrom(a, a) {
      case Last =>
        LineCharactersFit(t, a, t.stop);
      case WordBreak(b) =>
        LineCharactersFit(t, a, b - 1);
        WrapSucceeds(t, t.SkipSpaces(b));
      case Split(k) =>
        LineCharactersFit(t, a, k);
        WrapSucceeds(t, k);
      case TooWide(p) =>
    }
  }

  // ----- The loop -----

  method TextWidthImpl(t: Sentence, start: nat, stop: nat) returns (wide: real)
    requires start <= stop <= |t.buffer|
    ensures wide == t.Width(start, stop)
  {
    wide := 0.0;
    for i := start to stop
      invariant wide == t.Width(start, i)
    {
      wide := wide + t.width(t.buffer[i]);
    }
  }

  /** The inner loop, for a word at the start of a line that is wider than the box: back to the last place up to
      which it fits. */
  method BreakWord(t: Sentence, wordStart: nat, end: nat) returns (fits: bool, index: nat)
    requires t.Valid() && wordStart < end <= t.stop && t.Width(wordStart, end) > t.boxWidth
    ensures index == t.LongestFit(wordStart, end) && fits == (index != wordStart)
  {
    index := end;
    while true
      invariant wordStart < index <= end && t.Width(wordStart, index) > t.boxWidth
      invariant t.LongestFit(wordStart, end) == t.LongestFit(wordStart, index)
      decreases index
    {
      index := index - 1;
      if index == wordStart {
        return false, index;
      }
      var wordWidth := TextWidthImpl(t, wordStart, index);
      if wordWidth <= t.boxWidth {
        return true, index;
      }
    }
  }

  method EatSpaces(t: Sentence, from: nat) returns (index: nat)
    requires t.Valid() && from <= t.stop
    ensures index == t.SkipSpaces(from)
  {
    index := from;
    while index < t.stop && t.buffer[index] == ' '
      invariant index <= t.stop && t.SkipSpaces(from) == t.SkipSpaces(index)
    {
      index := index + 1;
    }
  }

  lemma PrependLines(a: seq<Line>, line: Line, rest: Layout)
    ensures Layout(a + Prepend(line, rest).lines, rest.ok) == Layout((a + [line]) + rest.lines, rest.ok)
  {
    assert a + ([line] + rest.lines) == a + [line] + rest.lines;
  }

  /** The break arrays of PGraphics, which grow as lines are recorded. */
  class LineBreaks {
    var textBreakStart: array<int>
    var textBreakStop: array<int>
    var textBreakCount: nat

    ghost var lines: seq<Line>  // the lines recorded so far

    ghost predicate Valid()
      reads this, textBreakStart, textBreakStop
    {
      && textBreakCount == |lines| <= textBreakStart.Length == textBreakStop.Length
      && textBreakStart.Length > 0 && textBreakStart != textBreakStop
      && forall i :: 0 <= i < |lines| ==> textBreakStart[i] == lines[i].start && textBreakStop[i] == lines[i].stop
    }

    constructor ()
      ensures Valid() && lines == []
      ensures fresh(textBreakStart) && fresh(textBreakStop)
    {
      textBreakStart := new int[20];
      textBreakStop := new int[20];
      textBreakCount := 0;
      lines := [];
    }

    /** PApplet.expand. */
    static method Expand(list: array<int>) returns (temp: array<int>)
      requires list.Length > 0
      ensures fresh(temp) && temp.Length == 2 * list.Length && forall i :: 0 <= i < list.Length ==> temp[i] == list[i]
    {
      temp := new int[2 * list.Length](_ => 0);
      forall i | 0 <= i < list.Length {
        temp[i] := list[i];
      }
    }

    method TextSentenceBreak(start: int, stop: int)
      requires Valid()
      modifies this, textBreakStart, textBreakStop
      ensures Valid() && lines == old(lines) + [Line(start, stop)]
      ensures textBreakStart == old(textBreakStart) || fresh(textBreakStart)
      ensures textBreakStop == old(textBreakStop) || fresh(textBreakStop)
    {
      if textBreakCount == textBreakStart.Length {
        var moreStart := Expand(textBreakStart);
        var moreStop := Expand(textBreakStop);
        textBreakStart, textBreakStop := moreStart, moreStop;
      }
      textBreakStart[textBreakCount] := start;
      textBreakStop[textBreakCount] := stop;
      textBreakCount := textBreakCount + 1;
      lines := lines + [Line(start, stop)];
    }

    /** With the lines recorded so far, the layout from `a` on gives the layout `goal`. */
    ghost predicate Leads(t: Sentence, a: int, goal: Layout)
      requires t.Valid() && 0 <= a <= t.stop
      reads this
    {
      Layout(lines + t.Wrap(a).lines, t.Wrap(a).ok) == goal
    }

    /** The branch for a word, ending at `end`, that does not fit on the line: the line is recorded and `index` is
        where the next one starts, or else not a single character fits. */
    method BreakLine(t: Sentence, ghost goal: Layout, lineStart: nat, wordStart: nat, end: nat, runningX: real)
      returns (fits: bool, index: nat)
      requires Valid() && t.Valid() && lineStart <= wordStart <= t.stop && Leads(t, lineStart, goal)
      requires t.EndFrom(lineStart, lineStart) == t.EndFrom(lineStart, wordStart)
      requires end == t.NextBoundary(wordStart) && t.Width(lineStart, end) > t.boxWidth
      requires runningX == t.Width(lineStart, wordStart)
      modifies this, textBreakStart, textBreakStop
      ensures Valid()
      ensures textBreakStart == old(textBreakStart) || fresh(textBreakStart)
      ensures textBreakStop == old(textBreakStop) || fresh(textBreakStop)
      ensures if fits then lineStart < index <= t.stop && Leads(t, index, goal) else goal == Layout(lines, false)
    {
      t.WidthAdds(lineStart, wordStart, end);
      fits := true;
      if runningX != 0.0 {
        // The next word is too big: record the line without it, and drop the spaces in front of it.
        index := wordStart;
        PrependLines(lines, Line(lineStart, index), t.Wrap(t.SkipSpaces(index)));
        TextSentenceBreak(lineStart, index);
        index := EatSpaces(t, index);
      } else {
        fits, index := BreakWord(t, wordStart, end);
        if fits {
          PrependLines(lines, Line(lineStart, index), t.Wrap(index));
          TextSentenceBreak(lineStart, index);
        } else {
          assert t.Wrap(lineStart) == Layout([], false);
          assert lines + [] == lines;
        }
      }
    }

    /** The branch for the end of a word: the line is broken, or it ends the sentence, or the word stays on it. */
    method EndWord(t: Sentence, ghost goal: Layout, lineStart0: nat, wordStart0: nat, index0: nat,
                   runningX0: real, spaceWidth: real)
      returns (fits: bool, lineStart: nat, wordStart: nat, index: nat, runningX: real)
      requires Valid() && t.Valid() && spaceWidth == t.width(' ')
      requires OnLine(t, lineStart0, wordStart0, index0, runningX0) && Leads(t, lineStart0, goal)
      requires index0 == t.stop || t.buffer[index0] == ' '
      modifies this, textBreakStart, textBreakStop
      ensures Valid()
      ensures textBreakStart == old(textBreakStart) || fresh(textBreakStart)
      ensures textBreakStop == old(textBreakStop) || fresh(textBreakStop)
      ensures !fits ==> goal == Layout(lines, false)
      ensures fits ==> lineStart0 <= lineStart <= wordStart <= index <= t.stop + 1
      ensures fits ==> lineStart0 < lineStart || index0 < index
      ensures fits && index > t.stop ==> goal == Layout(lines, true)
      ensures fits && index <= t.stop ==> Leads(t, lineStart, goal) && OnLine(t, lineStart, wordStart, index, runningX)
    {
      fits, lineStart, wordStart, index, runningX := true, lineStart0, wordStart0, index0, runningX0;
      var wordWidth := TextWidthImpl(t, wordStart, index);
      t.WidthAdds(lineStart, wordStart, index);
      if runningX + wordWidth > t.boxWidth {
        fits, index := BreakLine(t, goal, lineStart, wordStart, index, runningX);
        if !fits {
          return;
        }
        lineStart := index;
        wordStart := index;
        runningX := 0.0;
        LineStarts(t, index);
      } else if index == t.stop {
        LineEnds(t, lineStart, wordStart, runningX);
        TextSentenceBreak(lineStart, index);
        index := index + 1;
      } else {
        WordFits(t, lineStart, wordStart, index, runningX);
        runningX := runningX + (wordWidth + spaceWidth);
        wordStart := index + 1;
        index := index + 1;
      }
    }

    method TextSentence(t: Sentence, start: nat, spaceWidth: real) returns (ok: bool)
      requires Valid() && t.Valid() && start <= t.stop && spaceWidth == t.width(' ')
      modifies this, textBreakStart, textBreakStop
      ensures Valid() && Layout(lines, ok) == Layout(old(lines) + t.Wrap(start).lines, t.Wrap(start).ok)
    {
      ghost var goal := Layout(lines + t.Wrap(start).lines, t.Wrap(start).ok);
      var runningX := 0.0;
      var lineStart, wordStart, index := start, start, start;
      LineStarts(t, start);
      while index <= t.stop
        invariant Valid() && start <= lineStart <= wordStart <= index <= t.stop + 1
        invariant textBreakStart == old(textBreakStart) || fresh(textBreakStart)
        invariant textBreakStop == old(textBreakStop) || fresh(textBreakStop)
        invariant index > t.stop ==> goal == Layout(lines, true)
        invariant index <= t.stop ==> Leads(t, lineStart, goal) && OnLine(t, lineStart, wordStart, index, runningX)
        decreases t.stop - lineStart, t.stop + 1 - index
      {
        if t.buffer[index] == ' ' || index == t.stop {
          var fits;
          fits, lineStart, wordStart, index, runningX :=
            EndWord(t, goal, lineStart, wordStart, index, runningX, spaceWidth);
          if !fits {
            return false;
          }
        } else {
          LetterFits(t, lineStart, wordStart, index, runningX);
          index := index + 1;
        }
      }
      ok := true;
    }
  }

  /** The words up to `wordStart` have width `runningX` and fit on the line, and the current word goes on. */
  ghost predicate OnLine(t: Sentence, lineStart: nat, wordStart: nat, index: nat, runningX: real)
    requires t.Valid()
  {
    && lineStart <= wordStart <= index <= t.stop
    && t.EndFrom(lineStart, lineStart) == t.EndFrom(lineStart, wordStart)
    && t.NextBoundary(wordStart) == t.NextBoundary(index)
    && runningX == t.Width(lineStart, wordStart)
  }

  lemma LineStarts(t: Sentence, index: nat)
    requires t.Valid() && index <= t.stop
    ensures OnLine(t, index, index, index, 0.0)
  {
  }

  lemma LineEnds(t: Sentence, lineStart: nat, wordStart: nat, runningX: real)
    requires t.Valid() && OnLine(t, lineStart, wordStart, t.stop, runningX)
    requires t.Width(lineStart, t.stop) <= t.boxWidth
    ensures t.Wrap(lineStart) == Layout([Line(lineStart, t.stop)], true)
  {
  }

  lemma LetterFits(t: Sentence, lineStart: nat, wordStart: nat, index: nat, runningX: real)
    requires t.Valid() && OnLine(t, lineStart, wordStart, index, runningX)
    requires index < t.stop && t.buffer[index] != ' '
    ensures OnLine(t, lineStart, wordStart, index + 1, runningX)
  {
  }

  lemma WordFits(t: Sentence, lineStart: nat, wordStart: nat, index: nat, runningX: real)
    requires t.Valid() && OnLine(t, lineStart, wordStart, index, runningX)
    requires index < t.stop && t.buffer[index] == ' ' && t.Width(lineStart, index) <= t.boxWidth
    ensures OnLine(t, lineStart, index + 1, index + 1, runningX + (t.Width(wordStart, index) + t.width(' ')))
  {
    t.WidthAdds(lineStart, wordStart, index);
  }
}
