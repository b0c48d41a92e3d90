/**
 The greedy layout of `textSentence` in core/methods/demo/PGraphics.java takes as few lines as any layout by its rules:
 a line ends at the end of the sentence, after a space, or inside of its first word if that is too wide for the box.
 */
module TextWrapShortest {
  import opened TextWrap

  /** By the rules, a line from `a` can be followed by one from `b`. */
  ghost predicate MayFollow(t: Sentence, a: nat, b: nat)
    requires t.Valid() && a <= t.stop
  {
    || (exists e: nat :: BreaksAt(t, a, e) && b == t.SkipSpaces(e))
    || (exists w: nat :: SplitsAt(t, a, w, b))
  }

  /** The line from `a` is broken after the space in front of e. */
  ghost predicate BreaksAt(t: Sentence, a: nat, e: nat)
    requires t.Valid()
  {
    a < e <= t.stop && t.buffer[e - 1] == ' ' && t.Width(a, e - 1) <= t.boxWidth
  }

  /** The first word of the line from `a` that has any width starts at w, is too wide, and is split at b. */
  ghost predicate SplitsAt(t: Sentence, a: nat, w: nat, b: nat)
    requires t.Valid()
  {
    && a <= w < b < t.stop && (w == a || t.buffer[w - 1] == ' ') && t.Width(a, w) == 0.0
    && b < t.NextBoundary(w) && t.Width(a, b) <= t.boxWidth < t.Width(a, t.NextBoundary(w))
  }

  /** By the rules, the sentence from `a` on can be laid out in n lines. */
  ghost predicate Takes(t: Sentence, a: nat, n: nat)
    requires t.Valid() && a <= t.stop
    decreases n
  {
    if n == 0 then false
    else if n == 1 then t.Width(a, t.stop) <= t.boxWidth
    else exists b: nat :: b <= t.stop && MayFollow(t, a, b) && Takes(t, b, n - 1)
  }

  /** Further right, less is left to fit. */
  lemma FitsFurther(t: Sentence, a: nat, b: nat, x: nat)
    requires t.Valid() && a <= b <= x <= t.stop && t.Width(a, x) <= t.boxWidth
    ensures t.Width(b, x) <= t.boxWidth
  {
    t.WidthAdds(a, b, x);
  }

  /** A shorter line fits too. */
  lemma FitsShorter(t: Sentence, a: nat, b: nat, x: nat)
    requires t.Valid() && a <= b <= x <= t.stop && t.Width(a, x) <= t.boxWidth
    ensures t.Width(a, b) <= t.boxWidth
  {
    t.WidthAdds(a, b, x);
    t.WidthAdds(b, x, x);
  }

  /** How far a line end is. */
  function Reach(t: Sentence, end: LineEnd): nat {
    match end
    case Last => t.stop + 1
    case WordBreak(b) => b
    case Split(k) => k
    case TooWide(p) => p
  }

  /** If the text up to a space fits, a greedy line goes on behind it. */
  lemma {:induction false} PassesOver(t: Sentence, a: nat, word: nat, w: nat)
    requires t.Valid() && a <= word < w <= t.stop && t.buffer[w - 1] == ' ' && t.Width(a, w - 1) <= t.boxWidth
    ensures t.EndFrom(a, word) == t.EndFrom(a, w)
    decreases t.stop - word
  {
    var e := t.NextBoundary(word);
    FitsShorter(t, a, e, w - 1);
    if e + 1 < w {
      PassesOver(t, a, e + 1, w);
    }
  }

  lemma {:induction false} ReachesEnd(t: Sentence, a: nat, word: nat)
    requires t.Valid() && a <= word <= t.stop && t.Width(a, t.stop) <= t.boxWidth
    ensures t.EndFrom(a, word) == Last
    decreases t.stop - word
  {
    var e := t.NextBoundary(word);
    FitsShorter(t, a, e, t.stop);
    if e < t.stop {
      ReachesEnd(t, a, e + 1);
    }
  }

  lemma {:induction false} EndsAfter(t: Sentence, a: nat, word: nat)
    requires t.Valid() && a <= word <= t.stop
    ensures Reach(t, t.EndFrom(a, word)) >= word
    decreases t.stop - word
  {
    var e := t.NextBoundary(word);
    if t.Width(a, e) <= t.boxWidth && e < t.stop {
      EndsAfter(t, a, e + 1);
    }
  }

  lemma {:induction false} SameBoundary(t: Sentence, a: nat, b: nat)
    requires t.Valid() && a <= t.stop && a <= b <= t.NextBoundary(a)
    ensures t.NextBoundary(b) == t.NextBoundary(a)
    decreases b - a
  {
    if a < b {
      SameBoundary(t, a + 1, b);
    }
  }

  /** A word without any width in front of it is split no earlier than anywhere it fits. */
  lemma SplitsFurther(t: Sentence, c: nat, w: nat, b: nat)
    requires t.Valid() && c <= w < b < t.stop && b < t.NextBoundary(w)
    requires t.Width(c, w) == 0.0 && t.Width(c, b) <= t.boxWidth
    ensures Reach(t, t.EndFrom(c, w)) >= b
  {
    hide Sentence.Width, Sentence.NextBoundary;
    var e := t.NextBoundary(w);
    if t.Width(c, e) > t.boxWidth {
      var k := t.LongestFit(w, e);
      t.WidthAdds(c, w, b);
      if k < b {
        FitsShorter(t, w, k + 1, b);
      }
    } else if e < t.stop {
      EndsAfter(t, c, e + 1);
    }
  }

  /** Where the next line of a greedy layout starts. */
  function Next(t: Sentence, end: LineEnd): nat
    requires t.Valid() && (end.WordBreak? ==> end.at <= t.stop)
  {
    match end
    case Last => t.stop + 1
    case WordBreak(b) => t.SkipSpaces(b)
    case Split(k) => k
    case TooWide(p) => p
  }

  /** The start of a line: no space, unless the sentence itself starts with one. */
  ghost predicate IsStart(t: Sentence, a: nat)
    requires t.Valid()
  {
    a <= t.stop && (a == t.stop || t.buffer[a] != ' ')
  }

  lemma SkipsAsFar(t: Sentence, e: nat, c: nat)
    requires t.Valid() && e <= c <= t.stop
    ensures t.SkipSpaces(e) <= t.SkipSpaces(c)
    ensures IsStart(t, c) ==> t.SkipSpaces(e) <= c
  {
  }

  lemma AheadOfSplit(t: Sentence, a: nat, w: nat, b: nat, c: nat)
    requires t.Valid() && SplitsAt(t, a, w, b) && a <= c < b
    ensures Reach(t, t.EndFrom(c, c)) >= b
  {
    FitsFurther(t, a, c, b);
    if c < w {
      t.WidthAdds(a, c, w);
      t.WidthAdds(c, w - 1, w);
      PassesOver(t, c, c, w);
      SplitsFurther(t, c, w, b);
    } else {
      SameBoundary(t, w, c);
      SplitsFurther(t, c, c, b);
    }
  }

  lemma AheadOfBreak(t: Sentence, a: nat, e: nat, c: nat)
    requires t.Valid() && BreaksAt(t, a, e) && a <= c < e
    ensures Reach(t, t.EndFrom(c, c)) >= e
  {
    FitsFurther(t, a, c, e - 1);
    PassesOver(t, c, c, e);
    EndsAfter(t, c, e);
  }

  /** A greedy line that starts no earlier than another one is also followed no earlier. */
  lemma StaysAhead(t: Sentence, a: nat, b: nat, c: nat)
    requires t.Valid() && a <= c <= t.stop && MayFollow(t, a, b) && (a == c || IsStart(t, c))
    requires !t.EndFrom(c, c).TooWide?
    ensures var end := t.EndFrom(c, c);
      (end.WordBreak? ==> end.at <= t.stop) && Next(t, end) >= b && (!end.Last? ==> IsStart(t, Next(t, end)))
  {
    t.EndMeans(c, c);
    var end := t.EndFrom(c, c);
    if e: nat :| BreaksAt(t, a, e) && b == t.SkipSpaces(e) {
      if e <= c {
        SkipsAsFar(t, e, c);
      } else {
        AheadOfBreak(t, a, e, c);
        if !end.Last? {
          SkipsAsFar(t, e, Reach(t, end));
        }
      }
    } else {
      var w: nat :| SplitsAt(t, a, w, b);
      if c < b {
        AheadOfSplit(t, a, w, b, c);
      }
    }
  }

  lemma LineFits(t: Sentence, a: nat, b: nat)
    requires t.Valid() && a <= t.stop && MayFollow(t, a, b)
    ensures a <= b <= t.stop && CharactersFit(t, a, b)
  {
    if e: nat :| BreaksAt(t, a, e) && b == t.SkipSpaces(e) {
      LineCharactersFit(t, a, e - 1);
    } else {
      LineCharactersFit(t, a, b);
    }
  }

  lemma JoinFits(t: Sentence, a: nat, b: nat, c: nat)
    requires t.Valid() && a <= b <= c <= t.stop && CharactersFit(t, a, b) && CharactersFit(t, b, c)
    ensures CharactersFit(t, a, c)
  {
  }

  /** What can be laid out by the rules has no character that is too wide. */
  lemma {:induction false} TakesFits(t: Sentence, a: nat, n: nat)
    requires t.Valid() && a <= t.stop && Takes(t, a, n)
    ensures CharactersFit(t, a, t.stop)
    decreases n
  {
    hide MayFollow, CharactersFit;
    if n == 1 {
      LineCharactersFit(t, a, t.stop);
    } else {
      var b: nat :| b <= t.stop && MayFollow(t, a, b) && Takes(t, b, n - 1);
      LineFits(t, a, b);
      TakesFits(t, b, n - 1);
      JoinFits(t, a, b, t.stop);
    }
  }

  /** One line more, in front of the next ones. */
  lemma WrapStep(t: Sentence, c: nat)
    requires t.Valid() && c <= t.stop && t.Wrap(c).ok
    ensures var end := t.EndFrom(c, c);
      && !end.TooWide? && (end.WordBreak? ==> end.at <= t.stop)
      && (end.Last? ==> |t.Wrap(c).lines| == 1)
      && (!end.Last? && Next(t, end) <= t.stop ==> |t.Wrap(c).lines| == 1 + |t.Wrap(Next(t, end)).lines|)
  {
    t.EndMeans(c, c);
  }

  lemma {:induction false} NoLonger(t: Sentence, a: nat, n: nat, c: nat)
    requires t.Valid() && a <= c <= t.stop && (a == c || IsStart(t, c)) && Takes(t, a, n)
    ensures t.Wrap(c).ok && |t.Wrap(c).lines| <= n
    decreases n
  {
    hide MayFollow;
    TakesFits(t, a, n);
    WrapSucceeds(t, c);
    WrapStep(t, c);
    if n == 1 {
      FitsFurther(t, a, c, t.stop);
      ReachesEnd(t, c, c);
    } else {
      var b: nat :| b <= t.stop && MayFollow(t, a, b) && Takes(t, b, n - 1);
      StaysAhead(t, a, b, c);
      if !t.EndFrom(c, c).Last? {
        NoLonger(t, b, n - 1, Next(t, t.EndFrom(c, c)));
      }
    }
  }

  lemma {:induction false} SplitIsByTheRules(t: Sentence, a: nat, word: nat)
    requires t.Valid() && a <= word <= t.stop
    requires word == a || (t.buffer[word - 1] == ' ' && t.Width(a, word - 1) <= t.boxWidth)
    ensures t.EndFrom(a, word).Split? ==> exists w: nat :: SplitsAt(t, a, w, t.EndFrom(a, word).at)
    decreases t.stop - word
  {
    var e := t.NextBoundary(word);
    if t.Width(a, e) > t.boxWidth {
      if t.EndFrom(a, word).Split? {
        var k := t.EndFrom(a, word).at;
        t.WidthAdds(a, word, k);
        assert SplitsAt(t, a, word, k);
      }
    } else if e < t.stop {
      SplitIsByTheRules(t, a, e + 1);
    }
  }

  lemma {:induction false} GreedyIsByTheRules(t: Sentence, a: nat)
    requires t.Valid() && a <= t.stop && t.Wrap(a).ok
    ensures Takes(t, a, |t.Wrap(a).lines|)
    decreases t.stop - a
  {
    hide SplitsAt, Sentence.Width, Sentence.EndFrom, Sentence.NextBoundary;
    WrapStep(t, a);
    t.EndMeans(a, a);
    var end := t.EndFrom(a, a);
    match end {
      case Last =>
      case WordBreak(b) =>
        assert BreaksAt(t, a, b);
        GreedyIsByTheRules(t, t.SkipSpaces(b));
        assert MayFollow(t, a, t.SkipSpaces(b));
      case Split(k) =>
        SplitIsByTheRules(t, a, a);
        GreedyIsByTheRules(t, k);
        assert MayFollow(t, a, k);
      case TooWide(_) =>
    }
  }

  /** The greedy layout is one by the rules, and none has fewer lines. If it fails, there is none at all. */
  lemma GreedyIsShortest(t: Sentence, a: nat)
    requires t.Valid() && a <= t.stop
    ensures if t.Wrap(a).ok
            then Takes(t, a, |t.Wrap(a).lines|) && forall n: nat :: Takes(t, a, n) ==> |t.Wrap(a).lines| <= n
            else forall n: nat :: !Takes(t, a, n)
  {
    if t.Wrap(a).ok {
      GreedyIsByTheRules(t, a);
    }
    forall n: nat | Takes(t, a, n) ensures t.Wrap(a).ok && |t.Wrap(a).lines| <= n {
      NoLonger(t, a, n, a);
    }
  }
}
