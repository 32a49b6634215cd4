/** `Processing.SplitTranslatedBlock`, which maps one translated string back
    onto the lines of an OCR block, and `Processing.ProcessTranslationFromOCR`,
    which numbers the blocks, translates them and builds one `TranslatedText`
    per line for the renderer. */
module Processing {
  import opened Common
  import opened Strings
  import opened Imaging
  import opened OcrLayout
  import opened Translation

  // ---------------------------------------------------------------------
  // The list-marker pattern ^(\d+\.|[•\-*●◆►✓✔✕✖✗✘➤➢➣]+|\p{L}\.)\s

  /** The Unicode classes `\d` (decimal digit) and `\p{L}` (letter). */
  datatype CharClasses = CharClasses(isDigit: char -> bool, isLetter: char -> bool)

  /** The bullet characters of the pattern's middle alternative. */
  predicate IsBullet(c: char) {
    || c == '\U{2022}' || c == '-' || c == '*' || c == '\U{25CF}' || c == '\U{25C6}'
    || c == '\U{25BA}' || c == '\U{2713}' || c == '\U{2714}' || c == '\U{2715}'
    || c == '\U{2716}' || c == '\U{2717}' || c == '\U{2718}' || c == '\U{27A4}'
    || c == '\U{27A2}' || c == '\U{27A3}'
  }

  /** The first `k` characters of `s` are decimal digits. */
  predicate DigitsBefore(cls: CharClasses, s: string, k: int)
    requires 0 <= k <= |s|
  {
    forall j :: 0 <= j < k ==> cls.isDigit(s[j])
  }

  /** The first `k` characters of `s` are bullets. */
  predicate BulletsBefore(s: string, k: int)
    requires 0 <= k <= |s|
  {
    forall j :: 0 <= j < k ==> IsBullet(s[j])
  }

  /** The pattern matches at the start of `s`: digits and a dot, a run of
      bullets, or one letter and a dot, in each case followed by a
      whitespace character. */
  predicate IsListPrefix(cls: CharClasses, s: string) {
    || (exists k :: 1 <= k && k + 1 < |s| && s[k] == '.' && IsWhiteSpace(s[k + 1]) && DigitsBefore(cls, s, k))
    || (exists k :: 1 <= k < |s| && IsWhiteSpace(s[k]) && BulletsBefore(s, k))
    || (3 <= |s| && cls.isLetter(s[0]) && s[1] == '.' && IsWhiteSpace(s[2]))
  }

  /** A word that is, in full, a list marker: digits and a dot, bullets, or
      a letter and a dot. */
  predicate IsMarkerWord(cls: CharClasses, w: string) {
    || (2 <= |w| && w[|w| - 1] == '.' && forall j :: 0 <= j < |w| - 1 ==> cls.isDigit(w[j]))
    || (1 <= |w| && forall j :: 0 <= j < |w| ==> IsBullet(w[j]))
    || (|w| == 2 && cls.isLetter(w[0]) && w[1] == '.')
  }

  /** Tested on a whitespace-free word followed by one space, the pattern
      accepts exactly the words that are list markers in full. */
  lemma WholeWordMarker(cls: CharClasses, w: string)
    requires forall j :: 0 <= j < |w| ==> !IsWhiteSpace(w[j])
    ensures IsListPrefix(cls, w + " ") <==> IsMarkerWord(cls, w)
  {
    var s := w + " ";
    assert forall j :: 0 <= j < |w| ==> s[j] == w[j];
    assert IsWhiteSpace(s[|w|]);
    if IsMarkerWord(cls, w) {
      if 2 <= |w| && w[|w| - 1] == '.' && forall j :: 0 <= j < |w| - 1 ==> cls.isDigit(w[j]) {
        var k := |w| - 1;
        assert 1 <= k && k + 1 < |s| && s[k] == '.' && IsWhiteSpace(s[k + 1]);
      } else if 1 <= |w| && forall j :: 0 <= j < |w| ==> IsBullet(w[j]) {
        var k := |w|;
        assert 1 <= k < |s| && IsWhiteSpace(s[k]);
      }
    }
    if IsListPrefix(cls, s) {
      if exists k :: 1 <= k && k + 1 < |s| && s[k] == '.' && IsWhiteSpace(s[k + 1]) && DigitsBefore(cls, s, k) {
        var k :| 1 <= k && k + 1 < |s| && s[k] == '.' && IsWhiteSpace(s[k + 1]) && DigitsBefore(cls, s, k);
        assert k + 1 == |w|;
      } else if exists k :: 1 <= k < |s| && IsWhiteSpace(s[k]) && BulletsBefore(s, k) {
        var k :| 1 <= k < |s| && IsWhiteSpace(s[k]) && BulletsBefore(s, k);
        assert k == |w|;
      } else {
        assert |w| == 2;
      }
    }
  }

  /** A single space (the test string of a line past the last word) is not
      a list marker. */
  lemma SpaceIsNoMarker(cls: CharClasses)
    ensures !IsListPrefix(cls, " ")
  {
  }

  // ---------------------------------------------------------------------
  // Numeric helpers: Math.Round and LINQ Sum, Skip and Take

  /** `Math.Round(num / den)` with the default midpoint rule, on the exact
      quotient. */
  function RoundHalfEven(num: int, den: int): int
    requires den > 0
  {
    var q := num / den;
    var rem := num % den;
    if 2 * rem < den then q
    else if 2 * rem > den then q + 1
    else if q % 2 == 0 then q
    else q + 1
  }

  /** The rounding gives the integer nearest to num / den, and the even one of
      the two nearest when num / den lies half-way between them. */
  lemma RoundHalfEvenIsNearest(num: int, den: int)
    requires den > 0
    ensures var r := RoundHalfEven(num, den);
            && den * (2 * r - 1) <= 2 * num <= den * (2 * r + 1)
            && ((2 * num == den * (2 * r - 1) || 2 * num == den * (2 * r + 1)) ==> r % 2 == 0)
  {
    DivisionIdentity(num, den);
  }

  lemma DivisionIdentity(num: int, den: int)
    requires den > 0
    ensures num == den * (num / den) + num % den && 0 <= num % den < den
    ensures 2 * num == den * (2 * (num / den)) + 2 * (num % den)
  {
  }

  /** LINQ `Sum` over an integer sequence. */
  function Sum(xs: seq<int>): int {
    if |xs| == 0 then 0 else Sum(xs[..|xs| - 1]) + xs[|xs| - 1]
  }

  /** LINQ `Skip(n)`: drops the first `n` elements, none when `n` is not positive. */
  function Skip<T>(s: seq<T>, n: int): (r: seq<T>)
    ensures r == s[Min(Max(n, 0), |s|)..]
  {
    if n <= 0 then s else if n >= |s| then [] else s[n..]
  }

  /** LINQ `Take(n)`: keeps the first `n` elements, none when `n` is not positive. */
  function Take<T>(s: seq<T>, n: int): (r: seq<T>)
    ensures r == s[..Min(Max(n, 0), |s|)]
  {
    if n <= 0 then [] else if n >= |s| then s else s[..n]
  }

  // ---------------------------------------------------------------------
  // Width-proportional distribution of the translated words

  /** `(int)Math.Round(totalWords * widthRatio)` with the ratio
      `width / totalWidth` taken exactly. */
  function ProportionalCount(totalWords: int, width: int, totalWidth: int): int
    requires totalWidth > 0
  {
    RoundHalfEven(totalWords * width, totalWidth)
  }

  /** The word count each line but the last asks for before clamping: at
      least one, and otherwise its rounded share of the words by width. The
      last line's entry is never read (it takes whatever is left). */
  function Quotas(totalWords: int, widths: seq<int>): (q: seq<int>)
    requires |widths| >= 2 ==> Sum(widths) > 0
    ensures |q| == |widths|
  {
    seq(|widths|, i requires 0 <= i < |widths| =>
      if i == |widths| - 1 then 0 else Max(1, ProportionalCount(totalWords, widths[i], Sum(widths))))
  }

  /** Each quota but the last is a positive word count, the rounded width
      share or one when that share rounds to zero. */
  lemma QuotaIsWidthShare(totalWords: nat, widths: seq<int>, i: nat)
    requires |widths| >= 2 ==> Sum(widths) > 0
    requires i < |widths| - 1
    ensures Quotas(totalWords, widths)[i] >= 1
    ensures Quotas(totalWords, widths)[i] == ProportionalCount(totalWords, widths[i], Sum(widths))
            || (Quotas(totalWords, widths)[i] == 1 && ProportionalCount(totalWords, widths[i], Sum(widths)) <= 0)
  {
  }

  /** What the distribution loop works on: the translated words, each
      line's quota and each line's list flag. */
  datatype Plan = Plan(words: seq<string>, quotas: seq<int>, flags: seq<bool>)

  /** One quota and one flag per line; every line but the last asks for at
      least one word. */
  predicate ValidPlan(p: Plan) {
    |p.flags| == |p.quotas| && forall i :: 0 <= i < |p.quotas| - 1 ==> p.quotas[i] >= 1
  }

  /** The word count line `i` asks for before clamping: everything left for
      the last line, otherwise its quota. */
  function Share(p: Plan, i: nat, wordIndex: int): int
    requires ValidPlan(p) && i < |p.flags|
  {
    if i == |p.flags| - 1 then |p.words| - wordIndex else p.quotas[i]
  }

  /** The share, capped at the words left. */
  function Count(p: Plan, i: nat, wordIndex: int): int
    requires ValidPlan(p) && i < |p.flags|
  {
    Min(Share(p, i, wordIndex), |p.words| - wordIndex)
  }

  /** A flagged line keeps the marker with the next word: it takes two words
      when any word is left. */
  predicate TakesPair(p: Plan, i: nat, wordIndex: int)
    requires i < |p.flags|
  {
    p.flags[i] && wordIndex < |p.words|
  }

  /** The word index before line `i`. It can run one past the word count
      (a flagged line with a single word left still advances by two) and is
      then brought back by the next line's negative count. */
  function IndexAt(p: Plan, i: nat): (wordIndex: int)
    requires ValidPlan(p) && i <= |p.flags|
    ensures 0 <= wordIndex <= |p.words| + 1
  {
    if i == 0 then 0
    else
      var before := IndexAt(p, i - 1);
      if TakesPair(p, i - 1, before) then before + 2 else before + Count(p, i - 1, before)
  }

  /** The words line `i` receives. */
  function LineTokens(p: Plan, i: nat): seq<string>
    requires ValidPlan(p) && i < |p.flags|
  {
    var wordIndex := IndexAt(p, i);
    var n := if TakesPair(p, i, wordIndex) then 2 else Count(p, i, wordIndex);
    Take(Skip(p.words, wordIndex), n)
  }

  /** The words of lines `0` to `i - 1`, one line after another. */
  function UsedBy(p: Plan, i: nat): seq<string>
    requires ValidPlan(p) && i <= |p.flags|
  {
    if i == 0 then [] else UsedBy(p, i - 1) + LineTokens(p, i - 1)
  }

  /** The distribution: each line's words joined by single spaces. */
  function Distribute(p: Plan): (r: seq<string>)
    requires ValidPlan(p)
    ensures |r| == |p.flags|
  {
    seq(|p.flags|, i requires 0 <= i < |p.flags| => Join(" ", LineTokens(p, i)))
  }

  lemma PrefixSnoc<T>(s: seq<T>, i: nat)
    requires i < |s|
    ensures s[..i + 1] == s[..i] + [s[i]]
  {
  }

  /** Line `i` receives the words between the clamped word indices before
      and after it. */
  lemma StepTokens(p: Plan, i: nat)
    requires ValidPlan(p) && i < |p.flags|
    ensures Min(IndexAt(p, i), |p.words|) <= Min(IndexAt(p, i + 1), |p.words|)
    ensures LineTokens(p, i) == p.words[Min(IndexAt(p, i), |p.words|)..Min(IndexAt(p, i + 1), |p.words|)]
  {
    var wordIndex := IndexAt(p, i);
    if wordIndex <= |p.words| && !TakesPair(p, i, wordIndex) {
      assert Share(p, i, wordIndex) >= 0;
    }
  }

  /** The lines before `i` have used exactly the first words, as many as the
      clamped word index says. */
  lemma {:induction false} UsedWords(p: Plan, i: nat)
    requires ValidPlan(p) && i <= |p.flags|
    ensures UsedBy(p, i) == p.words[..Min(IndexAt(p, i), |p.words|)]
  {
    if i > 0 {
      var j := i - 1;
      UsedWords(p, j);
      assert UsedBy(p, j) == p.words[..Min(IndexAt(p, j), |p.words|)];
      UsedWordsStep(p, j);
    }
  }

  lemma UsedWordsStep(p: Plan, i: nat)
    requires ValidPlan(p) && i < |p.flags|
    requires UsedBy(p, i) == p.words[..Min(IndexAt(p, i), |p.words|)]
    ensures UsedBy(p, i + 1) == p.words[..Min(IndexAt(p, i + 1), |p.words|)]
  {
    StepTokens(p, i);
    SliceConcat(p.words, UsedBy(p, i), LineTokens(p, i), Min(IndexAt(p, i), |p.words|), Min(IndexAt(p, i + 1), |p.words|));
  }

  lemma SliceConcat<T>(s: seq<T>, x: seq<T>, y: seq<T>, a: int, b: int)
    requires 0 <= a <= b <= |s| && x == s[..a] && y == s[a..b]
    ensures x + y == s[..b]
  {
  }

  /** Words are handed out in order and none twice: all lines' words, one
      after another, are a prefix of the translated words. */
  lemma TokensArePrefix(p: Plan)
    requires ValidPlan(p)
    ensures UsedBy(p, |p.flags|) <= p.words
  {
    UsedWords(p, |p.flags|);
  }

  predicate NoFlags(p: Plan) {
    forall i :: 0 <= i < |p.flags| ==> !p.flags[i]
  }

  lemma {:induction false} NoFlagsIndexInRange(p: Plan, i: nat)
    requires ValidPlan(p) && NoFlags(p) && i <= |p.flags|
    ensures IndexAt(p, i) <= |p.words|
  {
    if i > 0 {
      var j := i - 1;
      NoFlagsIndexInRange(p, j);
    }
  }

  /** Without list lines the last line takes whatever is left. */
  lemma NoFlagsLastIndex(p: Plan)
    requires ValidPlan(p) && NoFlags(p) && |p.flags| > 0
    ensures IndexAt(p, |p.flags|) == |p.words|
  {
    var n := |p.flags|;
    var before := IndexAt(p, n - 1);
    NoFlagsIndexInRange(p, n - 1);
    assert !TakesPair(p, n - 1, before);
    assert Count(p, n - 1, before) == |p.words| - before;
  }

  /** Without list lines every word is used exactly once, in order. */
  lemma NoFlagsUsesEveryWord(p: Plan)
    requires ValidPlan(p) && NoFlags(p) && |p.flags| > 0
    ensures UsedBy(p, |p.flags|) == p.words
  {
    var n := |p.flags|;
    NoFlagsLastIndex(p);
    UsedWords(p, n);
    assert Min(IndexAt(p, n), |p.words|) == |p.words|;
    assert p.words[..|p.words|] == p.words;
  }

  /** Without list lines a line other than the last gets the smaller of its
      quota and the words left. */
  lemma NoFlagsMiddleLine(p: Plan, i: nat)
    requires ValidPlan(p) && NoFlags(p) && i + 1 < |p.flags|
    ensures var left := |p.words| - |UsedBy(p, i)|;
            |LineTokens(p, i)| == if p.quotas[i] <= left then p.quotas[i] else left
  {
    NoFlagsCount(p, i);
  }

  /** Without list lines the last line gets every word left. */
  lemma NoFlagsLastLine(p: Plan, i: nat)
    requires ValidPlan(p) && NoFlags(p) && i + 1 == |p.flags|
    ensures |LineTokens(p, i)| == |p.words| - |UsedBy(p, i)|
  {
    NoFlagsCount(p, i);
  }

  /** Without list lines, line `i` receives `Count` words at the word index
      its predecessors have used up. */
  lemma NoFlagsCount(p: Plan, i: nat)
    requires ValidPlan(p) && NoFlags(p) && i < |p.flags|
    ensures |UsedBy(p, i)| == IndexAt(p, i)
    ensures |LineTokens(p, i)| == Count(p, i, IndexAt(p, i))
  {
    var before := IndexAt(p, i);
    UsedWords(p, i);
    NoFlagsIndexInRange(p, i);
    assert !TakesPair(p, i, before);
    StepTokens(p, i);
    NoFlagsIndexInRange(p, i + 1);
  }

  /** A flagged line with words left takes the next two of them, or the one
      that is left, whatever its width. */
  lemma FlaggedLineTakesTwo(p: Plan, i: nat)
    requires ValidPlan(p) && i < |p.flags| && p.flags[i]
    requires |UsedBy(p, i)| < |p.words|
    ensures var used := |UsedBy(p, i)|;
            LineTokens(p, i) == p.words[used..Min(used + 2, |p.words|)]
  {
    UsedWords(p, i);
    StepTokens(p, i);
  }

  /** A flagged last line stops after two words: when more than two words
      are left for it, the rest are never used. */
  lemma FlaggedLastLineDropsWords(p: Plan, i: nat)
    requires ValidPlan(p) && i == |p.flags| - 1 && p.flags[i]
    requires |UsedBy(p, i)| + 2 < |p.words|
    ensures |UsedBy(p, i + 1)| == |UsedBy(p, i)| + 2 < |p.words|
  {
    FlaggedLineTakesTwo(p, i);
    assert UsedBy(p, i + 1) == UsedBy(p, i) + LineTokens(p, i);
  }

  /** Each line's text splits back into the words it was given. */
  lemma LineSplitsBack(p: Plan, i: nat)
    requires ValidPlan(p) && i < |p.flags|
    requires forall k :: 0 <= k < |p.words| ==> |p.words[k]| > 0 && ' ' !in p.words[k]
    ensures Split(Distribute(p)[i], ' ') == LineTokens(p, i)
  {
    StepTokens(p, i);
    SplitJoin(LineTokens(p, i), ' ');
  }

  // ---------------------------------------------------------------------
  // SplitTranslatedBlock

  /** The list flag of each line: the pattern tested on the `i`-th word of the
      whole translation followed by a space, or on a lone space past the
      last word. */
  function Flags(cls: CharClasses, words: seq<string>, n: nat): (flags: seq<bool>)
    ensures |flags| == n
  {
    seq(n, i requires 0 <= i < n => IsListPrefix(cls, (if |words| > i then words[i] else "") + " "))
  }

  /** Line `i`'s flag is decided by the `i`-th translated word, not by the
      words the line receives; lines past the last word are never flagged. */
  lemma FlagOfLine(cls: CharClasses, words: seq<string>, n: nat, i: nat)
    requires i < n
    ensures Flags(cls, words, n)[i] <==> i < |words| && IsListPrefix(cls, words[i] + " ")
  {
    var w := if |words| > i then words[i] else "";
    assert Flags(cls, words, n)[i] == IsListPrefix(cls, w + " ");
    if |words| <= i {
      assert w + " " == " ";
      SpaceIsNoMarker(cls);
    }
  }

  function Widths(lines: seq<OcrLine>): (ws: seq<int>)
    ensures |ws| == |lines| && forall i :: 0 <= i < |lines| ==> ws[i] == lines[i].box.width
  {
    seq(|lines|, i requires 0 <= i < |lines| => lines[i].box.width)
  }

  /** The source divides by the total width whenever there are two lines or
      more; a zero total gives a NaN ratio there. */
  predicate Distributable(lines: seq<OcrLine>) {
    |lines| >= 2 ==> Sum(Widths(lines)) > 0
  }

  /** What `SplitTranslatedBlock` returns for `translated` and the block's
      lines. */
  function SplitSpec(cls: CharClasses, translated: string, lines: seq<OcrLine>): (r: seq<string>)
    requires Distributable(lines)
    ensures |r| == |lines|
  {
    var split := Split(translated, '\n');
    if |split| == |lines| then split
    else
      var words := Split(translated, ' ');
      if |words| == 0 then seq(|lines|, i => "")
      else Distribute(Plan(words, Quotas(|words|, Widths(lines)), Flags(cls, words, |lines|)))
  }

  /** The newline fast path: a translation that keeps the block's line
      structure is returned line for line. */
  lemma NewlinesArePreserved(cls: CharClasses, pieces: seq<string>, lines: seq<OcrLine>)
    requires Distributable(lines) && |pieces| == |lines|
    requires forall i :: 0 <= i < |pieces| ==> |pieces[i]| > 0 && '\n' !in pieces[i]
    ensures SplitSpec(cls, Join("\n", pieces), lines) == pieces
  {
    SplitJoin(pieces, '\n');
  }

  /** Without the fast path, a text with no space-separated word gives every
      line the empty string. */
  lemma NoWordsGivesEmptyLines(cls: CharClasses, translated: string, lines: seq<OcrLine>)
    requires Distributable(lines)
    requires |Split(translated, '\n')| != |lines| && |Split(translated, ' ')| == 0
    ensures forall i :: 0 <= i < |lines| ==> SplitSpec(cls, translated, lines)[i] == ""
  {
  }

  /** One step of the distribution loop: what line `i` takes and where the
      next line starts. */
  lemma LineStep(p: Plan, i: nat, wordIndex: int)
    requires ValidPlan(p) && i < |p.flags| && wordIndex == IndexAt(p, i)
    ensures TakesPair(p, i, wordIndex) ==>
              LineTokens(p, i) == Take(Skip(p.words, wordIndex), 2) && IndexAt(p, i + 1) == wordIndex + 2
    ensures !TakesPair(p, i, wordIndex) ==>
              LineTokens(p, i) == Take(Skip(p.words, wordIndex), Count(p, i, wordIndex))
              && IndexAt(p, i + 1) == wordIndex + Count(p, i, wordIndex)
  {
  }

  /** `result[i] = line`, seen as extending the filled prefix by one. */
  method Store(result: array<string>, i: nat, line: string)
    requires i < result.Length
    modifies result
    ensures result[..i + 1] == old(result[..i]) + [line]
    ensures result[i + 1..] == old(result[i + 1..])
  {
    result[i] := line;
    assert result[..i + 1] == result[..i] + [result[i]];
  }

  /** The body of the distribution loop for line `i`: the line's text and
      the word index the next line starts at. */
  method NextLine(ghost p: Plan, ghost widths: seq<int>, words: seq<string>, n: nat, i: nat, wordIndex: int,
                  isList: bool, width: int, totalWidth: int)
    returns (line: string, next: int)
    requires |widths| == n && (n >= 2 ==> Sum(widths) > 0)
    requires p == Plan(words, Quotas(|words|, widths), p.flags) && ValidPlan(p)
    requires i < n && wordIndex == IndexAt(p, i)
    requires isList == p.flags[i] && width == widths[i] && totalWidth == Sum(widths)
    ensures line == Join(" ", LineTokens(p, i)) && next == IndexAt(p, i + 1)
  {
    var totalWords := |words|;
    var wordCount := if i == n - 1 then totalWords - wordIndex
                     else Max(1, ProportionalCount(totalWords, width, totalWidth));
    assert wordCount == Share(p, i, wordIndex);
    wordCount := Min(wordCount, totalWords - wordIndex);
    assert wordCount == Count(p, i, wordIndex);
    LineStep(p, i, wordIndex);
    if isList && wordIndex < totalWords {
      line := Join(" ", Take(Skip(words, wordIndex), 2));
      next := wordIndex + 2;
    } else {
      line := Join(" ", Take(Skip(words, wordIndex), wordCount));
      next := wordIndex + wordCount;
    }
  }

  /** `SplitTranslatedBlock`: the list flags are filled in a first loop, then
      the lines receive their words while `wordIndex` advances. */
  method SplitTranslatedBlock(translatedBlock: string, originalLines: seq<OcrLine>, cls: CharClasses)
    returns (r: seq<string>)
    requires Distributable(originalLines)
    ensures r == SplitSpec(cls, translatedBlock, originalLines)
  {
    var split := Split(translatedBlock, '\n');
    if |split| == |originalLines| {
      return split;
    }
    var words := Split(translatedBlock, ' ');
    if |words| == 0 {
      return seq(|originalLines|, i => "");
    }
    var isListLine := DetectListLines(cls, words, |originalLines|);
    r := DistributeWords(words, originalLines, isListLine[..]);
  }

  /** The first loop of `SplitTranslatedBlock`: line `i` is a list line when
      the `i`-th translated word followed by a space starts with a marker. */
  method DetectListLines(cls: CharClasses, words: seq<string>, n: nat) returns (isListLine: array<bool>)
    ensures fresh(isListLine) && isListLine[..] == Flags(cls, words, n)
  {
    isListLine := new bool[n];
    for i := 0 to n
      invariant forall k :: 0 <= k < i ==> isListLine[k] == Flags(cls, words, n)[k]
    {
      var firstWord := if |words| > i then words[i] else "";
      isListLine[i] := IsListPrefix(cls, firstWord + " ");
    }
  }

  /** The second loop of `SplitTranslatedBlock`: hands the words out line by
      line, two to a list line and the rounded width share to any other. */
  method DistributeWords(words: seq<string>, originalLines: seq<OcrLine>, isListLine: seq<bool>)
    returns (r: seq<string>)
    requires Distributable(originalLines) && |isListLine| == |originalLines|
    ensures r == Distribute(Plan(words, Quotas(|words|, Widths(originalLines)), isListLine))
  {
    ghost var widths := Widths(originalLines);
    ghost var p := Plan(words, Quotas(|words|, widths), isListLine);
    var totalWidth := Sum(Widths(originalLines));
    r := FillLines(p, widths, words, originalLines, isListLine, totalWidth);
  }

  /** The second loop of `SplitTranslatedBlock`, writing each line's text
      into the result array in turn. */
  method FillLines(ghost p: Plan, ghost widths: seq<int>, words: seq<string>, originalLines: seq<OcrLine>,
                   isListLine: seq<bool>, totalWidth: int)
    returns (r: seq<string>)
    requires widths == Widths(originalLines) && (|widths| >= 2 ==> Sum(widths) > 0)
    requires p == Plan(words, Quotas(|words|, widths), isListLine) && |isListLine| == |widths|
    requires totalWidth == Sum(widths)
    ensures r == Distribute(p)
  {
    assert ValidPlan(p);
    ghost var d := Distribute(p);
    var n := |originalLines|;
    var result := new string[n];
    var wordIndex := 0;
    for i := 0 to n
      invariant wordIndex == IndexAt(p, i)
      invariant result[..i] == d[..i]
    {
      wordIndex := FillLine(p, widths, d, words, originalLines, isListLine, totalWidth, result, i, wordIndex);
    }
    r := result[..];
    assert r == result[..n] && d == d[..n];
  }

  /** One pass of the second loop: line `i` is written at its place and the
      word index moves past its words. */
  method FillLine(ghost p: Plan, ghost widths: seq<int>, ghost d: seq<string>, words: seq<string>,
                  originalLines: seq<OcrLine>, isListLine: seq<bool>, totalWidth: int,
                  result: array<string>, i: nat, wordIndex: int)
    returns (next: int)
    requires widths == Widths(originalLines) && (|widths| >= 2 ==> Sum(widths) > 0)
    requires p == Plan(words, Quotas(|words|, widths), isListLine) && |isListLine| == |widths|
    requires totalWidth == Sum(widths) && ValidPlan(p) && d == Distribute(p)
    requires result.Length == |widths| && i < result.Length
    requires wordIndex == IndexAt(p, i) && result[..i] == d[..i]
    modifies result
    ensures next == IndexAt(p, i + 1) && result[..i + 1] == d[..i + 1]
    ensures result[i + 1..] == old(result[i + 1..])
  {
    var line;
    line, next := NextLine(p, widths, words, |originalLines|, i, wordIndex, isListLine[i], originalLines[i].box.width, totalWidth);
    Store(result, i, line);
    PrefixSnoc(d, i);
  }

  // ---------------------------------------------------------------------
  // ProcessTranslationFromOCR

  /** `TranslatedText`: what the renderer draws for one line. */
  datatype TranslatedText = TranslatedText(
    originalText: string,
    translatedTextValue: string,
    box: Rect,
    textColor: Color,
    backgroundColor: Color,
    blockId: int)

  /** The collaborators the pipeline calls but this model does not see: the
      Cloud Translation service, `HttpUtility.HtmlDecode`, and the character
      classes of the list-marker pattern. */
  datatype Services = Services(translate: TranslationService, htmlDecode: string -> string, cls: CharClasses)

  /** `line.Words.FirstOrDefault()?.TextColor ?? Color.White`. */
  function LineTextColor(line: OcrLine): Color {
    if |line.words| > 0 then line.words[0].textColor else White
  }

  /** The entry for one line of block `blockId` translated to `translated`. */
  function Entry(line: OcrLine, translated: string, blockId: int): TranslatedText {
    TranslatedText(line.lineText, translated, line.box, LineTextColor(line), line.backgroundColor, blockId)
  }

  function LineTexts(lines: seq<OcrLine>): (r: seq<string>)
    ensures |r| == |lines| && forall i :: 0 <= i < |lines| ==> r[i] == lines[i].lineText
  {
    seq(|lines|, i requires 0 <= i < |lines| => lines[i].lineText)
  }

  /** The text sent for translation: the single line's text, or all lines
      joined by newlines. */
  function BlockText(block: OcrBlock): string {
    if |block.lines| == 1 then block.lines[0].lineText else Join("\n", LineTexts(block.lines))
  }

  /** The translation of each line of a block, given the decoded translation
      of its text: verbatim for a single line, redistributed otherwise. */
  function LineTranslations(cls: CharClasses, decoded: string, lines: seq<OcrLine>): (r: seq<string>)
    requires Distributable(lines)
    ensures |r| == |lines|
  {
    if |lines| == 1 then [decoded] else SplitSpec(cls, decoded, lines)
  }

  /** The entries of one block numbered `blockId`, or the error its
      translation raised. */
  function BlockEntries(block: OcrBlock, blockId: int, sourceLang: string, targetLang: string, env: Services)
    : Result<seq<TranslatedText>, TranslateError>
    requires Distributable(block.lines)
  {
    match TranslateText(BlockText(block), sourceLang, targetLang, env.translate)
    case Failure(e) => Failure(e)
    case Success(t) =>
      Success(Entries(block.lines, LineTranslations(env.cls, env.htmlDecode(t), block.lines), blockId))
  }

  /** One entry per line, pairing it with its translation, or with the empty
      string when the translation has no piece for it. */
  function Entries(lines: seq<OcrLine>, pieces: seq<string>, blockId: int): (r: seq<TranslatedText>)
    ensures |r| == |lines|
  {
    seq(|lines|, i requires 0 <= i < |lines| => Entry(lines[i], if i < |pieces| then pieces[i] else "", blockId))
  }

  predicate AllDistributable(blocks: seq<OcrBlock>) {
    forall k :: 0 <= k < |blocks| ==> Distributable(blocks[k].lines)
  }

  /** The entries of the blocks, numbered from 1, in order; the first
      translation error stops the pipeline. */
  function AllEntries(blocks: seq<OcrBlock>, sourceLang: string, targetLang: string, env: Services)
    : Result<seq<TranslatedText>, TranslateError>
    requires AllDistributable(blocks)
  {
    if |blocks| == 0 then Success([])
    else
      var n := |blocks| - 1;
      match AllEntries(blocks[..n], sourceLang, targetLang, env)
      case Failure(e) => Failure(e)
      case Success(before) =>
        match BlockEntries(blocks[n], n + 1, sourceLang, targetLang, env)
        case Failure(e) => Failure(e)
        case Success(mine) => Success(before + mine)
  }

  /** What `ProcessTranslationFromOCR` produces: nothing for an empty region
      or no blocks, otherwise the renderer's image of all entries. */
  function ProcessSpec<Bmp>(region: Image, blocks: seq<OcrBlock>, sourceLang: string, targetLang: string,
                            env: Services, drawFinalOverlay: (Image, seq<TranslatedText>) -> Bmp)
    : Result<Option<Bmp>, TranslateError>
    requires AllDistributable(blocks)
  {
    if region.Length0 <= 0 || region.Length1 <= 0 then Success(None)
    else if |blocks| == 0 then Success(None)
    else
      match AllEntries(blocks, sourceLang, targetLang, env)
      case Failure(e) => Failure(e)
      case Success(texts) => Success(Some(drawFinalOverlay(region, texts)))
  }

  /** `ProcessTranslationFromOCR`: numbers the blocks, translates each one,
      appends one `TranslatedText` per line and hands the list to the
      renderer. A translation error escapes as the method's failure. */
  method ProcessTranslationFromOCR<Bmp>(region: Image, ocrBlocks: seq<OcrBlock>, sourceLang: string, targetLang: string,
                                        env: Services, drawFinalOverlay: (Image, seq<TranslatedText>) -> Bmp)
    returns (r: Result<Option<Bmp>, TranslateError>)
    requires AllDistributable(ocrBlocks)
    ensures r == ProcessSpec(region, ocrBlocks, sourceLang, targetLang, env, drawFinalOverlay)
  {
    if region.Length0 <= 0 || region.Length1 <= 0 {
      return Success(None);
    }
    if |ocrBlocks| == 0 {
      return Success(None);
    }
    var translatedTexts: seq<TranslatedText> := [];
    var blockId := 0;
    for k := 0 to |ocrBlocks|
      invariant blockId == k
      invariant AllEntries(ocrBlocks[..k], sourceLang, targetLang, env) == Success(translatedTexts)
    {
      blockId := blockId + 1;
      var entries := TranslateBlock(ocrBlocks[k], blockId, sourceLang, targetLang, env);
      if entries.Failure? {
        assert ocrBlocks[..k + 1][..k] == ocrBlocks[..k];
        FailureStops(ocrBlocks, k + 1, sourceLang, targetLang, env);
        return Failure(entries.error);
      }
      EntriesStep(ocrBlocks, k, sourceLang, targetLang, env);
      translatedTexts := translatedTexts + entries.value;
    }
    assert ocrBlocks[..|ocrBlocks|] == ocrBlocks;
    r := Success(Some(drawFinalOverlay(region, translatedTexts)));
  }

  /** The body of the block loop: a single line is translated directly, a
      block of several lines is translated as one newline-joined text whose
      translation is then split across the lines. */
  method TranslateBlock(block: OcrBlock, blockId: int, sourceLang: string, targetLang: string, env: Services)
    returns (r: Result<seq<TranslatedText>, TranslateError>)
    requires Distributable(block.lines)
    ensures r == BlockEntries(block, blockId, sourceLang, targetLang, env)
  {
    if |block.lines| == 1 {
      var line := block.lines[0];
      assert BlockText(block) == line.lineText;
      var translation := TranslateText(line.lineText, sourceLang, targetLang, env.translate);
      if translation.Failure? {
        return Failure(translation.error);
      }
      var translatedLine := env.htmlDecode(translation.value);
      r := Success([Entry(line, translatedLine, blockId)]);
      assert Entries(block.lines, [translatedLine], blockId) == r.value;
    } else {
      var blockText := Join("\n", LineTexts(block.lines));
      assert BlockText(block) == blockText;
      var translation := TranslateText(blockText, sourceLang, targetLang, env.translate);
      if translation.Failure? {
        return Failure(translation.error);
      }
      var translatedBlock := env.htmlDecode(translation.value);
      var translatedLines := SplitTranslatedBlock(translatedBlock, block.lines, env.cls);
      var texts := PairLines(block.lines, translatedLines, blockId);
      r := Success(texts);
    }
  }

  /** The inner loop of a multi-line block: one entry per line, with an
      empty translation for a line the split left without a piece. */
  method PairLines(lines: seq<OcrLine>, translatedLines: seq<string>, blockId: int)
    returns (texts: seq<TranslatedText>)
    ensures texts == Entries(lines, translatedLines, blockId)
  {
    ghost var mine := Entries(lines, translatedLines, blockId);
    texts := [];
    var i := 0;
    while i < |lines|
      invariant 0 <= i <= |lines|
      invariant texts == mine[..i]
    {
      var line := lines[i];
      var translatedLine := if i < |translatedLines| then translatedLines[i] else "";
      PrefixSnoc(mine, i);
      texts := texts + [Entry(line, translatedLine, blockId)];
      i := i + 1;
    }
    assert mine[..i] == mine;
  }

  lemma EntriesStep(blocks: seq<OcrBlock>, k: nat, sourceLang: string, targetLang: string, env: Services)
    requires AllDistributable(blocks) && k < |blocks|
    requires AllEntries(blocks[..k], sourceLang, targetLang, env).Success?
    requires BlockEntries(blocks[k], k + 1, sourceLang, targetLang, env).Success?
    ensures AllEntries(blocks[..k + 1], sourceLang, targetLang, env) ==
            Success(AllEntries(blocks[..k], sourceLang, targetLang, env).value +
                    BlockEntries(blocks[k], k + 1, sourceLang, targetLang, env).value)
  {
    assert blocks[..k + 1][..k] == blocks[..k];
  }

  /** Once a prefix of the blocks fails to translate, the whole run fails
      with that error. */
  lemma {:induction false} FailureStops(blocks: seq<OcrBlock>, k: nat, sourceLang: string, targetLang: string, env: Services)
    requires AllDistributable(blocks) && k <= |blocks|
    requires AllEntries(blocks[..k], sourceLang, targetLang, env).Failure?
    ensures AllEntries(blocks, sourceLang, targetLang, env) == AllEntries(blocks[..k], sourceLang, targetLang, env)
    decreases |blocks| - k
  {
    if k < |blocks| {
      assert blocks[..k + 1][..k] == blocks[..k];
      FailureStops(blocks, k + 1, sourceLang, targetLang, env);
    } else {
      assert blocks[..k] == blocks;
    }
  }

  /** Every line the recogniser builds has a positive width, so its blocks
      meet the width precondition of `SplitTranslatedBlock`. */
  lemma RecognisedBlockIsDistributable(img: Image, vb: VisionBlock, block: OcrBlock)
    requires BlockFrom(img, vb, block)
    ensures Distributable(block.lines)
  {
    var groups := GroupLines(SortBy(BlockWords(vb), KeyY));
    var ws := Widths(block.lines);
    forall i | 0 <= i < |ws|
      ensures ws[i] > 0
    {
      assert LineFrom(img, groups[i], block.lines[i]);
    }
    if |ws| > 0 {
      SumPositive(ws);
    }
  }

  /** The whole recognition result meets the width precondition of
      `ProcessTranslationFromOCR`. */
  lemma RecognisedBlocksAreDistributable(img: Image, vbs: seq<VisionBlock>, blocks: seq<OcrBlock>)
    requires BlocksFrom(img, vbs, blocks)
    ensures AllDistributable(blocks)
  {
    forall k | 0 <= k < |blocks|
      ensures Distributable(blocks[k].lines)
    {
      assert BlockFrom(img, vbs[k], blocks[k]);
      RecognisedBlockIsDistributable(img, vbs[k], blocks[k]);
    }
  }

  lemma {:induction false} SumPositive(xs: seq<int>)
    requires |xs| > 0 && forall i :: 0 <= i < |xs| ==> xs[i] > 0
    ensures Sum(xs) > 0
  {
    if |xs| > 1 {
      SumPositive(xs[..|xs| - 1]);
    }
  }

  /** An empty region or an empty block list gives no image, before any
      translation: the result does not depend on the services at all. */
  lemma EarlyExitSkipsTranslation<Bmp>(region: Image, blocks: seq<OcrBlock>, sourceLang: string, targetLang: string,
                                       env1: Services, env2: Services, draw: (Image, seq<TranslatedText>) -> Bmp)
    requires AllDistributable(blocks)
    requires region.Length0 == 0 || region.Length1 == 0 || |blocks| == 0
    ensures ProcessSpec(region, blocks, sourceLang, targetLang, env1, draw) == Success(None)
    ensures ProcessSpec(region, blocks, sourceLang, targetLang, env2, draw) == Success(None)
  {
  }

  /** Each line of a translated block yields one entry carrying the block's
      number, the line's text, box and background, the first word's colour
      (White for a line without words) and the line's share of the decoded
      translation. */
  lemma BlockEntriesFields(block: OcrBlock, blockId: int, sourceLang: string, targetLang: string, env: Services)
    requires Distributable(block.lines)
    requires BlockEntries(block, blockId, sourceLang, targetLang, env).Success?
    ensures var t := TranslateText(BlockText(block), sourceLang, targetLang, env.translate).value;
            var pieces := LineTranslations(env.cls, env.htmlDecode(t), block.lines);
            var es := BlockEntries(block, blockId, sourceLang, targetLang, env).value;
            && |es| == |block.lines|
            && forall i :: 0 <= i < |es| ==>
                 && es[i].blockId == blockId
                 && es[i].originalText == block.lines[i].lineText
                 && es[i].translatedTextValue == pieces[i]
                 && es[i].box == block.lines[i].box
                 && es[i].backgroundColor == block.lines[i].backgroundColor
                 && es[i].textColor == (if |block.lines[i].words| > 0 then block.lines[i].words[0].textColor else White)
  {
  }

  /** Every line of every block, paired with its block's 1-based number, in
      block order and line order. */
  function NumberedLines(blocks: seq<OcrBlock>): (r: seq<(int, OcrLine)>)
    ensures forall j :: 0 <= j < |r| ==> 1 <= r[j].0 <= |blocks|
  {
    if |blocks| == 0 then []
    else
      var n := |blocks| - 1;
      NumberedLines(blocks[..n]) + seq(|blocks[n].lines|, i requires 0 <= i < |blocks[n].lines| => (n + 1, blocks[n].lines[i]))
  }

  /** The entry built for a numbered line. */
  predicate EntryMatches(e: TranslatedText, numbered: (int, OcrLine)) {
    && e.blockId == numbered.0
    && e.originalText == numbered.1.lineText
    && e.box == numbered.1.box
    && e.backgroundColor == numbered.1.backgroundColor
    && e.textColor == LineTextColor(numbered.1)
  }

  /** A successful run yields exactly one entry per line of every block, in
      order, each numbered with its block's 1-based position and carrying
      that line's text, box and colours. */
  lemma {:induction false} EntriesFollowLines(blocks: seq<OcrBlock>, sourceLang: string, targetLang: string, env: Services)
    requires AllDistributable(blocks)
    requires AllEntries(blocks, sourceLang, targetLang, env).Success?
    ensures var ts := AllEntries(blocks, sourceLang, targetLang, env).value;
            && |ts| == |NumberedLines(blocks)|
            && forall j :: 0 <= j < |ts| ==> EntryMatches(ts[j], NumberedLines(blocks)[j])
  {
    if |blocks| > 0 {
      var n := |blocks| - 1;
      assert AllDistributable(blocks[..n]);
      EntriesFollowLines(blocks[..n], sourceLang, targetLang, env);
      var before := AllEntries(blocks[..n], sourceLang, targetLang, env).value;
      var mine := BlockEntries(blocks[n], n + 1, sourceLang, targetLang, env).value;
      BlockEntriesFields(blocks[n], n + 1, sourceLang, targetLang, env);
      var ts := AllEntries(blocks, sourceLang, targetLang, env).value;
      var nl := NumberedLines(blocks);
      assert ts == before + mine;
      forall j | 0 <= j < |ts|
        ensures EntryMatches(ts[j], nl[j])
      {
        if j >= |before| {
          assert ts[j] == mine[j - |before|];
        }
      }
    }
  }

  /** Whether block `k` (numbered `k + 1`) translates without error. */
  predicate BlockTranslates(blocks: seq<OcrBlock>, k: int, sourceLang: string, targetLang: string, env: Services)
    requires AllDistributable(blocks) && 0 <= k < |blocks|
  {
    BlockEntries(blocks[k], k + 1, sourceLang, targetLang, env).Success?
  }

  lemma RunStep(blocks: seq<OcrBlock>, sourceLang: string, targetLang: string, env: Services)
    requires AllDistributable(blocks) && |blocks| > 0
    ensures AllDistributable(blocks[..|blocks| - 1])
    ensures AllEntries(blocks, sourceLang, targetLang, env).Success? <==>
            AllEntries(blocks[..|blocks| - 1], sourceLang, targetLang, env).Success? &&
            BlockTranslates(blocks, |blocks| - 1, sourceLang, targetLang, env)
  {
  }

  /** A run succeeds exactly when the translation of every block does. */
  lemma {:induction false} RunSucceedsIffEveryBlockDoes(blocks: seq<OcrBlock>, sourceLang: string, targetLang: string, env: Services)
    requires AllDistributable(blocks)
    ensures AllEntries(blocks, sourceLang, targetLang, env).Success? <==>
            forall k :: 0 <= k < |blocks| ==> BlockTranslates(blocks, k, sourceLang, targetLang, env)
  {
    if |blocks| > 0 {
      var n := |blocks| - 1;
      var prefix := blocks[..n];
      assert AllDistributable(prefix);
      RunSucceedsIffEveryBlockDoes(prefix, sourceLang, targetLang, env);
      RunStep(blocks, sourceLang, targetLang, env);
      if AllEntries(blocks, sourceLang, targetLang, env).Success? {
        forall k | 0 <= k < |blocks|
          ensures BlockTranslates(blocks, k, sourceLang, targetLang, env)
        {
          if k < n {
            assert BlockTranslates(prefix, k, sourceLang, targetLang, env);
            assert prefix[k] == blocks[k];
          } else {
            assert k == n;
          }
        }
      } else if AllEntries(prefix, sourceLang, targetLang, env).Failure? {
        var k :| 0 <= k < n && !BlockTranslates(prefix, k, sourceLang, targetLang, env);
        assert prefix[k] == blocks[k];
        assert !BlockTranslates(blocks, k, sourceLang, targetLang, env);
      } else {
        assert !BlockTranslates(blocks, n, sourceLang, targetLang, env);
      }
    }
  }
}
