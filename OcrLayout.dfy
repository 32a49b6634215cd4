/** Layout reconstruction of OCR.cs `RecognizeTextBlocksFromRegion`: each
    word of the text-detection response gets the min/max envelope of its
    vertices as its box; the words of one response block are stably sorted by
    top Y and grouped greedily into lines (a word joins the last line when its
    Y is within 5 px of that line's first word); each line is re-sorted by X,
    its text joined with single spaces, its box set to the envelope of its
    words, and its background and word colours estimated on the image. */
module OcrLayout {
  import opened Common
  import opened Strings
  import opened Imaging
  import opened OcrColor

  // ---------------------------------------------------------------------
  // The text-detection response (pages → blocks → paragraphs → words → symbols)

  datatype Vertex = Vertex(x: int, y: int)
  datatype Symbol = Symbol(text: string)
  datatype VisionWord = VisionWord(symbols: seq<Symbol>, vertices: seq<Vertex>)
  datatype Paragraph = Paragraph(words: seq<VisionWord>)
  datatype VisionBlock = VisionBlock(paragraphs: seq<Paragraph>, confidence: real)
  datatype Page = Page(blocks: seq<VisionBlock>)
  datatype AnnotateResponse = AnnotateResponse(pages: seq<Page>)

  // ---------------------------------------------------------------------
  // The records the recogniser produces

  /** The per-word tuple gathered for one block (text, box, confidence); the
      tuple's `y` is `box.y`, and its provisional colour is never read. */
  datatype RawWord = RawWord(text: string, box: Rect, confidence: real)

  /** `OCRResult`. */
  datatype OcrResult = OcrResult(text: string, box: Rect, confidence: real, textColor: Color, backgroundColor: Color)

  /** `OCRLine`. */
  datatype OcrLine = OcrLine(lineText: string, box: Rect, backgroundColor: Color, words: seq<OcrResult>)

  /** `OCRBlock`. */
  datatype OcrBlock = OcrBlock(lines: seq<OcrLine>)

  /** `LINE_SPACING_THRESHOLD`, in pixels. */
  const LineSpacingThreshold: int := 5

  function Abs(x: int): nat { if x < 0 then -x else x }

  // ---------------------------------------------------------------------
  // Word geometry

  /** `string.Concat(word.Symbols.Select(s => s.Text))`. */
  function SymbolText(symbols: seq<Symbol>): string {
    if |symbols| == 0 then "" else SymbolText(symbols[..|symbols| - 1]) + symbols[|symbols| - 1].text
  }

  function Xs(vs: seq<Vertex>): (r: seq<int>)
    ensures |r| == |vs| && forall i :: 0 <= i < |vs| ==> r[i] == vs[i].x
  {
    seq(|vs|, i requires 0 <= i < |vs| => vs[i].x)
  }

  function Ys(vs: seq<Vertex>): (r: seq<int>)
    ensures |r| == |vs| && forall i :: 0 <= i < |vs| ==> r[i] == vs[i].y
  {
    seq(|vs|, i requires 0 <= i < |vs| => vs[i].y)
  }

  /** The word's box: X and Y are the vertex minima, width and height the
      spans to the vertex maxima. Every vertex lies in the box and every edge
      of the box touches a vertex. */
  function WordBox(vs: seq<Vertex>): (box: Rect)
    requires |vs| > 0
    ensures box.width >= 0 && box.height >= 0
  {
    var x := MinOf(Xs(vs));
    var y := MinOf(Ys(vs));
    var width := MaxOf(Xs(vs)) - x;
    var height := MaxOf(Ys(vs)) - y;
    Rect(x, y, width, height)
  }

  /** Every vertex lies in the word's box and every edge of the box touches
      a vertex. */
  lemma WordBoxBounds(vs: seq<Vertex>)
    requires |vs| > 0
    ensures var box := WordBox(vs);
            && (forall i :: 0 <= i < |vs| ==> ContainsPoint(box, vs[i].x, vs[i].y))
            && (exists i :: 0 <= i < |vs| && vs[i].x == box.x)
            && (exists i :: 0 <= i < |vs| && vs[i].y == box.y)
            && (exists i :: 0 <= i < |vs| && vs[i].x == Right(box))
            && (exists i :: 0 <= i < |vs| && vs[i].y == Bottom(box))
  {
    var box := WordBox(vs);
    assert box.x == MinOf(Xs(vs)) && box.y == MinOf(Ys(vs));
    assert Right(box) == MaxOf(Xs(vs)) && Bottom(box) == MaxOf(Ys(vs));
  }

  /** No smaller rectangle holds all the vertices. */
  lemma WordBoxIsSmallest(vs: seq<Vertex>, r: Rect)
    requires |vs| > 0
    requires forall i :: 0 <= i < |vs| ==> ContainsPoint(r, vs[i].x, vs[i].y)
    ensures ContainsRect(r, WordBox(vs))
  {
    var box := WordBox(vs);
    WordBoxBounds(vs);
    var a :| 0 <= a < |vs| && vs[a].x == box.x;
    var b :| 0 <= b < |vs| && vs[b].y == box.y;
    var c :| 0 <= c < |vs| && vs[c].x == Right(box);
    var d :| 0 <= d < |vs| && vs[d].y == Bottom(box);
    assert ContainsPoint(r, vs[a].x, vs[a].y);
    assert ContainsPoint(r, vs[b].x, vs[b].y);
    assert ContainsPoint(r, vs[c].x, vs[c].y);
    assert ContainsPoint(r, vs[d].x, vs[d].y);
  }

  /** The tuple recorded for one word of a block with the given confidence. */
  function ToRawWord(w: VisionWord, confidence: real): RawWord
    requires |w.vertices| > 0
  {
    RawWord(SymbolText(w.symbols), WordBox(w.vertices), confidence)
  }

  predicate WordsHaveVertices(ws: seq<VisionWord>) {
    forall j :: 0 <= j < |ws| ==> |ws[j].vertices| > 0
  }

  predicate ParagraphsHaveVertices(ps: seq<Paragraph>) {
    forall i :: 0 <= i < |ps| ==> WordsHaveVertices(ps[i].words)
  }

  function WordsOf(ws: seq<VisionWord>, confidence: real): (r: seq<RawWord>)
    requires WordsHaveVertices(ws)
    ensures |r| == |ws|
  {
    seq(|ws|, j requires 0 <= j < |ws| => ToRawWord(ws[j], confidence))
  }

  function ParagraphWords(ps: seq<Paragraph>, confidence: real): seq<RawWord>
    requires ParagraphsHaveVertices(ps)
  {
    if |ps| == 0 then []
    else ParagraphWords(ps[..|ps| - 1], confidence) + WordsOf(ps[|ps| - 1].words, confidence)
  }

  /** All words of a block, paragraph after paragraph, in response order. */
  function BlockWords(vb: VisionBlock): seq<RawWord>
    requires ParagraphsHaveVertices(vb.paragraphs)
  {
    ParagraphWords(vb.paragraphs, vb.confidence)
  }

  // ---------------------------------------------------------------------
  // Stable sorting (LINQ `OrderBy`)

  function KeyY(w: RawWord): int { w.box.y }
  function KeyX(w: RawWord): int { w.box.x }

  ghost predicate SortedBy<T>(s: seq<T>, key: T -> int) {
    forall i, j :: 0 <= i < j < |s| ==> key(s[i]) <= key(s[j])
  }

  /** Inserts `x` before the first element whose key is not smaller, so that
      `x` precedes the equal keys that follow it in the input. */
  function Insert<T>(x: T, t: seq<T>, key: T -> int): (r: seq<T>)
    ensures multiset(r) == multiset(t) + multiset{x}
  {
    if |t| == 0 then [x]
    else if key(x) <= key(t[0]) then [x] + t
    else
      assert t == [t[0]] + t[1..];
      [t[0]] + Insert(x, t[1..], key)
  }

  lemma {:induction false} InsertSorted<T>(x: T, t: seq<T>, key: T -> int)
    requires SortedBy(t, key)
    ensures SortedBy(Insert(x, t, key), key)
  {
    if |t| > 0 && key(x) > key(t[0]) {
      var rest := Insert(x, t[1..], key);
      InsertSorted(x, t[1..], key);
      forall i | 0 <= i < |rest|
        ensures key(t[0]) <= key(rest[i])
      {
        assert rest[i] in multiset(rest);
        if rest[i] != x {
          assert rest[i] in multiset(t[1..]);
          var j :| 0 <= j < |t[1..]| && t[1..][j] == rest[i];
          assert t[1..][j] == t[j + 1];
        }
      }
    }
  }

  /** `OrderBy(key)`: a stable insertion sort. It is a permutation of its
      input; `SortByIsSorted` and `SortIsStable` add order and stability. */
  function SortBy<T>(s: seq<T>, key: T -> int): (r: seq<T>)
    ensures multiset(r) == multiset(s)
    ensures |r| == |s|
  {
    if |s| == 0 then []
    else
      var rest := SortBy(s[1..], key);
      assert s == [s[0]] + s[1..];
      assert |multiset(Insert(s[0], rest, key))| == |multiset(s)|;
      Insert(s[0], rest, key)
  }

  /** The sort orders its result by the key. */
  lemma {:induction false} SortByIsSorted<T>(s: seq<T>, key: T -> int)
    ensures SortedBy(SortBy(s, key), key)
  {
    if |s| > 0 {
      SortByIsSorted(s[1..], key);
      InsertSorted(s[0], SortBy(s[1..], key), key);
    }
  }

  /** The elements of `s` whose key is `k`, in order. */
  function WithKey<T>(s: seq<T>, key: T -> int, k: int): seq<T> {
    if |s| == 0 then []
    else (if key(s[0]) == k then [s[0]] else []) + WithKey(s[1..], key, k)
  }

  /** Inserting puts `x` ahead of every element with the same key. */
  lemma {:induction false} WithKeyInsert<T>(x: T, t: seq<T>, key: T -> int, k: int)
    ensures WithKey(Insert(x, t, key), key, k) == (if key(x) == k then [x] else []) + WithKey(t, key, k)
  {
    var mine: seq<T> := if key(x) == k then [x] else [];
    if |t| == 0 {
      assert WithKey([x], key, k) == mine + WithKey([x][1..], key, k);
    } else if key(x) <= key(t[0]) {
      assert ([x] + t)[1..] == t;
      assert WithKey([x] + t, key, k) == mine + WithKey(t, key, k);
    } else {
      var tail := t[1..];
      var rest := Insert(x, tail, key);
      var head: seq<T> := if key(t[0]) == k then [t[0]] else [];
      var w := WithKey(tail, key, k);
      WithKeyInsert(x, tail, key, k);
      assert WithKey(rest, key, k) == mine + w;
      assert Insert(x, t, key) == [t[0]] + rest;
      assert ([t[0]] + rest)[1..] == rest;
      assert WithKey([t[0]] + rest, key, k) == head + (mine + w);
      assert WithKey(t, key, k) == head + w;
      SwapEmpty(head, mine, w);
    }
  }

  /** When one of two sequences is empty they commute in front of a third. */
  lemma SwapEmpty<T>(a: seq<T>, b: seq<T>, c: seq<T>)
    requires a == [] || b == []
    ensures a + (b + c) == b + (a + c)
  {
    if a == [] {
      assert a + (b + c) == b + c;
      assert a + c == c;
    } else {
      assert b + (a + c) == a + c;
      assert b + c == c;
    }
  }

  /** Sorting keeps the relative order of elements with equal keys. */
  lemma {:induction false} SortIsStable<T>(s: seq<T>, key: T -> int, k: int)
    ensures WithKey(SortBy(s, key), key, k) == WithKey(s, key, k)
  {
    if |s| > 0 {
      SortIsStable(s[1..], key, k);
      WithKeyInsert(s[0], SortBy(s[1..], key), key, k);
    }
  }

  lemma SortPreserves<T>(s: seq<T>, key: T -> int, x: T)
    ensures x in SortBy(s, key) <==> x in s
  {
    assert x in multiset(SortBy(s, key)) <==> x in multiset(s);
  }

  // ---------------------------------------------------------------------
  // Grouping sorted words into lines

  /** One step of the grouping loop: `w` joins the last group when its Y lies
      within `LineSpacingThreshold` of that group's first word, and otherwise
      opens a new group. */
  function AddWord(groups: seq<seq<RawWord>>, w: RawWord): (r: seq<seq<RawWord>>)
    requires forall i :: 0 <= i < |groups| ==> |groups[i]| > 0
    ensures forall i :: 0 <= i < |r| ==> |r[i]| > 0
  {
    if |groups| > 0 && Abs(w.box.y - groups[|groups| - 1][0].box.y) <= LineSpacingThreshold then
      groups[..|groups| - 1] + [groups[|groups| - 1] + [w]]
    else
      groups + [[w]]
  }

  /** A step of the grouping appends the word to the words read so far. */
  lemma AddWordAppends(groups: seq<seq<RawWord>>, w: RawWord)
    requires forall i :: 0 <= i < |groups| ==> |groups[i]| > 0
    ensures Flatten(AddWord(groups, w)) == Flatten(groups) + [w]
  {
    if |groups| > 0 && Abs(w.box.y - groups[|groups| - 1][0].box.y) <= LineSpacingThreshold {
      var init := groups[..|groups| - 1];
      var last := groups[|groups| - 1];
      assert groups == init + [last];
      FlattenSnoc(init, last);
      FlattenSnoc(init, last + [w]);
    } else {
      FlattenSnoc(groups, [w]);
    }
  }

  /** The groups the loop of `GroupWordsIntoLines` has built after seeing
      `words`. */
  function GroupLines(words: seq<RawWord>): (groups: seq<seq<RawWord>>)
    ensures forall i :: 0 <= i < |groups| ==> |groups[i]| > 0
    ensures Flatten(groups) == words
    decreases |words|
  {
    if |words| == 0 then []
    else
      assert words == words[..|words| - 1] + [words[|words| - 1]];
      AddWordAppends(GroupLines(words[..|words| - 1]), words[|words| - 1]);
      AddWord(GroupLines(words[..|words| - 1]), words[|words| - 1])
  }

  lemma GroupLinesStep(words: seq<RawWord>, i: nat)
    requires i < |words|
    ensures GroupLines(words[..i + 1]) == AddWord(GroupLines(words[..i]), words[i])
  {
    assert words[..i + 1][..i] == words[..i];
  }

  /** The loop over the Y-sorted words that appends to `lineGroups`. */
  method GroupWordsIntoLines(words: seq<RawWord>) returns (lineGroups: seq<seq<RawWord>>)
    ensures lineGroups == GroupLines(words)
  {
    lineGroups := [];
    var i := 0;
    while i < |words|
      invariant 0 <= i <= |words|
      invariant lineGroups == GroupLines(words[..i])
    {
      GroupLinesStep(words, i);
      lineGroups := PlaceWord(lineGroups, words[i]);
      i := i + 1;
    }
    assert words[..i] == words;
  }

  /** The loop body: the word joins the last line when it lies within the
      threshold of that line's first word, and opens a new line otherwise. */
  method PlaceWord(lineGroups: seq<seq<RawWord>>, word: RawWord) returns (r: seq<seq<RawWord>>)
    requires forall i :: 0 <= i < |lineGroups| ==> |lineGroups[i]| > 0
    ensures r == AddWord(lineGroups, word)
  {
    if |lineGroups| == 0 {
      r := lineGroups + [[word]];
    } else {
      var currentLine := lineGroups[|lineGroups| - 1];
      var baseY := currentLine[0].box.y;
      if Abs(word.box.y - baseY) <= LineSpacingThreshold {
        r := lineGroups[..|lineGroups| - 1] + [currentLine + [word]];
      } else {
        r := lineGroups + [[word]];
      }
    }
  }

  /** Every word of a group lies within the threshold of the group's first word. */
  ghost predicate MembersNearFirst(g: seq<seq<RawWord>>) {
    forall i, j :: 0 <= i < |g| && 0 <= j < |g[i]| ==>
      Abs(g[i][j].box.y - g[i][0].box.y) <= LineSpacingThreshold
  }

  /** The first words of consecutive groups lie farther apart than the threshold. */
  ghost predicate FirstsApart(g: seq<seq<RawWord>>) {
    forall i :: 0 <= i < |g| - 1 && |g[i]| > 0 && |g[i + 1]| > 0 ==>
      Abs(g[i + 1][0].box.y - g[i][0].box.y) > LineSpacingThreshold
  }

  /** The greedy grouping keeps each line within the threshold of its first
      word and opens a new line only beyond it. */
  lemma {:induction false} GroupingSpacing(words: seq<RawWord>)
    ensures MembersNearFirst(GroupLines(words))
    ensures FirstsApart(GroupLines(words))
  {
    if |words| > 0 {
      var prefix := words[..|words| - 1];
      var w := words[|words| - 1];
      GroupingSpacing(prefix);
      var init: seq<seq<RawWord>> := GroupLines(prefix);
      if |init| > 0 && Abs(w.box.y - init[|init| - 1][0].box.y) <= LineSpacingThreshold {
        JoinKeepsSpacing(init, w);
      } else {
        OpenKeepsSpacing(init, w);
      }
    }
  }

  /** Appending a word within the threshold to the last group keeps the spacing. */
  lemma JoinKeepsSpacing(init: seq<seq<RawWord>>, w: RawWord)
    requires |init| > 0 && forall i :: 0 <= i < |init| ==> |init[i]| > 0
    requires MembersNearFirst(init) && FirstsApart(init)
    requires Abs(w.box.y - init[|init| - 1][0].box.y) <= LineSpacingThreshold
    ensures MembersNearFirst(init[..|init| - 1] + [init[|init| - 1] + [w]])
    ensures FirstsApart(init[..|init| - 1] + [init[|init| - 1] + [w]])
  {
    var m := |init| - 1;
    var g: seq<seq<RawWord>> := init[..m] + [init[m] + [w]];
    assert |g| == |init|;
    forall i: int, j: int | 0 <= i < |g| && 0 <= j < |g[i]|
      ensures Abs(g[i][j].box.y - g[i][0].box.y) <= LineSpacingThreshold
    {
      if i < m {
        assert g[i] == init[i];
      } else if j < |init[m]| {
        assert g[i][j] == init[m][j] && g[i][0] == init[m][0];
      } else {
        assert g[i][j] == w && g[i][0] == init[m][0];
      }
    }
    forall i: int | 0 <= i < |g| - 1
      ensures Abs(g[i + 1][0].box.y - g[i][0].box.y) > LineSpacingThreshold
    {
      assert g[i][0] == init[i][0] && g[i + 1][0] == init[i + 1][0];
    }
  }

  /** Opening a new group beyond the threshold of the last group's first word
      keeps the spacing. */
  lemma OpenKeepsSpacing(init: seq<seq<RawWord>>, w: RawWord)
    requires forall i :: 0 <= i < |init| ==> |init[i]| > 0
    requires MembersNearFirst(init) && FirstsApart(init)
    requires |init| > 0 ==> Abs(w.box.y - init[|init| - 1][0].box.y) > LineSpacingThreshold
    ensures MembersNearFirst(init + [[w]])
    ensures FirstsApart(init + [[w]])
  {
    var g: seq<seq<RawWord>> := init + [[w]];
    forall i: int, j: int | 0 <= i < |g| && 0 <= j < |g[i]|
      ensures Abs(g[i][j].box.y - g[i][0].box.y) <= LineSpacingThreshold
    {
      if i < |init| {
        assert g[i] == init[i];
      }
    }
    forall i: int | 0 <= i < |g| - 1
      ensures Abs(g[i + 1][0].box.y - g[i][0].box.y) > LineSpacingThreshold
    {
      if i + 1 < |init| {
        assert g[i] == init[i] && g[i + 1] == init[i + 1];
      } else {
        assert g[i] == init[i] && g[i + 1][0] == w;
      }
    }
  }

  /** On Y-sorted input (the only input the source gives it) every word of a
      group lies 0 to 5 px below the group's first word, and each group's first
      word lies more than 5 px below the previous group's first word. */
  lemma SortedGroupingSpacing(words: seq<RawWord>)
    requires SortedBy(words, KeyY)
    ensures forall i, j :: 0 <= i < |GroupLines(words)| && 0 <= j < |GroupLines(words)[i]| ==>
              0 <= GroupLines(words)[i][j].box.y - GroupLines(words)[i][0].box.y <= LineSpacingThreshold
    ensures forall i :: 0 <= i < |GroupLines(words)| - 1 ==>
              GroupLines(words)[i + 1][0].box.y - GroupLines(words)[i][0].box.y > LineSpacingThreshold
  {
    var g: seq<seq<RawWord>> := GroupLines(words);
    GroupingSpacing(words);
    forall i: int, j: int | 0 <= i < |g| && 0 <= j < |g[i]|
      ensures 0 <= g[i][j].box.y - g[i][0].box.y <= LineSpacingThreshold
    {
      GroupOrder(g, i, 0, i, j);
      assert Abs(g[i][j].box.y - g[i][0].box.y) <= LineSpacingThreshold;
    }
    forall i: int | 0 <= i < |g| - 1
      ensures g[i + 1][0].box.y - g[i][0].box.y > LineSpacingThreshold
    {
      GroupOrder(g, i, 0, i + 1, 0);
      assert Abs(g[i + 1][0].box.y - g[i][0].box.y) > LineSpacingThreshold;
    }
  }

  /** Position of element `j` of group `i` in the flattening. */
  function FlatIndex<T>(g: seq<seq<T>>, i: nat, j: nat): nat
    requires i < |g| && j < |g[i]|
  {
    if i == 0 then j else |g[0]| + FlatIndex(g[1..], i - 1, j)
  }

  lemma {:induction false} FlatIndexAt<T>(g: seq<seq<T>>, i: nat, j: nat)
    requires i < |g| && j < |g[i]|
    ensures FlatIndex(g, i, j) < |Flatten(g)|
    ensures Flatten(g)[FlatIndex(g, i, j)] == g[i][j]
  {
    if i > 0 {
      FlatIndexAt(g[1..], i - 1, j);
    }
  }

  lemma {:induction false} FlatIndexOrder<T>(g: seq<seq<T>>, i: nat, j: nat, i': nat, j': nat)
    requires i < |g| && j < |g[i]| && i' < |g| && j' < |g[i']|
    requires i < i' || (i == i' && j <= j')
    ensures FlatIndex(g, i, j) <= FlatIndex(g, i', j')
  {
    if i > 0 {
      FlatIndexOrder(g[1..], i - 1, j, i' - 1, j');
    } else if i' > 0 {
      FlatIndexAt(g[1..], i' - 1, j');
    }
  }

  lemma GroupOrder(g: seq<seq<RawWord>>, i: nat, j: nat, i': nat, j': nat)
    requires SortedBy(Flatten(g), KeyY)
    requires i < |g| && j < |g[i]| && i' < |g| && j' < |g[i']|
    requires i < i' || (i == i' && j <= j')
    ensures g[i][j].box.y <= g[i'][j'].box.y
  {
    FlatIndexAt(g, i, j);
    FlatIndexAt(g, i', j');
    FlatIndexOrder(g, i, j, i', j');
    var a := FlatIndex(g, i, j);
    var b := FlatIndex(g, i', j');
    if a < b {
      assert KeyY(Flatten(g)[a]) <= KeyY(Flatten(g)[b]);
    }
  }

  // ---------------------------------------------------------------------
  // Line envelope

  function Boxes(ws: seq<RawWord>): (r: seq<Rect>)
    ensures |r| == |ws| && forall i :: 0 <= i < |ws| ==> r[i] == ws[i].box
  {
    seq(|ws|, i requires 0 <= i < |ws| => ws[i].box)
  }

  function Texts(ws: seq<RawWord>): (r: seq<string>)
    ensures |r| == |ws| && forall i :: 0 <= i < |ws| ==> r[i] == ws[i].text
  {
    seq(|ws|, i requires 0 <= i < |ws| => ws[i].text)
  }

  function Lefts(bs: seq<Rect>): seq<int> { seq(|bs|, i requires 0 <= i < |bs| => bs[i].x) }
  function Tops(bs: seq<Rect>): seq<int> { seq(|bs|, i requires 0 <= i < |bs| => bs[i].y) }
  function Rights(bs: seq<Rect>): seq<int> { seq(|bs|, i requires 0 <= i < |bs| => Right(bs[i])) }
  function Bottoms(bs: seq<Rect>): seq<int> { seq(|bs|, i requires 0 <= i < |bs| => Bottom(bs[i])) }

  /** The line's box: from the least X and Y of its word boxes to the
      greatest right and bottom edge. It holds every word box, and each of its
      edges is an edge of some word box. */
  function Envelope(bs: seq<Rect>): Rect
    requires |bs| > 0
  {
    var minX := MinOf(Lefts(bs));
    var minY := MinOf(Tops(bs));
    var maxX := MaxOf(Rights(bs));
    var maxY := MaxOf(Bottoms(bs));
    Rect(minX, minY, maxX - minX, maxY - minY)
  }

  /** The envelope holds every box, and each of its edges is an edge of some box. */
  lemma EnvelopeBounds(bs: seq<Rect>)
    requires |bs| > 0
    ensures var r := Envelope(bs);
            && (forall i :: 0 <= i < |bs| ==> ContainsRect(r, bs[i]))
            && (exists i :: 0 <= i < |bs| && bs[i].x == r.x)
            && (exists i :: 0 <= i < |bs| && bs[i].y == r.y)
            && (exists i :: 0 <= i < |bs| && Right(bs[i]) == Right(r))
            && (exists i :: 0 <= i < |bs| && Bottom(bs[i]) == Bottom(r))
  {
    var r := Envelope(bs);
    assert r.x == MinOf(Lefts(bs)) && r.y == MinOf(Tops(bs));
    assert Right(r) == MaxOf(Rights(bs)) && Bottom(r) == MaxOf(Bottoms(bs));
    assert forall i :: 0 <= i < |bs| ==> Lefts(bs)[i] == bs[i].x && Tops(bs)[i] == bs[i].y;
    assert forall i :: 0 <= i < |bs| ==> Rights(bs)[i] == Right(bs[i]) && Bottoms(bs)[i] == Bottom(bs[i]);
  }

  /** The envelope is the smallest rectangle holding every word box. */
  lemma EnvelopeIsSmallest(bs: seq<Rect>, r: Rect)
    requires |bs| > 0
    requires forall i :: 0 <= i < |bs| ==> ContainsRect(r, bs[i])
    ensures ContainsRect(r, Envelope(bs))
  {
    var e := Envelope(bs);
    EnvelopeBounds(bs);
    var a :| 0 <= a < |bs| && bs[a].x == e.x;
    var b :| 0 <= b < |bs| && bs[b].y == e.y;
    var c :| 0 <= c < |bs| && Right(bs[c]) == Right(e);
    var d :| 0 <= d < |bs| && Bottom(bs[d]) == Bottom(e);
    assert ContainsRect(r, bs[a]) && ContainsRect(r, bs[b]) && ContainsRect(r, bs[c]) && ContainsRect(r, bs[d]);
  }

  // ---------------------------------------------------------------------
  // Line and block assembly

  /** A box `Bitmap.Clone` accepts and that is not empty. */
  predicate GoodBox(img: Image, b: Rect) {
    RegionInImage(img, b) && b.width > 0 && b.height > 0
  }

  predicate AllGood(img: Image, ws: seq<RawWord>) {
    forall i :: 0 <= i < |ws| ==> GoodBox(img, ws[i].box)
  }

  /** The image is small enough that border sums of any region fit in `int`. */
  predicate SmallImage(img: Image) {
    255 * (2 * img.Length0 + 2 * img.Length1) <= Int32Max
  }

  /** The word record built from a tuple, with its colour estimated against
      the line's background. */
  ghost predicate WordFrom(img: Image, raw: RawWord, background: Color, res: OcrResult)
    reads img
  {
    && res.text == raw.text
    && res.box == raw.box
    && res.confidence == raw.confidence
    && res.backgroundColor == background
    && RegionInImage(img, raw.box)
    && IsDominantTextColor(img, raw.box, background, res.textColor)
  }

  /** `line` is what the source builds from the word group `group`: its words
      in ascending X, its text their texts joined by single spaces, its box
      their envelope, its background the border mean of that box, and each
      word's colour estimated against that background. */
  ghost predicate LineFrom(img: Image, group: seq<RawWord>, line: OcrLine)
    reads img
  {
    && |group| > 0
    && var sorted := SortBy(group, KeyX);
    && line.lineText == Join(" ", Texts(sorted))
    && line.box == Envelope(Boxes(sorted))
    && BackgroundRegion(img, line.box)
    && line.backgroundColor == MeanColor(BorderSamples(img, line.box))
    && WordsFrom(img, sorted, line.backgroundColor, line.words)
  }

  /** `results` are the word records built one by one from `raws`. */
  ghost predicate WordsFrom(img: Image, raws: seq<RawWord>, background: Color, results: seq<OcrResult>)
    reads img
  {
    && |results| == |raws|
    && forall i {:trigger WordFrom(img, raws[i], background, results[i])} :: 0 <= i < |raws| ==> WordFrom(img, raws[i], background, results[i])
  }

  lemma WordsFromSnoc(img: Image, raws: seq<RawWord>, background: Color, results: seq<OcrResult>, raw: RawWord, res: OcrResult)
    requires WordsFrom(img, raws, background, results) && WordFrom(img, raw, background, res)
    ensures WordsFrom(img, raws + [raw], background, results + [res])
  {
    forall i | 0 <= i < |raws| + 1
      ensures WordFrom(img, (raws + [raw])[i], background, (results + [res])[i])
    {
      if i < |raws| {
        assert (raws + [raw])[i] == raws[i] && (results + [res])[i] == results[i];
      }
    }
  }

  /** The tuple an `OCRResult` was built from. */
  function Source(res: OcrResult): RawWord {
    RawWord(res.text, res.box, res.confidence)
  }

  function Sources(rs: seq<OcrResult>): (r: seq<RawWord>)
    ensures |r| == |rs| && forall i :: 0 <= i < |rs| ==> r[i] == Source(rs[i])
  {
    seq(|rs|, i requires 0 <= i < |rs| => Source(rs[i]))
  }

  /** The words of an assembled line come from its group sorted by X. */
  lemma LineSources(img: Image, group: seq<RawWord>, line: OcrLine)
    requires LineFrom(img, group, line)
    ensures Sources(line.words) == SortBy(group, KeyX)
  {
    var sorted := SortBy(group, KeyX);
    forall i | 0 <= i < |sorted|
      ensures Sources(line.words)[i] == sorted[i]
    {
      assert WordFrom(img, sorted[i], line.backgroundColor, line.words[i]);
    }
  }

  /** An assembled line holds exactly the words of its group, each once,
      ordered by ascending X with ties kept in group order, and its text is
      their texts joined by single spaces. */
  lemma LineWords(img: Image, group: seq<RawWord>, line: OcrLine)
    requires LineFrom(img, group, line)
    ensures multiset(Sources(line.words)) == multiset(group)
    ensures forall i, j :: 0 <= i < j < |line.words| ==> line.words[i].box.x <= line.words[j].box.x
    ensures forall k :: WithKey(Sources(line.words), KeyX, k) == WithKey(group, KeyX, k)
    ensures line.lineText == Join(" ", Texts(Sources(line.words)))
  {
    LineSources(img, group, line);
    var sorted := SortBy(group, KeyX);
    SortByIsSorted(group, KeyX);
    forall i, j | 0 <= i < j < |line.words|
      ensures line.words[i].box.x <= line.words[j].box.x
    {
      assert Source(line.words[i]) == sorted[i] && Source(line.words[j]) == sorted[j];
    }
    forall k {
      SortIsStable(group, KeyX, k);
    }
  }

  /** The box of an assembled line contains every word box and is the
      smallest rectangle that does. */
  lemma LineBox(img: Image, group: seq<RawWord>, line: OcrLine)
    requires LineFrom(img, group, line)
    ensures forall i :: 0 <= i < |line.words| ==> ContainsRect(line.box, line.words[i].box)
    ensures forall r :: (forall i :: 0 <= i < |line.words| ==> ContainsRect(r, line.words[i].box)) ==>
                        ContainsRect(r, line.box)
  {
    LineSources(img, group, line);
    var sorted := SortBy(group, KeyX);
    assert forall i :: 0 <= i < |line.words| ==> line.words[i].box == Boxes(sorted)[i] by {
      forall i | 0 <= i < |line.words|
        ensures line.words[i].box == Boxes(sorted)[i]
      {
        assert Source(line.words[i]) == sorted[i];
      }
    }
    EnvelopeBounds(Boxes(sorted));
    forall r | forall i :: 0 <= i < |line.words| ==> ContainsRect(r, line.words[i].box)
      ensures ContainsRect(r, line.box)
    {
      EnvelopeIsSmallest(Boxes(sorted), r);
    }
  }

  /** Every word of an assembled line carries the line's background. */
  lemma LineBackground(img: Image, group: seq<RawWord>, line: OcrLine)
    requires LineFrom(img, group, line)
    ensures forall i :: 0 <= i < |line.words| ==> line.words[i].backgroundColor == line.backgroundColor
  {
    var sorted := SortBy(group, KeyX);
    forall i | 0 <= i < |line.words|
      ensures line.words[i].backgroundColor == line.backgroundColor
    {
      assert WordFrom(img, sorted[i], line.backgroundColor, line.words[i]);
    }
  }

  /** `block` is what the source builds from the response block `vb`. */
  ghost predicate BlockFrom(img: Image, vb: VisionBlock, block: OcrBlock)
    reads img
  {
    && ParagraphsHaveVertices(vb.paragraphs)
    && LinesFrom(img, GroupLines(SortBy(BlockWords(vb), KeyY)), block.lines)
  }

  lemma SortKeepsGood(img: Image, ws: seq<RawWord>, key: RawWord -> int)
    requires AllGood(img, ws)
    ensures AllGood(img, SortBy(ws, key))
  {
    var r := SortBy(ws, key);
    forall i | 0 <= i < |r|
      ensures GoodBox(img, r[i].box)
    {
      SortPreserves(ws, key, r[i]);
      var j :| 0 <= j < |ws| && ws[j] == r[i];
    }
  }

  lemma EnvelopeIsGood(img: Image, bs: seq<Rect>)
    requires |bs| > 0 && SmallImage(img)
    requires forall i :: 0 <= i < |bs| ==> GoodBox(img, bs[i])
    ensures BackgroundRegion(img, Envelope(bs))
  {
    var e := Envelope(bs);
    EnvelopeBounds(bs);
    var a :| 0 <= a < |bs| && bs[a].x == e.x;
    var b :| 0 <= b < |bs| && bs[b].y == e.y;
    var c :| 0 <= c < |bs| && Right(bs[c]) == Right(e);
    var d :| 0 <= d < |bs| && Bottom(bs[d]) == Bottom(e);
    assert ContainsRect(e, bs[0]);
  }

  /** Builds one `OCRLine` from a group of words. */
  method AssembleLine(img: Image, group: seq<RawWord>) returns (line: OcrLine)
    requires |group| > 0 && AllGood(img, group) && SmallImage(img)
    ensures LineFrom(img, group, line)
  {
    var sortedLine := SortBy(group, KeyX);
    SortKeepsGood(img, group, KeyX);
    var combinedText := Join(" ", Texts(sortedLine));
    var lineBoundingBox := Envelope(Boxes(sortedLine));
    EnvelopeIsGood(img, Boxes(sortedLine));
    var lineBackgroundColor := GetBackgroundColor(img, lineBoundingBox);
    var wordResults := ColorWords(img, sortedLine, lineBackgroundColor);
    line := OcrLine(combinedText, lineBoundingBox, lineBackgroundColor, wordResults);
  }

  /** The `Select` that builds each `OCRResult` of a line, its colour voted
      against the line's background. */
  method ColorWords(img: Image, sortedLine: seq<RawWord>, background: Color) returns (wordResults: seq<OcrResult>)
    requires AllGood(img, sortedLine)
    ensures WordsFrom(img, sortedLine, background, wordResults)
  {
    wordResults := [];
    var i := 0;
    while i < |sortedLine|
      invariant 0 <= i <= |sortedLine|
      invariant WordsFrom(img, sortedLine[..i], background, wordResults)
    {
      var w := sortedLine[i];
      var textColor := GetWordTextColor(img, w.box, background);
      var result := OcrResult(w.text, w.box, w.confidence, textColor, background);
      WordsFromSnoc(img, sortedLine[..i], background, wordResults, w, result);
      assert sortedLine[..i] + [w] == sortedLine[..i + 1];
      wordResults := wordResults + [result];
      i := i + 1;
    }
    assert sortedLine[..i] == sortedLine;
  }

  /** Every word of the block has vertices and a box `Bitmap.Clone` accepts. */
  predicate ValidBlock(img: Image, vb: VisionBlock) {
    && ParagraphsHaveVertices(vb.paragraphs)
    && forall i, j :: 0 <= i < |vb.paragraphs| && 0 <= j < |vb.paragraphs[i].words| ==>
         GoodBox(img, WordBox(vb.paragraphs[i].words[j].vertices))
  }

  lemma WordsOfGood(img: Image, ws: seq<VisionWord>, confidence: real)
    requires WordsHaveVertices(ws)
    requires forall j :: 0 <= j < |ws| ==> GoodBox(img, WordBox(ws[j].vertices))
    ensures AllGood(img, WordsOf(ws, confidence))
  {
    var r := WordsOf(ws, confidence);
    forall i | 0 <= i < |r|
      ensures GoodBox(img, r[i].box)
    {
    }
  }

  lemma {:induction false} ParagraphWordsGood(img: Image, ps: seq<Paragraph>, confidence: real)
    requires ParagraphsHaveVertices(ps)
    requires forall i, j :: 0 <= i < |ps| && 0 <= j < |ps[i].words| ==> GoodBox(img, WordBox(ps[i].words[j].vertices))
    ensures AllGood(img, ParagraphWords(ps, confidence))
  {
    if |ps| > 0 {
      ParagraphWordsGood(img, ps[..|ps| - 1], confidence);
      WordsOfGood(img, ps[|ps| - 1].words, confidence);
    }
  }

  lemma GroupsGood(img: Image, words: seq<RawWord>, i: int)
    requires AllGood(img, words) && 0 <= i < |GroupLines(words)|
    ensures AllGood(img, GroupLines(words)[i])
  {
    var g: seq<seq<RawWord>> := GroupLines(words);
    forall j: int | 0 <= j < |g[i]|
      ensures GoodBox(img, g[i][j].box)
    {
      FlattenContains(g, i, j);
    }
  }

  /** The inner loop over one paragraph's words: each word's text is the
      concatenation of its symbols and its box the envelope of its vertices. */
  method CollectParagraphWords(paragraph: Paragraph, confidence: real) returns (words: seq<RawWord>)
    requires WordsHaveVertices(paragraph.words)
    ensures words == WordsOf(paragraph.words, confidence)
  {
    words := [];
    var j := 0;
    while j < |paragraph.words|
      invariant 0 <= j <= |paragraph.words|
      invariant |words| == j
      invariant forall k :: 0 <= k < j ==> words[k] == ToRawWord(paragraph.words[k], confidence)
    {
      var word := paragraph.words[j];
      var wordText := SymbolText(word.symbols);
      var wordBoundingBox := WordBox(word.vertices);
      words := words + [RawWord(wordText, wordBoundingBox, confidence)];
      j := j + 1;
    }
  }

  /** The outer loop over a block's paragraphs that fills `blockWords`. */
  method CollectBlockWords(vb: VisionBlock) returns (blockWords: seq<RawWord>)
    requires ParagraphsHaveVertices(vb.paragraphs)
    ensures blockWords == BlockWords(vb)
  {
    var ps := vb.paragraphs;
    blockWords := [];
    var p := 0;
    while p < |ps|
      invariant 0 <= p <= |ps|
      invariant blockWords == ParagraphWords(ps[..p], vb.confidence)
    {
      assert ps[..p + 1][..p] == ps[..p] && ps[..p + 1][p] == ps[p];
      var paragraphWords := CollectParagraphWords(ps[p], vb.confidence);
      blockWords := blockWords + paragraphWords;
      p := p + 1;
    }
    assert ps[..p] == ps;
  }

  /** Builds one `OCRBlock` from a response block. */
  method AssembleBlock(img: Image, vb: VisionBlock) returns (block: OcrBlock)
    requires ValidBlock(img, vb) && SmallImage(img)
    ensures BlockFrom(img, vb, block)
  {
    var blockWords := CollectBlockWords(vb);
    ParagraphWordsGood(img, vb.paragraphs, vb.confidence);
    SortKeepsGood(img, blockWords, KeyY);
    blockWords := SortBy(blockWords, KeyY);
    var lineGroups := GroupWordsIntoLines(blockWords);
    ghost var groups := GroupLines(SortBy(BlockWords(vb), KeyY));
    assert lineGroups == groups;
    forall i | 0 <= i < |lineGroups|
      ensures AllGood(img, lineGroups[i])
    {
      GroupsGood(img, blockWords, i);
    }
    var blockLines := AssembleLines(img, lineGroups);
    block := OcrBlock(blockLines);
  }

  /** The loop that builds one `OCRLine` per word group. */
  method AssembleLines(img: Image, lineGroups: seq<seq<RawWord>>) returns (blockLines: seq<OcrLine>)
    requires SmallImage(img)
    requires forall i :: 0 <= i < |lineGroups| ==> |lineGroups[i]| > 0 && AllGood(img, lineGroups[i])
    ensures LinesFrom(img, lineGroups, blockLines)
  {
    blockLines := [];
    var i := 0;
    while i < |lineGroups|
      invariant 0 <= i <= |lineGroups|
      invariant LinesFrom(img, lineGroups[..i], blockLines)
    {
      var line := AssembleLine(img, lineGroups[i]);
      LinesFromSnoc(img, lineGroups[..i], blockLines, lineGroups[i], line);
      assert lineGroups[..i] + [lineGroups[i]] == lineGroups[..i + 1];
      blockLines := blockLines + [line];
      i := i + 1;
    }
    assert lineGroups[..i] == lineGroups;
  }

  /** `lines` are built one by one from the word groups `groups`. */
  ghost predicate LinesFrom(img: Image, groups: seq<seq<RawWord>>, lines: seq<OcrLine>)
    reads img
  {
    && |lines| == |groups|
    && forall i {:trigger LineFrom(img, groups[i], lines[i])} :: 0 <= i < |groups| ==> LineFrom(img, groups[i], lines[i])
  }

  lemma LinesFromSnoc(img: Image, groups: seq<seq<RawWord>>, lines: seq<OcrLine>, group: seq<RawWord>, line: OcrLine)
    requires LinesFrom(img, groups, lines) && LineFrom(img, group, line)
    ensures LinesFrom(img, groups + [group], lines + [line])
  {
    forall i | 0 <= i < |groups| + 1
      ensures LineFrom(img, (groups + [group])[i], (lines + [line])[i])
    {
      if i < |groups| {
        assert (groups + [group])[i] == groups[i] && (lines + [line])[i] == lines[i];
      }
    }
  }

  /** The response blocks of all pages, in order; none for a missing response. */
  function PageBlocks(pages: seq<Page>): seq<VisionBlock> {
    if |pages| == 0 then [] else PageBlocks(pages[..|pages| - 1]) + pages[|pages| - 1].blocks
  }

  function AllBlocks(response: Option<AnnotateResponse>): seq<VisionBlock> {
    if response.None? then [] else PageBlocks(response.value.pages)
  }

  /** What the recogniser needs of the image and the response. */
  predicate ValidResponse(img: Image, response: Option<AnnotateResponse>) {
    && SmallImage(img)
    && (response.Some? ==>
          var pages := response.value.pages;
          forall p, b :: 0 <= p < |pages| && 0 <= b < |pages[p].blocks| ==> ValidBlock(img, pages[p].blocks[b]))
  }

  /** `blocks` are what the source builds from the response blocks `vbs`, one by one. */
  ghost predicate BlocksFrom(img: Image, vbs: seq<VisionBlock>, blocks: seq<OcrBlock>)
    reads img
  {
    && |blocks| == |vbs|
    && forall k {:trigger BlockFrom(img, vbs[k], blocks[k])} :: 0 <= k < |vbs| ==> BlockFrom(img, vbs[k], blocks[k])
  }

  lemma BlocksFromConcat(img: Image, vbs: seq<VisionBlock>, blocks: seq<OcrBlock>,
                         vbs': seq<VisionBlock>, blocks': seq<OcrBlock>)
    requires BlocksFrom(img, vbs, blocks) && BlocksFrom(img, vbs', blocks')
    ensures BlocksFrom(img, vbs + vbs', blocks + blocks')
  {
    forall k | 0 <= k < |vbs| + |vbs'|
      ensures BlockFrom(img, (vbs + vbs')[k], (blocks + blocks')[k])
    {
      if k < |vbs| {
        assert (vbs + vbs')[k] == vbs[k] && (blocks + blocks')[k] == blocks[k];
      } else {
        assert (vbs + vbs')[k] == vbs'[k - |vbs|] && (blocks + blocks')[k] == blocks'[k - |vbs|];
      }
    }
  }

  /** The loop over one page's blocks. */
  method AssemblePageBlocks(img: Image, page: Page) returns (blocks: seq<OcrBlock>)
    requires SmallImage(img)
    requires forall b :: 0 <= b < |page.blocks| ==> ValidBlock(img, page.blocks[b])
    ensures BlocksFrom(img, page.blocks, blocks)
  {
    blocks := [];
    var b := 0;
    while b < |page.blocks|
      invariant 0 <= b <= |page.blocks|
      invariant BlocksFrom(img, page.blocks[..b], blocks)
    {
      var ocrBlock := AssembleBlock(img, page.blocks[b]);
      assert BlocksFrom(img, [page.blocks[b]], [ocrBlock]);
      BlocksFromConcat(img, page.blocks[..b], blocks, [page.blocks[b]], [ocrBlock]);
      assert page.blocks[..b] + [page.blocks[b]] == page.blocks[..b + 1];
      blocks := blocks + [ocrBlock];
      b := b + 1;
    }
    assert page.blocks[..b] == page.blocks;
  }

  /** `RecognizeTextBlocksFromRegion` after the text-detection call: one
      `OCRBlock` per response block, across all pages, in order. */
  method RecognizeTextBlocksFromRegion(img: Image, response: Option<AnnotateResponse>) returns (ocrBlocks: seq<OcrBlock>)
    requires ValidResponse(img, response)
    ensures BlocksFrom(img, AllBlocks(response), ocrBlocks)
  {
    ocrBlocks := [];
    if response.Some? && |response.value.pages| > 0 {
      var pages := response.value.pages;
      var p := 0;
      while p < |pages|
        invariant 0 <= p <= |pages|
        invariant BlocksFrom(img, PageBlocks(pages[..p]), ocrBlocks)
      {
        var page := pages[p];
        assert pages[..p + 1][..p] == pages[..p] && pages[..p + 1][p] == page;
        assert PageBlocks(pages[..p + 1]) == PageBlocks(pages[..p]) + page.blocks;
        var pageBlocks := AssemblePageBlocks(img, page);
        BlocksFromConcat(img, PageBlocks(pages[..p]), ocrBlocks, page.blocks, pageBlocks);
        ocrBlocks := ocrBlocks + pageBlocks;
        p := p + 1;
      }
      assert pages[..p] == pages;
    }
  }
}
