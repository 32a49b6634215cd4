# LangVision layout core, modelled in Dafny

LangVision freezes a region of the screen, sends it to a cloud text-detection
service, rebuilds lines of text from the returned word geometry, translates
each block of text and draws the translation over the original at the same
place and in matching colours. This project models the deterministic core of
that pipeline and proves what it guarantees:

- **`OcrLayout`** (`OCR.cs`, `RecognizeTextBlocksFromRegion`): the response is
  a nested datatype (pages → blocks → paragraphs → words → symbols and
  vertices). Each word's box is the min/max envelope of its vertices. The
  words of one block are stably sorted by top Y. They are grouped greedily:
  a word joins the *last* line when its Y is within 5 px of that line's
  *first* word, and otherwise opens a new line. Each line is re-sorted by X,
  its text is the words joined by single spaces, its box is the envelope of
  the word boxes, its background is estimated on the image, and every word's
  colour is re-estimated against that background.
- **`OcrColor`** (`OCR.cs`): the word colour by histogram vote over the
  pixels significantly different from the background, with White as the
  fallback; the background as the integer mean of the border samples; the
  colour-distance test; and the clamped lightening helper. The bitmap is an
  `array2<Color>`.
- **`Processing`** (`Processing.cs`): `SplitTranslatedBlock` maps one
  translated string back onto the lines of a block (newline fast path,
  width-proportional word allocation, list-marker pairing).
  `ProcessTranslationFromOCR` numbers the blocks from 1, translates them and
  builds one `TranslatedText` per line for the renderer.
- **`Translation`** (`Translation.cs`): the supported language codes, the
  argument validation of `TranslateText` and the request it sends.
- **`Common`**, **`Imaging`**, **`Strings`**: Option/Result, `int` range,
  LINQ `Min`/`Max`, `System.Drawing` colours and rectangles, and .NET
  `Split`/`Join`/`IsWhiteSpace`.

The state the source mutates in loops is modelled by methods with loops
(`GroupWordsIntoLines`, `GetWordTextColor`, `GetBackgroundColor`,
`SplitTranslatedBlock` with its two arrays, `ProcessTranslationFromOCR` with
its block counter). Each method is proved either equal to a specification
function or to satisfy a specification relation. The relations are
`IsDominantTextColor`, `WordsFrom`, `LineFrom`, `LinesFrom`, `BlockFrom` and
`BlocksFrom`. They leave open which of several equally frequent colours is
chosen. `GetWordTextColor`, `MostFrequent`, `ColorWords`, `AssembleLine`,
`AssembleLines`, `AssembleBlock`, `AssemblePageBlocks` and
`RecognizeTextBlocksFromRegion` are specified through them. The properties
are lemmas about those functions and relations.

Some facts about the code that the model keeps:
- Line grouping compares each word with the first word of the last line at a
  fixed 5 px. There is no lookback over earlier lines, no overlap test and
  no threshold scaled by size.
- A line's list flag is decided by the i-th word of the whole translation,
  not by the line's own first word.
- A flagged line with words left takes the next two words, or the one word
  that is left. A flagged last line can therefore leave words unused
  (`FlaggedLastLineDropsWords`).

## Model

| member | source | states |
|---|---|---|
| `Common.MinOf` | OCR.cs:60-61 | LINQ `Min`: a lower bound of every element that is attained by one of them |
| `Common.MaxOf` | OCR.cs:62-63 | LINQ `Max`: an upper bound of every element that is attained by one of them |
| `OcrLayout.WordBox` | OCR.cs:60-64 | the word box has non-negative width and height |
| `OcrLayout.WordBoxBounds` | OCR.cs:60-64 | every vertex lies in the word box, and each edge of the box passes through a vertex (x and y are the vertex minima) |
| `OcrLayout.WordBoxIsSmallest` | OCR.cs:60-64 | any rectangle holding all vertices holds the word box |
| `OcrLayout.CollectParagraphWords` | OCR.cs:58-72 | one tuple per word in order: symbol texts concatenated, vertex envelope, the block's confidence |
| `OcrLayout.CollectBlockWords` | OCR.cs:57-73 | the block's words, paragraph after paragraph, in response order |
| `OcrLayout.SortBy` | OCR.cs:77 | `OrderBy` returns a permutation of its input |
| `OcrLayout.SortByIsSorted` | OCR.cs:77 | `OrderBy` orders the words by the key |
| `OcrLayout.SortIsStable` | OCR.cs:77 | `OrderBy` keeps the input order of words with equal keys |
| `OcrLayout.GroupLines` | OCR.cs:81-92 | no group is empty, and the groups concatenated in order give back the sorted word list exactly |
| `OcrLayout.AddWordAppends` | OCR.cs:81-91 | one grouping step appends the word to the concatenated groups: no word is lost, repeated or moved |
| `OcrLayout.PlaceWord` | OCR.cs:82-91 | the loop body opens the first line, adds a word within 5 px of the last line's first word to that line, and otherwise opens a new line, as one grouping step |
| `OcrLayout.GroupWordsIntoLines` | OCR.cs:78-92 | the loop appending to `lineGroups` builds exactly the greedy grouping |
| `OcrLayout.GroupingSpacing` | OCR.cs:85-90 | every word is within 5 px of its group's first word; consecutive groups' first words are more than 5 px apart |
| `OcrLayout.SortedGroupingSpacing` | OCR.cs:77-92 | on Y-sorted words: 0 <= y - firstWord.y <= 5 inside a group, and each new group starts more than 5 px below the previous group's first word |
| `OcrLayout.EnvelopeBounds` | OCR.cs:100-104 | the line box contains every word box, and each of its edges is an edge of some word box |
| `OcrLayout.EnvelopeIsSmallest` | OCR.cs:100-104 | any rectangle holding all word boxes holds the line box |
| `OcrLayout.AssembleLine` | OCR.cs:96-126 | the built line has the X-sorted words, the space-joined text, the envelope box, the border-mean background and every word's colour voted against that background |
| `OcrLayout.LineSources` | OCR.cs:97 | the words of an assembled line come, one for one and in order, from its group stably sorted by X |
| `OcrLayout.LineWords` | OCR.cs:97-98 | an assembled line holds each word of its group exactly once, sorted by ascending X with ties in group order, and its text is their texts joined by single spaces |
| `OcrLayout.LineBox` | OCR.cs:100-104 | the line box contains every word box of the line and is the smallest rectangle that does |
| `OcrLayout.LineBackground` | OCR.cs:107-118 | every word of an assembled line carries the line's background colour |
| `OcrLayout.AssembleLines` | OCR.cs:96-127 | the loop over the groups builds one line per group, in order, each as `AssembleLine` states |
| `OcrLayout.ColorWords` | OCR.cs:113-119 | one word result per X-sorted word, with its text, box and confidence, its colour voted against the line background, and that background |
| `OcrLayout.AssembleBlock` | OCR.cs:53-133 | one line per greedy group of the Y-sorted block words, each built as `AssembleLine` states |
| `OcrLayout.AssemblePageBlocks` | OCR.cs:52-134 | one block per response block of the page, in order |
| `OcrLayout.RecognizeTextBlocksFromRegion` | OCR.cs:49-138 | one block per response block across all pages, in order; none for a missing response |
| `OcrColor.SignificanceIsSqrtComparison` | OCR.cs:180-186 | the integer test agrees with comparing the real square root of dR²+dG²+dB² with the threshold: for t >= 0 it holds exactly when dR²+dG²+dB² > t² |
| `OcrColor.SignificanceIsSymmetric` | OCR.cs:180-185 | the test is symmetric in its two colours |
| `OcrColor.SameRgbIsNotSignificant` | OCR.cs:180-185 | colours with identical RGB are never significantly different under a non-negative threshold |
| `OcrColor.PixelCountPositive` | OCR.cs:156-167 | a colour's histogram count is positive exactly when the colour occurs in the region |
| `OcrColor.CountColors` | OCR.cs:156-167 | the histogram's keys are exactly the colours that differ significantly from the background and occur in the region, each mapped to its pixel count |
| `OcrColor.CountColumn` | OCR.cs:157-166 | scanning one column adds exactly that column's qualifying pixels to the histogram of the columns before it |
| `OcrColor.MostFrequent` | OCR.cs:170-171 | the chosen colour is a key of the histogram and no key has a larger count |
| `OcrColor.GetWordTextColor` | OCR.cs:150-175 | White when no pixel is significantly different from the background; otherwise a qualifying colour that occurs and whose count no other qualifying colour exceeds |
| `OcrColor.UniformRegionGivesWhite` | OCR.cs:170-173 | a region entirely of the background's RGB yields the White fallback |
| `OcrColor.BorderSamplesAt` | OCR.cs:196-205 | the samples are 2·w+2·h pixels: top and bottom of every column, then left and right of every row, corners twice |
| `OcrColor.CollectBorder` | OCR.cs:196-205 | the two sampling loops collect exactly the border samples, in order |
| `OcrColor.SumChannels` | OCR.cs:207-212 | the summing loop yields each channel's sum over the samples |
| `OcrColor.GetBackgroundColor` | OCR.cs:191-215 | the result is the opaque, per-channel floored mean of the border samples |
| `OcrColor.MeanWithinBounds` | OCR.cs:207-214 | each channel of the mean lies between that channel's minimum and maximum over the samples |
| `OcrColor.UniformBorderGivesItsColor` | OCR.cs:191-215 | a uniformly coloured border returns that colour, opaque |
| `OcrColor.LightenIsClamped` | OCR.cs:220-225 | for amounts that cannot overflow: never fails, keeps alpha, each channel becomes min(255, channel + amount) and never darkens |
| `OcrColor.LightenIsMonotonic` | OCR.cs:220-225 | a larger amount never gives a darker channel |
| `OcrColor.LightenOverflowFails` | OCR.cs:221-224 | at `int.MaxValue` the 32-bit sum wraps negative and `Color.FromArgb` throws |
| `Strings.Split` | Processing.cs:26 | `Split` with `RemoveEmptyEntries` yields non-empty pieces free of the separator |
| `Strings.SplitKeepsEveryCharacter` | Processing.cs:26-30 | the pieces, concatenated in order, are the input with every separator removed: no other character is dropped, repeated or moved |
| `Strings.SplitEmptyIffOnlySeparators` | Processing.cs:30-33 | the split is empty exactly when the input consists of separators only |
| `Strings.SplitJoin` | Processing.cs:26-30 | non-empty separator-free pieces survive a join followed by a split |
| `Processing.WholeWordMarker` | Processing.cs:47 | on a whitespace-free word plus a space, the list pattern accepts exactly digits-and-dot, a bullet run, or letter-and-dot |
| `Processing.RoundHalfEvenIsNearest` | Processing.cs:69 | `Math.Round` of num/den: within one half of the quotient, ties to the even integer |
| `Processing.SplitSpec` | Processing.cs:24-87 | the result always has exactly one entry per original line |
| `Processing.QuotaIsWidthShare` | Processing.cs:66-69 | each line but the last asks for at least one word: its width share of the words rounded half to even, or one when that rounds to zero or below |
| `Processing.DetectListLines` | Processing.cs:53-60 | the first loop flags line i exactly as `FlagOfLine` states |
| `Processing.NextLine` | Processing.cs:65-83 | one pass of the distribution loop produces line i's words joined by spaces and the word index of line i + 1 |
| `Processing.FillLine` | Processing.cs:64-83 | one pass writes line i's text into the result array and keeps the array's filled prefix equal to the distribution |
| `Processing.FillLines` | Processing.cs:50-86 | the distribution loop fills the result array with exactly the distributed lines |
| `Processing.DistributeWords` | Processing.cs:38-86 | the width-proportional distribution of the words over the lines, with the list flags |
| `Processing.SplitTranslatedBlock` | Processing.cs:24-87 | the two loops (list flags, then distribution with `wordIndex`) compute exactly `SplitSpec` |
| `Processing.NewlinesArePreserved` | Processing.cs:26-27 | a translation whose newline-separated non-empty pieces match the line count is returned piece for piece |
| `Processing.NoWordsGivesEmptyLines` | Processing.cs:30-36 | without the fast path, a text with no space-separated word gives every line "" |
| `Processing.FlagOfLine` | Processing.cs:56-60 | line i is flagged exactly when the i-th word of the whole translation matches the list pattern; lines past the last word never are |
| `Processing.StepTokens` | Processing.cs:75-83 | each line receives the words between the clamped word index before it and after it |
| `Processing.UsedWords` | Processing.cs:63-84 | the lines before i used exactly the first words, as many as the clamped word index |
| `Processing.TokensArePrefix` | Processing.cs:63-84 | in every branch, the lines' words concatenated in order are a prefix of the word list: in order, none twice |
| `Processing.NoFlagsMiddleLine` | Processing.cs:64-72 | with no flagged line, a line other than the last gets the smaller of its quota and the words left |
| `Processing.NoFlagsLastLine` | Processing.cs:67-72 | with no flagged line, the last line gets every word left |
| `Processing.NoFlagsUsesEveryWord` | Processing.cs:67-72 | with no flagged line, the lines' words concatenated reproduce the word list exactly |
| `Processing.FlaggedLineTakesTwo` | Processing.cs:75-78 | a flagged line with words left takes the next two, or the one left, whatever its width share |
| `Processing.FlaggedLastLineDropsWords` | Processing.cs:67-78 | a flagged last line stops after two words and leaves the rest unused |
| `Processing.LineSplitsBack` | Processing.cs:77-81 | each line's text splits on spaces back into the words it was given |
| `Processing.PairLines` | Processing.cs:123-135 | the inner loop gives one entry per line, in order, with the line's piece of the translation or "" when there is none |
| `Processing.TranslateBlock` | Processing.cs:100-135 | a single line is translated directly; several lines are translated newline-joined and split back; one entry per line, or the translation error |
| `Processing.ProcessTranslationFromOCR` | Processing.cs:90-140 | nothing for an empty region or no blocks; otherwise the renderer's image of every block's entries in order, or the first translation error |
| `Processing.RecognisedBlockIsDistributable` | OCR.cs:96-127 | every line of a recognised block has a positive width, so a block of two lines or more has a positive total width for the ratio at Processing.cs:66 |
| `Processing.RecognisedBlocksAreDistributable` | OCR.cs:49-138 | every block the recogniser returns meets the width precondition of `ProcessTranslationFromOCR` |
| `Processing.EarlyExitSkipsTranslation` | Processing.cs:91-92 | an empty region or block list gives no image whatever the translation service does |
| `Processing.BlockEntriesFields` | Processing.cs:100-135 | each line gives one entry with the block's number, the line's text, box and background, its share of the decoded translation, and the first word's colour or White |
| `Processing.NumberedLines` | Processing.cs:95-98 | every block number is between 1 and the block count |
| `Processing.EntriesFollowLines` | Processing.cs:94-137 | a successful run yields exactly one entry per line of every block, in order, numbered with the block's 1-based position and carrying that line's text, box and colours |
| `Processing.RunStep` | Processing.cs:97-137 | the run up to a block succeeds exactly when the earlier blocks and that block translate |
| `Processing.RunSucceedsIffEveryBlockDoes` | Processing.cs:97-137 | a run succeeds exactly when every block translates without error |
| `Processing.FailureStops` | Processing.cs:97-118 | the first failing block's error is the error of the whole run |
| `Translation.TranslateText` | Translation.cs:37-58 | blank text gives "" before any check; otherwise success exactly when both languages validate and the service answers, with its first translation |
| `Translation.BlankTextIsNotValidated` | Translation.cs:38 | blank text returns "" whatever the languages and whatever the service |
| `Translation.TargetIsCheckedFirst` | Translation.cs:41-42 | an unsupported target raises the target error, whatever the source |
| `Translation.AutoIsNotATarget` | Translation.cs:41-42 | "auto" is rejected as a target |
| `Translation.SupportedCodeLengths` | Translation.cs:15-24 | every supported code has two, three or five characters |
| `Translation.AutoIsNotSupported` | Translation.cs:15-24 | neither "auto" nor "" is a supported code |
| `Translation.SourceValidation` | Translation.cs:44-45 | with a valid target, the source error is raised exactly when the source is neither supported nor exactly "auto" |
| `Translation.CapitalisedAutoIsRejected` | Translation.cs:44-51 | "AUTO" and "Auto" fail the source check, so the case-insensitive test only sees the exact "auto" |
| `Translation.RequestFields` | Translation.cs:48-54 | after validation the source code is "" exactly when the source is "auto" and otherwise unchanged; the target is unchanged; the parent is the project's global location |
| `Translation.ParentIsGlobalLocation` | Translation.cs:53 | the parent path is `projects/langvision-449521/locations/global` |
| `Translation.RequestedSourceRoundTrip` | Translation.cs:51 | the request's source field recovers the validated source language |

## Left out

- The cloud calls: the text-detection response is an input of
  `RecognizeTextBlocksFromRegion` and the Cloud Translation call is a
  function parameter (its empty answer, `Translations[0]` failing, is the
  `NoTranslation` error). The client setup and credentials are not modelled.
- `HttpUtility.HtmlDecode` is a function parameter. `DrawFinalOverlay` is not
  part of this model; it is a renderer parameter whose result is returned
  unchanged.
- `Bitmap.Clone`/`GetPixel`: the image is a two-dimensional array, and a
  clone is read through offsets. Regions outside the image and empty word or
  line regions are preconditions (`Clone` throws on them, and an empty line
  region divides by zero in `GetBackgroundColor`).
- OcrColor.GetWordTextColor: also accepts an empty region and returns White
  there, where the source's `Clone` throws. The choice among equally frequent
  colours follows `Dictionary` enumeration order in the source and is left
  open.
- OcrColor.GetBackgroundColor: requires the channel sums to fit in a 32-bit
  `int`. The source would overflow silently once a channel sum passes
  `int.MaxValue`: about 8.4 million border samples of value 255, that is a
  width plus height of about 4.2 million.
  `RecognizeTextBlocksFromRegion` requires the same bound for the whole
  image (`SmallImage`), which is stronger than the bound each line region
  needs.
- Words without vertices: the model requires every word of the response to
  have at least one vertex (`ParagraphsHaveVertices`; `MinOf`/`MaxOf`
  require a non-empty list). On such a word the source's LINQ `Min`/`Max`
  throw `InvalidOperationException` and the recognition fails; that failure
  is not modelled.
- The provisional word colour computed against a dummy black background is
  never read and is not computed.
- Processing.SplitTranslatedBlock: requires a positive total line width
  when a block has two lines or more. The source divides by it as a `double`
  and gets NaN otherwise. `widthRatio` and `Math.Round` are exact rational
  arithmetic with round-half-to-even instead of double arithmetic.
- Processing.ProcessTranslationFromOCR: carries the same width
  precondition for every block.
- The regular-expression classes `\d` and `\p{L}` are parameters, because
  Unicode digit and letter tables are not modelled. `\s` and
  `char.IsWhiteSpace` use one explicit character set.
- `ToLower` is modelled on ASCII letters only. Only validated source codes
  reach it, and none of them has four characters.
- Integer widths: vertex coordinates, box arithmetic and word counts are
  unbounded integers. Only `LightenColor` and `GetBackgroundColor` model the
  32-bit range.
- Confidence is a `real` that is copied and never computed.
- async/await: the model is sequential. Cancellation is not modelled.
- Not part of this model: the UI and OS plumbing (selection overlay, main
  window, global hotkeys, settings, screen capture and its scale factor,
  GDI drawing in the overlay renderer).
