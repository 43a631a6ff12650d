# regview outline pipeline, modelled in Dafny

regview turns the plain text of a long numbered regulation into an outline
tree, renders the tree as Markdown for a browser viewer, and asks a language
model for a plain-language summary of every section. This project models the
core of that pipeline and proves properties of it:

- **Outline parsing** (`parseText` in src/prompts.ts). A fold over the
  lines decides whether each line is a heading. It enumerates the next
  paths the outline may take (the candidates, `LOOKAHEAD` = 3, with the
  `|| -1` quirk kept). It computes each candidate's expected label: Roman,
  upper-case letter, arabic, lower-case letter, lower-case Roman, none
  below depth five. It then matches the line's first `". "` segment
  against those labels. Modules `Roman` and `OutlineParser`.
- **Tree assembly** (`stitchTree`/`insertNode`). Entries are inserted by
  path. Missing ancestors become placeholders, with their path one index
  short. Writing past the end of a child array leaves holes. The footnote
  counter is threaded through the text normaliser. Module `TreeAssembler`.
- **Text normalisation** (`preprocessText`). It covers:
  - footnote definition lines, `formatFootnotes`;
  - paragraph breaks and title styling,
    `insertParagraphBreaksAndFormatTitles`;
  - superscripting a footnote's reference, `findAndSuperscriptNumbers`.
    Its pattern is modelled exactly: the template literal turns `\s` into
    the letter `s`.

  `separateHeadings` returns its argument unchanged, so it is the identity
  here. Module `Normalizer`.
- **Markdown rendering** (`generateMarkdown`). A pre-order walk emits one
  heading block per node and threads the footnote counter. Module
  `Markdown`.
- **Summarisation** (src/summarize.ts):
  - `countNodes`, `getAllText`, `getNodePosition` and `getAllSummaryText`.
  - `summarizeOneSnippet`: a cache keyed by the request text, plus a
    request counter.
  - `summarizeTree`: children first, then the node's own request. The
    request is the whole text when it has at most 10 000 characters,
    otherwise the node's text plus its children's summaries.

  Module `Summarize`, with class `Summarizer`.
- **Helpers of src/index.ts**:
  - the pre-order search of Questionnaire items by `linkId`;
  - the and/or keyword evaluator;
  - `PatientFile.readFiles`, which cuts notes into 10 000-character chunks
    and splits FHIR Bundles into their entries.

  Modules `QuestionnaireSearch`, `KeywordMatch` and `PatientRecords`.

The outline tree is the datatype `Outline.Node`. A child slot holding `None`
is either a hole of a sparse JavaScript array or a `null` read back from
JSON. Shared string machinery lives in module `Text`: `split` and `join` on
one character, `trim`, `String(n)` and `parseInt` on digit runs. `Option`
and `Result` are in `Wrappers`.

The language model, the file system and the regular-expression engine of
`applyRegex` are parameters of the model. They are the summarisation
`Service`, the file listing with what reading each entry gave, the `JsonParser` and the
`Matcher`.

## Model

| member | source | states |
|---|---|---|
| Roman.ToRoman | src/prompts.ts:686-711 | The loop builds the greedy numeral over the 13-entry table (`RomanOf`), and decoding that numeral gives the input back |
| Roman.DecodeGreedy | src/prompts.ts:686-711 | Decoding the greedy encoding of `n` from any table entry on gives `n` |
| Roman.RomanOfEmpty | src/prompts.ts:686-711 | The numeral is empty exactly for 0 |
| Roman.FirstNumerals | src/prompts.ts:686-711 | 1 and 2 are written `I` and `II` |
| Roman.RemainderBelow | src/prompts.ts:705 | The loop test `num % value < num` holds exactly when `num >= value` |
| Roman.LowerCase | src/prompts.ts:508 | `toLowerCase` on a numeral: same length, each capital shifted to lower case, other characters kept |
| OutlineParser.SuccessorsShape | src/prompts.ts:474-486 | A path of length d has 3+3d successors: first `P+[0]`, `P+[1]`, `P+[2]`, then three ascend candidates per level, deepest level first |
| OutlineParser.UpperShape | src/prompts.ts:480-486 | The ascend candidates from level `i` up are 3 per level, and each is the closed form `AscendAt` |
| OutlineParser.SuccessorParent | src/prompts.ts:474-486 | Every successor has length 1..d+1 and opens a node directly below a prefix of the current path |
| OutlineParser.ZeroIndexReoffered | src/prompts.ts:483 | The `\|\| -1` quirk: at a level whose index is 0, the current prefix itself is offered again |
| OutlineParser.ValidSuccessors | src/prompts.ts:474-486 | The nested loops build exactly the successor list `Successors(p)` |
| OutlineParser.LongPathsNeverMatch | src/prompts.ts:490-512 | A candidate of length 6 or more has no label and matches no heading text |
| OutlineParser.LabelledLength | src/prompts.ts:490-512 | Only paths of length at most five carry a label |
| OutlineParser.AnchoredTestIsEquality | src/prompts.ts:471 | Because the tested text is the segment plus ".", the anchored regex test is exactly equality of the segment with the label |
| OutlineParser.FirstMatchMeaning | src/prompts.ts:527-529 | `findIndex`: the index returned matches, no earlier candidate matches, and no candidate matches when none is returned |
| OutlineParser.FirstMatchAt | src/prompts.ts:527-529 | When candidate k matches and no earlier one does, `findIndex` returns k |
| OutlineParser.StepHeading | src/prompts.ts:470-538 | A heading line appends a new entry (title the line, empty text) at the first matching successor, which becomes the current path |
| OutlineParser.StepBody | src/prompts.ts:466-469 | A line without "." or without a matching label keeps the path and appends `line + "\n"` to the last entry's text and nothing else |
| OutlineParser.HeadingStep | src/prompts.ts:527-538 | A line whose first segment is the label of successor k, and of no earlier one, moves to successor k and appends its entry |
| OutlineParser.HeadingIndex | src/prompts.ts:527-538 | A heading line matches some successor by label, and the step appends an entry at that successor and moves there |
| OutlineParser.BodyStep | src/prompts.ts:466-469 | A line without "." is body text of the last entry |
| OutlineParser.StepValid | src/prompts.ts:464-539 | One step keeps the invariant: the root entry first at `[]`, the current path is the last entry's, heading paths have length 1..5, and every proper prefix of a heading path was opened earlier |
| OutlineParser.StepValidHeading | src/prompts.ts:526-538 | A heading step keeps that invariant |
| OutlineParser.StepValidBody | src/prompts.ts:466-469 | A body step keeps that invariant |
| OutlineParser.NewEntryPrefixesOpened | src/prompts.ts:533-538 | A new entry one level below a prefix of the current path keeps "every prefix opened" |
| OutlineParser.NewEntryValid | src/prompts.ts:533-538 | Appending an entry of length 1..5 one level below a prefix of the current path, and moving there, keeps the invariant |
| OutlineParser.ParseValid | src/prompts.ts:463-541 | After any lines the accumulator satisfies the invariant |
| OutlineParser.ParseGrows | src/prompts.ts:463-541 | The processed list only grows, and earlier entries keep their titles and paths |
| OutlineParser.StepGrows | src/prompts.ts:464-539 | One step keeps every earlier entry's title and path and never removes an entry |
| OutlineParser.ParseSnoc | src/prompts.ts:463-541 | Folding one more line is one more step on the fold of the earlier lines |
| OutlineParser.Accumulator.constructor | src/prompts.ts:540-541 | The accumulator starts with the root entry at the empty path |
| OutlineParser.Accumulator.Feed | src/prompts.ts:464-539 | Feeding a line updates the accumulator in place exactly as one step of the fold |
| OutlineParser.ParseLines | src/prompts.ts:463-541 | The loop over the lines leaves the processed list of the fold |
| OutlineParser.ExampleLabels | src/prompts.ts:490-512 | After `[0,0]` the first candidate labelled "II" is `[1]` |
| OutlineParser.ExampleRootCandidates | src/prompts.ts:474-486 | At the root the successors are `[0]`, `[1]`, `[2]` |
| OutlineParser.ExampleFirstCandidates | src/prompts.ts:474-486 | After `[0]` the successors are `[0,0]`, `[0,1]`, `[0,2]`, then `[0]` again (the quirk), `[1]`, `[2]` |
| OutlineParser.ExampleSubCandidates | src/prompts.ts:474-486 | After `[0,0]` the nine successors, with `[0,0]` and `[0]` offered again |
| OutlineParser.ExampleSegments | src/prompts.ts:471 | The segment before the first ". " of "I. Intro", "A. Sub", "II. Next" is "I", "A", "II" |
| OutlineParser.ExampleIntro | src/prompts.ts:470-538 | "I. Intro" on the initial state opens `[0]` after the root entry |
| OutlineParser.ExampleBody | src/prompts.ts:466-469 | A line without "." after a fresh heading becomes its text, followed by a newline |
| OutlineParser.ExampleNext | src/prompts.ts:470-538 | "II. Next" after path `[0,0]` opens `[1]` |
| OutlineParser.ExampleSubheading | src/prompts.ts:470-538 | "A. Sub" after "I. Intro" (path `[0]`) opens `[0,0]` with an empty text |
| Normalizer.FootnoteLines | src/prompts.ts:831-843 | The replacement keeps the number of lines and never lowers the counter |
| Normalizer.FormatFootnotesSpec | src/prompts.ts:825-843 | `formatFootnotes` never lowers the counter (an absent text gives "" and the counter unchanged) |
| Normalizer.FormatFootnotes | src/prompts.ts:825-843 | The line-by-line replacement loop computes `formatFootnotes` and returns a counter no lower than the input |
| Normalizer.FootnoteLineAt | src/prompts.ts:831-842 | Output line k is the callback's result on line k with the counter left by the lines before it |
| Normalizer.CounterMonotone | src/prompts.ts:834-836 | The counter never decreases from line to line |
| Normalizer.FootnoteRewrite | src/prompts.ts:831-842 | A line changes iff it is all digits with value in (last, last+10]; it then becomes "\nFootnote n:" and the counter becomes n |
| Normalizer.FootnoteNumbersIncrease | src/prompts.ts:831-842 | The footnotes rewritten in one text have strictly increasing numbers |
| Normalizer.ChunksAt | src/prompts.ts:849-877 | What the loop appends for line i is `Chunk(lines, i)` |
| Normalizer.InsertParagraphBreaks | src/prompts.ts:845-880 | The loop with its `isStartOfParagraph` flag computes `FormatParagraphs` |
| Normalizer.FormatLine | src/prompts.ts:850-877 | One pass of the loop appends the line's chunk and sets the flag to "the next line opens a paragraph" |
| Normalizer.OpenLine | src/prompts.ts:855-868 | A line at a paragraph start gets its opening form (italic label, bold title, or as is); any other line is kept with a newline |
| Normalizer.PieceKeepsLine | src/prompts.ts:855-866 | The piece appended for a line contains the trimmed line: kept whole, or its text after "Comments."/"Response." |
| Normalizer.LabelKept | src/prompts.ts:856-859 | A line opening with "Comments." or "Response." appears with that label in italics and the rest unchanged |
| Normalizer.LineKept | src/prompts.ts:849-866 | Every trimmed input line survives in the output |
| Normalizer.CapsTitleNotLabel | src/prompts.ts:855-862 | A short all-capitals line is never a "Comments." or "Response." line |
| Normalizer.CapsTitleBold | src/prompts.ts:860-862 | A short all-capitals line that opens a paragraph appears as `**line**` followed by a blank line |
| Normalizer.TitleChunk | src/prompts.ts:860-862 | The chunk of a capitals title at a paragraph start holds `**line**` and a blank line |
| Normalizer.ParagraphsEndWithNewline | src/prompts.ts:845-880 | The output is never empty and ends with a newline |
| Normalizer.RunEnd | src/prompts.ts:809 | `[^s]+`: the run from a position stops at the first letter "s" or at the end |
| Normalizer.LastEnd | src/prompts.ts:809 | The greedy group 1 ends at the largest position where the number and `[s.]` or the end follow |
| Normalizer.MatchAt | src/prompts.ts:809 | A match starting at a position ends group 1 at the largest feasible position within the run, or there is none |
| Normalizer.SupStep | src/prompts.ts:816 | One step of the global replace consumes at least one character |
| Normalizer.SupStepLength | src/prompts.ts:816 | One step emits at least what it consumes, and more when it replaces |
| Normalizer.SupStepOneLine | src/prompts.ts:816 | One step adds no line break |
| Normalizer.MatchAtFound | src/prompts.ts:815 | A match found by the replace is one the `test` finds |
| Normalizer.SupAllNoMatch | src/prompts.ts:815-816 | Without a match the replace changes nothing |
| Normalizer.SupAllLength | src/prompts.ts:816 | The replace never shortens the line |
| Normalizer.SupAllLonger | src/prompts.ts:816 | A feasible match makes the output strictly longer |
| Normalizer.SupAllOneLine | src/prompts.ts:816 | The replace adds no line break |
| Normalizer.SupAllChanges | src/prompts.ts:815-816 | The line changes exactly when the pattern matches it |
| Normalizer.HighestMatchMeaning | src/prompts.ts:812-820 | The reverse scan finds the highest matching line in [start, end], and none exists when it finds none |
| Normalizer.FindAndSuperscript | src/prompts.ts:805-823 | The reverse loop with `break` computes `Superscript` |
| Normalizer.DigitsOneLine | src/prompts.ts:892 | A footnote number holds no line break |
| Normalizer.ReplaceLine | src/prompts.ts:806-822 | Splitting and re-joining after replacing one break-free line keeps the other lines |
| Normalizer.SuperscriptOneLine | src/prompts.ts:805-823 | The number of lines is kept; only the highest matching line in [max(0,start), min(len-1,end)] changes, or nothing does |
| Normalizer.SuperscriptNoMatch | src/prompts.ts:805-823 | With no matching line the text comes back unchanged |
| Normalizer.DigitPrefix | src/prompts.ts:892 | `\d+` at the start: the longest run of leading digits |
| Normalizer.FootnoteNumberOf | src/prompts.ts:892-893 | A match of `^Footnote (\d+):` gives a non-empty digit run that the line starts with, after "Footnote " and before ":" |
| Normalizer.FootnoteNumberOfExact | src/prompts.ts:892-893 | Every line of the form "Footnote d:" matches with number d |
| Normalizer.PreprocessSpec | src/prompts.ts:883-903 | `preprocessText` never lowers the counter |
| Normalizer.Preprocess | src/prompts.ts:883-903 | Footnotes, then paragraphs, then one superscript pass per "Footnote n:" line, searching the 80 lines above it |
| Normalizer.SuperscriptPassLines | src/prompts.ts:891-898 | The superscript passes keep the number of lines |
| Normalizer.SuperscriptLines | src/prompts.ts:805-823 | One superscript search keeps the number of lines |
| Normalizer.SuperscriptFor | src/prompts.ts:892-899 | One pass of the footnote loop: a "Footnote n:" line superscripts n in the lines above it, other lines change nothing |
| Normalizer.PreprocessShape | src/prompts.ts:883-903 | The result has as many lines as the formatted text, and equals it when no line defines a footnote |
| Normalizer.NoFootnotePass | src/prompts.ts:891-898 | Lines without a footnote definition start no pass |
| TreeAssembler.SetChild | src/prompts.ts:565 | Assigning child slot k: it holds the node; other slots are unchanged; slots past the old end are holes |
| TreeAssembler.LookupAppend | src/prompts.ts:557-563 | Walking a path in two parts is walking it in one |
| TreeAssembler.InsertFound | src/prompts.ts:555-566 | After `insertNode` the node sits at its path |
| TreeAssembler.InsertBelow | src/prompts.ts:555-566 | Below the inserted path is exactly what is below the inserted node |
| TreeAssembler.InsertOff | src/prompts.ts:555-566 | Paths that leave the inserted path see no change |
| TreeAssembler.InsertSpine | src/prompts.ts:557-562 | Existing ancestors keep title, text, path and summary; a missing one becomes a placeholder whose path is one index short |
| TreeAssembler.InsertKeeps | src/prompts.ts:555-566 | Inserting at a path that is not a prefix of q keeps the title and text of the node at q |
| TreeAssembler.Normalise | src/prompts.ts:571 | The entry's text through `preprocessText`, never lowering the counter |
| TreeAssembler.ItemTexts | src/prompts.ts:569-572 | One normalised text per entry after the root |
| TreeAssembler.ItemTextsAt | src/prompts.ts:569-572 | Entry j's text is its own text normalised with the counter left by entries 1..j-1 |
| TreeAssembler.ItemTextsCounter | src/prompts.ts:569-572 | With a normaliser that never lowers the counter, the threaded counter only grows |
| TreeAssembler.StitchCounter | src/prompts.ts:550-572 | `stitchTree`'s footnote counter never goes down |
| TreeAssembler.BuildPrefix | src/prompts.ts:569-580 | Building reads only the texts of the entries inserted so far |
| TreeAssembler.StitchTree | src/prompts.ts:549-583 | The `forEach` over `data.slice(1)` builds `Stitch(data)` |
| TreeAssembler.BuildRoot | src/prompts.ts:551-569 | The root stays bare: the root entry's title and text are dropped |
| TreeAssembler.BuildFound | src/prompts.ts:569-580 | Entry k sits at its path with its title and normalised text unless a later entry's path is a prefix of it |
| TreeAssembler.ParseText | src/prompts.ts:452-546 | `parseText` from the lines: the fold, then `stitchTree` of its entries |
| TreeAssembler.ParseTextFound | src/prompts.ts:463-583 | Each heading whose path no later heading overwrites is in the tree at its path, titled by its line, with its text preprocessed using the counter left by earlier entries |
| TreeAssembler.ParseTextRoot | src/prompts.ts:549-583 | The tree's root has no title, text or summary |
| TreeAssembler.Divergence | src/prompts.ts:557-565 | Two paths neither of which is a prefix of the other part at a first index |
| Markdown.PathJson | src/prompts.ts:915 | `JSON.stringify(path)` is bracketed |
| Markdown.Level | src/prompts.ts:912 | The heading level is the depth capped at 5 |
| Markdown.Block | src/prompts.ts:918-926 | A node below the root starts its block with its heading; the root contributes nothing and leaves the counter |
| Markdown.BlockOf | src/prompts.ts:918-926 | The block is the heading plus the preprocessed text and a blank line when the node's text is truthy, with the normaliser's counter |
| Markdown.WalkChildrenNext | src/prompts.ts:930-935 | A hole adds nothing; a child adds its walk, threading the counter |
| Markdown.RenderBlock | src/prompts.ts:918-926 | The node's own heading and text, as `Block` |
| Markdown.RenderChild | src/prompts.ts:931-934 | One call of the `forEach` callback advances the children's output by one slot |
| Markdown.RenderChildren | src/prompts.ts:930-935 | The `forEach` over the children, as `WalkChildren` |
| Markdown.GenerateMarkdown | src/prompts.ts:906-939 | The recursive rendering, as `Walk` |
| Markdown.WalkCounter | src/prompts.ts:906-939 | With a normaliser that never lowers the counter, neither does the walk |
| Markdown.WalkChildrenCounter | src/prompts.ts:930-935 | Nor does the walk of the children |
| Markdown.WalkChildrenExtends | src/prompts.ts:930-935 | The children's output grows by appending |
| Markdown.WalkChildrenContains | src/prompts.ts:930-935 | Each child's walk is part of the children's output |
| Markdown.WalkContainsBlock | src/prompts.ts:906-939 | Every node reachable from the start has its block, at its depth, in the output |
| Markdown.OwnBlockInWalk | src/prompts.ts:918-926 | The walk from a node holds that node's own block |
| Markdown.ChildrenInWalk | src/prompts.ts:929-935 | Any block in the children's output is in the node's output |
| Markdown.ChildrenContainBlock | src/prompts.ts:929-935 | A node below child `q[0]` has its block, at its depth, in the children's output |
| Markdown.MarkdownHasEveryNode | src/prompts.ts:906-939 | `generateMarkdown(root)` contains a heading block for every node below the root |
| Markdown.MarkdownCounter | src/prompts.ts:922-932 | The footnote counter never goes down through the rendering |
| Text.SplitPieces | src/prompts.ts:846 | `split` on one character gives at least one piece and no piece holds the separator |
| Text.JoinSplit | src/prompts.ts:806-822 | Joining the pieces of a split gives the string back |
| Text.SplitJoin | src/prompts.ts:806-822 | Splitting a join of break-free pieces gives the pieces back |
| Text.SplitPrefix | src/prompts.ts:806 | A separator-free prefix joins the first piece |
| Text.NatToString | src/prompts.ts:837 | `String(n)` is a non-empty digit run without a leading zero |
| Text.NatToStringValue | src/prompts.ts:833-837 | `parseInt` of `String(n)` is n |
| Text.TrimStartSlice | src/prompts.ts:851 | Removing the leading whitespace removes exactly the leading run |
| Text.TrimEndSlice | src/prompts.ts:851 | Removing the trailing whitespace removes exactly the trailing run |
| Text.TrimSlice | src/prompts.ts:851 | `trim()` is a slice of the line with no whitespace at either end |
| Text.FirstSegment | src/prompts.ts:471 | `split(". ")[0]`: the prefix before the first ". ", or the whole line |
| Text.ConcatPrefix | src/prompts.ts:848-877 | Appending more pieces extends the text |
| Text.ConcatContains | src/prompts.ts:848-877 | Every appended piece occurs in the text |
| Summarize.CountNodes | src/summarize.ts:52-60 | The `forEach` adds the count of every child slot, `null` included, to 1 |
| Summarize.GetAllText | src/summarize.ts:130-139 | The node's text (or "") and, for each child slot, "\n" and that slot's text ("" for `null`) |
| Summarize.PreTexts | src/summarize.ts:130-139 | The pre-order list of texts is never empty |
| Summarize.AllTextIsJoin | src/summarize.ts:130-139 | `getAllText` is the pre-order texts joined by "\n", and `countNodes` is the number of those pieces |
| Summarize.ChildrenTextIsJoin | src/summarize.ts:133-137 | The same for the children appended so far |
| Summarize.JoinAppend | src/summarize.ts:127 | Joining two lists puts the separator between their joins |
| Summarize.AllTextContains | src/summarize.ts:130-139 | The text of every node of the tree is part of `getAllText` |
| Summarize.ChildrenTextContains | src/summarize.ts:133-137 | The text of each child slot is part of what the children append |
| Summarize.Titles | src/summarize.ts:125-126 | One title per node, an absent one as "" |
| Summarize.PositionStep | src/summarize.ts:123-128 | One level down the position gains " > " and the child's title |
| Summarize.PositionTop | src/summarize.ts:123-128 | Without parents the position is the node's title |
| Summarize.GetAllSummaryText | src/summarize.ts:141-159 | The loop over the summaries computes `SummaryText` |
| Summarize.AppendSummary | src/summarize.ts:144-156 | One summary adds its truthy summary, its truthy changes and each key point, each on a new line |
| Summarize.SummaryParts | src/summarize.ts:145-155 | The three parts appended for a summary make up its text |
| Summarize.SummaryTextAppend | src/summarize.ts:141-159 | The text of a concatenation of lists is the concatenation of their texts |
| Summarize.SummaryTextAround | src/summarize.ts:141-159 | The text is the part before entry k, entry k's own part, then the part after |
| Summarize.SummaryTextSnoc | src/summarize.ts:141-159 | The text of the first k+1 summaries is the text of the first k followed by summary k's text |
| Summarize.FailedAddsNothing | src/summarize.ts:145-156 | A `{failed}` marker adds nothing to the text |
| Summarize.OneSummaryContains | src/summarize.ts:145-155 | Every truthy field and every "audience: point" line of a summary appears in its text |
| Summarize.SummaryTextContains | src/summarize.ts:141-159 | Whatever a summary's own text contains, the whole text contains |
| Summarize.KeyPointsContains | src/summarize.ts:152-154 | Every key point line appears |
| Summarize.KeyPointInSummary | src/summarize.ts:152-154 | A key point line stays in the text with anything placed before it |
| Summarize.SnippetState | src/summarize.ts:65-121 | A call only adds to the cache; it makes no request on a hit and one on a miss; only parsed replies are stored, under the request text; a `{failed}` result leaves the cache as it was |
| Summarize.SnippetAgain | src/summarize.ts:66-116 | Asking again for a text whose reply parsed gives the same summary with no new request |
| Summarize.ChildrenErrSticks | src/summarize.ts:169-175 | Once a child's request fails, the failure is the result |
| Summarize.ChildrenNext | src/summarize.ts:169-175 | One more child slot: a failed child makes the result its failure, a summarised one is appended, with the child's memo |
| Summarize.SummarizedAppend | src/summarize.ts:169-175 | Appending a summarised child keeps every slot summarised |
| Summarize.SummariesOfStep | src/summarize.ts:171-173 | A child with a summary adds it to `summarized`; an empty slot adds nothing |
| Summarize.ExtendsTrans | src/summarize.ts:66-115 | Cache growth is transitive |
| Summarize.TreeState | src/summarize.ts:161-184 | Every node gets a summary and keeps title, text, path and holes; the cache only grows and stays free of failure markers; at most `countNodes` requests are made |
| Summarize.ChildrenState | src/summarize.ts:167-175 | The same for the children: one result per slot, each summarised |
| Summarize.ChildrenStateStep | src/summarize.ts:167-175 | The cache only grows, stays valid, and the requests stay within the number of nodes seen, slot by slot |
| Summarize.Rerun | src/summarize.ts:161-184 | With the cache a run left, when all of its summaries parsed, a second run returns the same tree and makes no request |
| Summarize.ChildrenRerun | src/summarize.ts:167-175 | The same for the children |
| Summarize.RerunPieces | src/summarize.ts:167-175 | A successful run over i slots is the run over i-1 slots followed by a successful last child, with a valid, growing cache |
| Summarize.Summarizer.constructor | src/summarize.ts:49-63 | The summariser starts with the stored cache and the request counter at 0 |
| Summarize.Summarizer.SummarizeOneSnippet | src/summarize.ts:65-121 | The cache lookup, the numbered request and the store update the fields as `Snippet` |
| Summarize.Summarizer.SummarizeTree | src/summarize.ts:161-184 | The recursion: children, then the node's request chosen by the 10 000-character limit, as `Tree` |
| Summarize.Summarizer.SummarizeChildren | src/summarize.ts:167-175 | The children one after another, collecting `summarized`, as `Children` |
| Summarize.Summarizer.SummarizeSlot | src/summarize.ts:167-175 | One callback of the children loop advances the fields and the result as `Children` by one slot, keeping `summarized` in step |
| QuestionnaireSearch.FirstWith | src/index.ts:22-33 | The first item with the linkId: its linkId matches, it is in the list, and there is none exactly when no item matches |
| QuestionnaireSearch.FirstWithIsFirst | src/index.ts:23-31 | No item before the one returned matches |
| QuestionnaireSearch.FirstWithAppend | src/index.ts:27-30 | Searching `a + b` is searching `a`, then `b` |
| QuestionnaireSearch.FindIsFirstInPreOrder | src/index.ts:22-33 | The search returns the first match in pre-order: an item before its nested items, earlier siblings first |
| QuestionnaireSearch.FindSound | src/index.ts:22-33 | Only an item with the requested linkId is returned, it is in the forest, and nothing is returned iff no item at any depth matches |
| KeywordMatch.AnyMatchExists | src/index.ts:41-43 | `some` over the `or` list holds iff some expression holds |
| KeywordMatch.EveryMatchAll | src/index.ts:45-47 | `every` over the `and` list holds iff all expressions hold |
| KeywordMatch.ApplyRegexMeaning | src/index.ts:35-50 | `or` wins and holds iff one operand holds; otherwise `and` holds iff all hold; an empty `or` is false and an empty `and` true; an object with neither is false |
| PatientRecords.NoteChunksMeaning | src/index.ts:81-88 | The chunks concatenate back to the note; each has 1..10 000 characters; the j-th is at offset 10 000·j; there are ⌈len/10 000⌉ of them, so none for an empty note |
| PatientRecords.NoteChunksOrigin | src/index.ts:81-88 | Every chunk is a note record with the file's name |
| PatientRecords.EntryRecordsMeaning | src/index.ts:91-99 | A Bundle with an entry list gives one record per entry, in order, with `part` its index and its `resource` as content |
| PatientRecords.EntryRecordsOrigin | src/index.ts:92-99 | Every entry record is a FHIR record with the file's name |
| PatientRecords.EntryRecordsStop | src/index.ts:92-99 | A `null` entry stops the `forEach` |
| PatientRecords.FileRecordsOrigin | src/index.ts:79-108 | A file's records carry its name and are notes exactly for `.md`/`.txt` files; an entry whose read throws fails whatever its name, pushing nothing; a file that was read and is neither note nor JSON gives nothing and does not fail |
| PatientRecords.ReadAllOrigin | src/index.ts:75-110 | Every record read comes from a `.md`, `.txt` or `.json` file of the listing and is a note exactly when the file is a note file |
| PatientRecords.ReadAllStops | src/index.ts:77-90 | A file that fails stops the reading |
| PatientRecords.ReadErrorStops | src/index.ts:77-79 | An entry that cannot be read ends the reading with its read error, whatever its name, keeping the records read before it |
| PatientRecords.PatientFile.constructor | src/index.ts:63-65 | Constructing reads the directory into `ehr` and keeps what `readFiles` throws in `failure` |
| PatientRecords.PatientFile.ReadFiles | src/index.ts:75-110 | `ehr` gains the records of the files up to the first failure, and the failure is returned |
| PatientRecords.PatientFile.ReadFile | src/index.ts:78-108 | One entry: it is read first and a failed read fails whatever its name; then notes are chunked, JSON is split or kept whole, other files are skipped |
| PatientRecords.PatientFile.PushNote | src/index.ts:81-88 | The offset loop appends the note's chunks |
| PatientRecords.PatientFile.PushJson | src/index.ts:89-107 | A Bundle with `entry` gives one record per entry; any other document one record with `part` 0; a parse error or `null` fails |

## Left out

- Reading the regulation file, stripping its banner and removing form feeds (src/prompts.ts:453-459). The parser starts from the list of lines.
- Line terminators other than "\n" (`\r`, U+2028, U+2029) are ordinary characters in the model. Lengths are counted in characters, not UTF-16 code units. This affects the 10 000-character limits, the 50-character title limit and chunk offsets.
- Letter labels for indices of 26 and more (src/prompts.ts:497-505) produce punctuation and regular-expression metacharacters. The model gives them no label, so they never match.
- Upper-casing and `trim` are modelled for ASCII letters and the JavaScript whitespace set only. There is no Unicode case mapping.
- Normalizer.FootnoteRewrite: `parseInt` is exact here. Digit runs beyond 2^53 lose precision in JavaScript.
- `separateHeadings` (src/prompts.ts:799-802) returns its argument before its replacement, so the model has no member for it.
- TreeAssembler.StitchTree: `insertNode` mutates shared child arrays. The model rebuilds values, which is equivalent because every inserted node is fresh.
- The root built by `stitchTree` has no `path` property in JavaScript. The model gives it the empty path.
- An insertion with an empty path writes a non-index property `children["undefined"]`. The model leaves the tree unchanged. The parser never emits an empty path after the root entry.
- Markdown.GenerateMarkdown: child slots that are `None` are skipped, as `forEach` skips holes. A literal `null` child would make the JavaScript destructure `''` and lose the counter. That case is not modelled.
- The OpenAI client, prompt texts and `RequestPool` (src/summarize.ts:1-50, 71-112) are left out. The service is a parameter that receives the request number, position and text.
- `CacheManager` is not part of this model. The cache is a map field whose initial contents are a constructor argument. Persistence to disk is left out.
- A reply that is valid JSON but not an object with these fields (for example `null`) is not modelled.
- Summarize.Summarizer.SummarizeTree: children are summarised one after another in slot order. The source runs them concurrently with `Promise.all`, so `summarized` follows completion order. On a rejection, siblings already started keep running and may fill the cache. Two concurrent misses on the same text make two requests.
- Summarize.Summarizer.SummarizeTree: the model returns the annotated tree instead of writing `node.summary` into the shared tree in place.
- The script around `summarizeTree` (src/summarize.ts:4, 186-188) is I/O: reading the tree, choosing `children[3]` and writing the result.
- KeywordMatch.ApplyRegex: the regular-expression engine is the `Matcher` parameter. An `or` or `and` member that is present but not an array, which throws in JavaScript, is not modelled.
- `extractItemFromQuestionnaire` (src/index.ts:15-20) refers to an undefined variable and is left out. An absent nested `item` list is treated as an empty one, which the search handles the same way.
- PatientRecords.PatientFile.ReadFiles: the directory listing, what reading each entry gives (its text or the error `readFileSync` throws) and `JSON.parse` are parameters. A thrown error is returned as a `Failure`, with the records pushed before it kept. JSON values are abstracted to the members `readFiles` reads. An `entry` member that is present but not an array is not modelled.
- PatientRecords.PatientFile.constructor: where `readFiles` throws, the source's `new PatientFile(dir)` throws and yields no object; the model yields an object whose `failure` is set and whose `ehr` holds only the records pushed before the throw, so a caller must test `failure`.
- The `ehrChunks` getter (src/index.ts:67-73), the command-line code and the OpenAI prompt functions of src/index.ts and src/prompts.ts are outside the modelled core. So are the HTML parsing functions and docs/app.js.
