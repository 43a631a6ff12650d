/** The text normaliser of src/prompts.ts, applied to the body text of every
    outline node: footnote definitions (`formatFootnotes`), paragraph breaks
    and title formatting (`insertParagraphBreaksAndFormatTitles`),
    superscripting of footnote references (`findAndSuperscriptNumbers`) and
    the chain of the three (`preprocessText`).  `separateHeadings` returns its
    argument unchanged (its second `return` is unreachable), so the chain
    starts from the text itself. */
module Normalizer {
  import opened Wrappers
  import opened Text

  // ---------------------------------------------------------------------------
  // formatFootnotes
  // ---------------------------------------------------------------------------

  /** `maxFootnoteJump`: how far a footnote number may run ahead of the last. */
  const MaxFootnoteJump: nat := 10

  /** The replace callback of `text.replace(/^(\d+)$/gm, ...)` on one line: a
      line that is a run of digits whose value lies in (last, last + 10]
      becomes a footnote definition and moves the counter to that value. */
  function FootnoteLine(line: string, last: nat): (string, nat)
  {
    if line != "" && AllDigits(line) && last < DigitsValue(line) <= last + MaxFootnoteJump then
      ("\nFootnote " + NatToString(DigitsValue(line)) + ":", DigitsValue(line))
    else (line, last)
  }

  /** The lines after the replacement, and the counter, when the callback
      visits the lines in order. */
  function FootnoteLines(lines: seq<string>, last: nat): (r: (seq<string>, nat))
    ensures |r.0| == |lines| && r.1 >= last
  {
    if lines == [] then ([], last)
    else
      var prev := FootnoteLines(lines[..|lines| - 1], last);
      var step := FootnoteLine(lines[|lines| - 1], prev.1);
      (prev.0 + [step.0], step.1)
  }

  /** `formatFootnotes(text, last)`: an absent text gives "" and the counter
      unchanged; otherwise every line is passed through the callback (the
      `m` flag makes `^` and `$` match at line boundaries). */
  function FormatFootnotesSpec(text: Option<string>, last: nat): (r: (string, nat))
    ensures r.1 >= last
  {
    match text
    case None => ("", last)
    case Some(t) =>
      var r := FootnoteLines(Split(t, '\n'), last);
      (Join(r.0, "\n"), r.1)
  }

  /** The counter before line `k` is processed. */
  function CounterBefore(lines: seq<string>, last: nat, k: nat): nat
    requires k <= |lines|
  {
    FootnoteLines(lines[..k], last).1
  }

  method FormatFootnotes(text: Option<string>, lastIn: nat) returns (result: string, last: nat)
    ensures (result, last) == FormatFootnotesSpec(text, lastIn)
    ensures last >= lastIn
  {
    if text.None? {
      return "", lastIn;
    }
    var lines := Split(text.value, '\n');
    var out: seq<string> := [];
    last := lastIn;
    var k := 0;
    while k < |lines|
      invariant 0 <= k <= |lines|
      invariant (out, last) == FootnoteLines(lines[..k], lastIn)
    {
      assert lines[..k + 1][..k] == lines[..k];
      var line := lines[k];
      if line != "" && AllDigits(line) {
        var n := DigitsValue(line);
        if last < n && n <= last + MaxFootnoteJump {
          line := "\nFootnote " + NatToString(n) + ":";
          last := n;
        }
      }
      out := out + [line];
      k := k + 1;
    }
    assert lines[..k] == lines;
    result := Join(out, "\n");
  }

  /** Line `k` of the output is the callback's result on line `k` with the
      counter left by the lines before it. */
  lemma {:induction false} FootnoteLineAt(lines: seq<string>, last: nat, k: nat)
    requires k < |lines|
    ensures var out := FootnoteLines(lines, last).0;
            (out[k], CounterBefore(lines, last, k + 1)) == FootnoteLine(lines[k], CounterBefore(lines, last, k))
    decreases |lines|
  {
    var init := lines[..|lines| - 1];
    assert lines[..|lines|] == lines;
    if k < |lines| - 1 {
      FootnoteLineAt(init, last, k);
      assert init[..k] == lines[..k] && init[..k + 1] == lines[..k + 1];
    } else {
      assert lines[..k] == init;
    }
  }

  /** The counter never goes down from one line to a later one. */
  lemma {:induction false} CounterMonotone(lines: seq<string>, last: nat, k: nat, m: nat)
    requires k <= m <= |lines|
    ensures CounterBefore(lines, last, k) <= CounterBefore(lines, last, m)
    decreases m - k
  {
    if k < m {
      CounterMonotone(lines, last, k, m - 1);
      assert lines[..m][..m - 1] == lines[..m - 1];
    }
  }

  /** A line changes exactly when it is a run of digits whose value lies in
      the window (c, c + 10] over the counter c before it; it then reads
      "\nFootnote n:" with n its value. */
  lemma FootnoteRewrite(lines: seq<string>, last: nat, k: nat)
    requires k < |lines|
    ensures var out := FootnoteLines(lines, last).0;
            var c := CounterBefore(lines, last, k);
            out[k] != lines[k] <==>
              (lines[k] != "" && AllDigits(lines[k]) && c < DigitsValue(lines[k]) <= c + MaxFootnoteJump)
    ensures var out := FootnoteLines(lines, last).0;
            out[k] != lines[k] ==>
              out[k] == "\nFootnote " + NatToString(DigitsValue(lines[k])) + ":" &&
              CounterBefore(lines, last, k + 1) == DigitsValue(lines[k])
  {
    FootnoteLineAt(lines, last, k);
    var out := FootnoteLines(lines, last).0;
    if lines[k] != "" && AllDigits(lines[k]) {
      assert out[k][0] == '\n' || out[k] == lines[k];
      assert lines[k][0] != '\n';
    }
  }

  /** The footnotes defined in one text are numbered in strictly increasing
      order. */
  lemma FootnoteNumbersIncrease(lines: seq<string>, last: nat, i: nat, j: nat)
    requires i < j < |lines|
    requires FootnoteLines(lines, last).0[i] != lines[i]
    requires FootnoteLines(lines, last).0[j] != lines[j]
    ensures AllDigits(lines[i]) && AllDigits(lines[j]) && DigitsValue(lines[i]) < DigitsValue(lines[j])
  {
    FootnoteRewrite(lines, last, i);
    FootnoteRewrite(lines, last, j);
    CounterMonotone(lines, last, i + 1, j);
  }

  // ---------------------------------------------------------------------------
  // insertParagraphBreaksAndFormatTitles
  // ---------------------------------------------------------------------------

  /** `lines[i].trim()` */
  function TrimmedLine(lines: seq<string>, i: nat): string
    requires i < |lines|
  {
    Trim(lines[i])
  }

  /** `lines[i + 1] ? lines[i + 1].trim() : ''` */
  function NextTrimmed(lines: seq<string>, i: nat): string
    requires i < |lines|
  {
    if i + 1 < |lines| then Trim(lines[i + 1]) else ""
  }

  /** `line.match(/[.”"]$/)` */
  predicate EndsSentence(line: string)
  {
    line != "" && (line[|line| - 1] == '.' || line[|line| - 1] == '\U{201D}' || line[|line| - 1] == '"')
  }

  predicate IsAsciiLower(c: char) { 'a' <= c <= 'z' }

  /** A paragraph break follows line `i`: the line is blank, or it ends a
      sentence and the next line is non-blank and starts with a character
      that upper-casing leaves alone. */
  predicate BreakAfter(lines: seq<string>, i: nat)
    requires i < |lines|
  {
    var line := TrimmedLine(lines, i);
    var next := NextTrimmed(lines, i);
    line == "" || (EndsSentence(line) && next != "" && !IsAsciiLower(next[0]))
  }

  /** The value of `isStartOfParagraph` when line `i` is reached. */
  predicate AtParagraphStart(lines: seq<string>, i: nat)
    requires i <= |lines|
  {
    i == 0 || BreakAfter(lines, i - 1)
  }

  /** `line.match(/^[A-Z\s]+$/) && line.length < 50` */
  predicate IsCapsTitle(line: string)
  {
    line != "" && |line| < 50 && forall k :: 0 <= k < |line| ==> ('A' <= line[k] <= 'Z' || IsJsSpace(line[k]))
  }

  /** What a line that starts a paragraph is rendered as. */
  function OpeningPiece(line: string): string
  {
    if StartsWith(line, "Comments.") then "*Comments.*" + line[9..] + "\n"
    else if StartsWith(line, "Response.") then "*Response.*" + line[9..] + "\n"
    else if IsCapsTitle(line) then "**" + line + "**\n\n"
    else line + "\n"
  }

  /** Everything the loop appends for line `i`. */
  function Chunk(lines: seq<string>, i: nat): string
    requires i < |lines|
  {
    var line := TrimmedLine(lines, i);
    (if AtParagraphStart(lines, i) then OpeningPiece(line) else line + "\n") +
    (if BreakAfter(lines, i) then "\n" else "")
  }

  /** What the loop appends for each of the first `k` lines. */
  function Chunks(lines: seq<string>, k: nat): (r: seq<string>)
    requires k <= |lines|
    ensures |r| == k
  {
    if k == 0 then [] else Chunks(lines, k - 1) + [Chunk(lines, k - 1)]
  }

  lemma {:induction false} ChunksAt(lines: seq<string>, k: nat, i: nat)
    requires i < k <= |lines|
    ensures Chunks(lines, k)[i] == Chunk(lines, i)
  {
    if i < k - 1 {
      ChunksAt(lines, k - 1, i);
    }
  }

  function FormatParagraphs(text: string): string
  {
    var lines := Split(text, '\n');
    Concat(Chunks(lines, |lines|))
  }

  /** `insertParagraphBreaksAndFormatTitles(text)`: the loop carries the
      paragraph-start flag from one line to the next. */
  method InsertParagraphBreaks(text: string) returns (newText: string)
    ensures newText == FormatParagraphs(text)
  {
    var lines := Split(text, '\n');
    ghost var chunks := Chunks(lines, |lines|);
    newText := "";
    var isStartOfParagraph := true;
    var i := 0;
    while i < |lines|
      invariant 0 <= i <= |lines|
      invariant newText == Concat(chunks[..i])
      invariant isStartOfParagraph == AtParagraphStart(lines, i)
    {
      ghost var before := newText;
      newText, isStartOfParagraph := FormatLine(lines, i, newText, isStartOfParagraph);
      ChunksAt(lines, |lines|, i);
      assert chunks[..i + 1] == chunks[..i] + [chunks[i]];
      i := i + 1;
    }
    assert chunks[..i] == chunks;
  }

  /** The body of the loop for line `i`: its piece, then a blank line when a
      paragraph ends after it; the flag for the next line. */
  method FormatLine(lines: seq<string>, i: nat, textIn: string, isStartOfParagraph: bool)
    returns (newText: string, isStartNext: bool)
    requires i < |lines| && isStartOfParagraph == AtParagraphStart(lines, i)
    ensures newText == textIn + Chunk(lines, i)
    ensures isStartNext == AtParagraphStart(lines, i + 1)
  {
    var line := Trim(lines[i]);
    var nextLine := if i + 1 < |lines| && lines[i + 1] != "" then Trim(lines[i + 1]) else "";
    assert nextLine == NextTrimmed(lines, i);
    var piece := OpenLine(line, isStartOfParagraph);
    if line == "" || (EndsSentence(line) && nextLine != "" && !IsAsciiLower(nextLine[0])) {
      isStartNext := true;
      newText := textIn + (piece + "\n");
    } else {
      isStartNext := false;
      newText := textIn + (piece + "");
    }
  }

  /** The piece written for a line, by the flag `isStartOfParagraph`. */
  method OpenLine(line: string, isStartOfParagraph: bool) returns (piece: string)
    ensures piece == if isStartOfParagraph then OpeningPiece(line) else line + "\n"
  {
    if isStartOfParagraph {
      if StartsWith(line, "Comments.") {
        piece := "*Comments.*" + line[9..] + "\n";
      } else if StartsWith(line, "Response.") {
        piece := "*Response.*" + line[9..] + "\n";
      } else if IsCapsTitle(line) {
        piece := "**" + line + "**\n\n";
      } else {
        piece := line + "\n";
      }
    } else {
      piece := line + "\n";
    }
  }

  /** What survives of a line in what the loop appends for it. */
  function Kept(line: string, atStart: bool): string
  {
    if atStart && (StartsWith(line, "Comments.") || StartsWith(line, "Response."))
    then "*" + line[..9] + "*" + line[9..]
    else line
  }

  lemma PieceKeepsLine(line: string, atStart: bool, tail: string)
    ensures Contains((if atStart then OpeningPiece(line) else line + "\n") + tail, Kept(line, atStart))
  {
    if atStart && (StartsWith(line, "Comments.") || StartsWith(line, "Response.")) {
      LabelKept(line, tail);
    } else if atStart && IsCapsTitle(line) {
      assert OpeningPiece(line) + tail == "**" + line + ("**\n\n" + tail);
      ContainsMiddle("**", line, "**\n\n" + tail);
    } else {
      assert (if atStart then OpeningPiece(line) else line + "\n") == line + "\n";
      assert line + "\n" + tail == "" + line + ("\n" + tail);
      ContainsMiddle("", line, "\n" + tail);
    }
  }

  /** A "Comments." or "Response." line keeps its text, label in italics. */
  lemma LabelKept(line: string, tail: string)
    requires StartsWith(line, "Comments.") || StartsWith(line, "Response.")
    ensures Contains(OpeningPiece(line) + tail, "*" + line[..9] + "*" + line[9..])
  {
    var kept := "*" + line[..9] + "*" + line[9..];
    if StartsWith(line, "Comments.") {
      assert line[..9] == "Comments.";
    } else {
      assert line[..9] == "Response.";
    }
    assert OpeningPiece(line) + tail == "" + kept + ("\n" + tail);
    ContainsMiddle("", kept, "\n" + tail);
  }

  /** Every line survives in the output, trimmed: as it is, or with its
      "Comments." or "Response." label put in italics when it opens a
      paragraph. */
  lemma LineKept(text: string, i: nat)
    requires i < |Split(text, '\n')|
    ensures var lines := Split(text, '\n');
            Contains(FormatParagraphs(text), Kept(TrimmedLine(lines, i), AtParagraphStart(lines, i)))
  {
    var lines := Split(text, '\n');
    ConcatContains(Chunks(lines, |lines|), i);
    ChunksAt(lines, |lines|, i);
    PieceKeepsLine(TrimmedLine(lines, i), AtParagraphStart(lines, i), if BreakAfter(lines, i) then "\n" else "");
    ContainsTrans(FormatParagraphs(text), Chunk(lines, i), Kept(TrimmedLine(lines, i), AtParagraphStart(lines, i)));
  }

  /** A capitals title is neither a "Comments." nor a "Response." line. */
  lemma CapsTitleNotLabel(line: string)
    requires IsCapsTitle(line)
    ensures !StartsWith(line, "Comments.") && !StartsWith(line, "Response.")
  {
    if |line| >= 2 {
      assert 'A' <= line[1] <= 'Z' || IsJsSpace(line[1]);
    }
  }

  /** A short all-capitals line that opens a paragraph is set in bold and
      followed by a blank line. */
  lemma CapsTitleBold(text: string, i: nat)
    requires i < |Split(text, '\n')|
    requires AtParagraphStart(Split(text, '\n'), i)
    requires IsCapsTitle(TrimmedLine(Split(text, '\n'), i))
    ensures Contains(FormatParagraphs(text), "**" + TrimmedLine(Split(text, '\n'), i) + "**\n\n")
  {
    var lines := Split(text, '\n');
    var piece := "**" + TrimmedLine(lines, i) + "**\n\n";
    ConcatContains(Chunks(lines, |lines|), i);
    ChunksAt(lines, |lines|, i);
    TitleChunk(lines, i);
    ContainsTrans(FormatParagraphs(text), Chunk(lines, i), piece);
  }

  /** What the loop appends for a capitals title that opens a paragraph
      holds the title in bold. */
  lemma TitleChunk(lines: seq<string>, i: nat)
    requires i < |lines| && AtParagraphStart(lines, i) && IsCapsTitle(TrimmedLine(lines, i))
    ensures Contains(Chunk(lines, i), "**" + TrimmedLine(lines, i) + "**\n\n")
  {
    var line := TrimmedLine(lines, i);
    var piece := "**" + line + "**\n\n";
    CapsTitleNotLabel(line);
    var tail := if BreakAfter(lines, i) then "\n" else "";
    assert OpeningPiece(line) == piece;
    assert Chunk(lines, i) == "" + piece + tail;
    ContainsMiddle("", piece, tail);
  }

  /** The output is never empty and always ends with a newline. */
  lemma ParagraphsEndWithNewline(text: string)
    ensures var out := FormatParagraphs(text);
            out != "" && out[|out| - 1] == '\n'
  {
    var lines := Split(text, '\n');
    var chunks := Chunks(lines, |lines|);
    var k := |lines| - 1;
    var line := TrimmedLine(lines, k);
    var piece := if AtParagraphStart(lines, k) then OpeningPiece(line) else line + "\n";
    assert piece != "" && piece[|piece| - 1] == '\n';
    var chunk := chunks[k];
    assert chunk != "" && chunk[|chunk| - 1] == '\n';
    assert Concat(chunks) == Concat(chunks[..k]) + chunk;
  }

  // ---------------------------------------------------------------------------
  // findAndSuperscriptNumbers
  // ---------------------------------------------------------------------------
  //
  // The pattern is built in a template literal, where "\s" is just the letter
  // "s": the regular expression is `([^s]+)N([s.]|$)` with the flags `g` and
  // `m`, N being the footnote number.

  /** Group 1 can end at `b`: the number follows at `b`, and after it comes an
      's', a '.', or the end of the line. */
  predicate EndsMatchAt(line: string, num: string, b: int)
  {
    1 <= b && OccursAt(line, num, b) &&
    (b + |num| == |line| || line[b + |num|] == 's' || line[b + |num|] == '.')
  }

  /** The end of the run of characters other than 's' that starts at `a`. */
  function RunEnd(line: string, a: nat): (r: nat)
    requires a <= |line|
    ensures a <= r <= |line|
    ensures r == |line| || line[r] == 's'
    ensures forall k :: a <= k < r ==> line[k] != 's'
    decreases |line| - a
  {
    if a == |line| || line[a] == 's' then a else RunEnd(line, a + 1)
  }

  /** The largest `b` in (lo, hi] where group 1 can end. */
  function LastEnd(line: string, num: string, lo: nat, hi: nat): (r: Option<nat>)
    ensures r.Some? ==> lo < r.value <= hi && EndsMatchAt(line, num, r.value)
    ensures r.Some? ==> forall b :: r.value < b <= hi ==> !EndsMatchAt(line, num, b)
    ensures r.None? ==> forall b :: lo < b <= hi ==> !EndsMatchAt(line, num, b)
    decreases hi
  {
    if hi <= lo then None
    else if EndsMatchAt(line, num, hi) then Some(hi)
    else LastEnd(line, num, lo, hi - 1)
  }

  /** Where group 1 ends for a match starting at `a`, if one starts there:
      `[^s]+` is greedy, so the engine takes the largest workable end within
      the run of non-'s' characters. */
  function MatchAt(line: string, num: string, a: nat): (r: Option<nat>)
    requires a <= |line|
    ensures r.Some? ==> a < r.value <= RunEnd(line, a) && EndsMatchAt(line, num, r.value)
    ensures r.Some? ==> forall b :: r.value < b <= RunEnd(line, a) ==> !EndsMatchAt(line, num, b)
    ensures r.None? ==> forall b :: a < b <= RunEnd(line, a) ==> !EndsMatchAt(line, num, b)
  {
    if a < |line| && line[a] != 's' then LastEnd(line, num, a, RunEnd(line, a)) else None
  }

  /** One step of the replacement scan at `pos`: the text it emits and the
      position where the scan resumes.  Without a match starting at `pos` the
      character is copied; otherwise group 1, the number in `<sup>` tags and
      group 2 (the 's' or '.' after the number, or nothing at the end). */
  function SupStep(line: string, num: string, pos: nat): (r: (string, nat))
    requires pos < |line|
    ensures pos < r.1 <= |line|
  {
    match MatchAt(line, num, pos)
    case None => ([line[pos]], pos + 1)
    case Some(b) =>
      var e := b + |num|;
      var tail := if e < |line| then [line[e]] else "";
      (line[pos..b] + "<sup>" + num + "</sup>" + tail, e + |tail|)
  }

  /** `line.replace(regex, "$1<sup>N</sup>$2")` from position `pos` on: the
      leftmost match is replaced, and the search resumes after it. */
  function SupAll(line: string, num: string, pos: nat): string
    requires pos <= |line|
    decreases |line| - pos
  {
    if pos == |line| then ""
    else
      var step := SupStep(line, num, pos);
      step.0 + SupAll(line, num, step.1)
  }

  /** `regex.test(line)`: some match exists. */
  predicate HasMatch(line: string, num: string)
  {
    exists b :: 1 <= b <= |line| && line[b - 1] != 's' && EndsMatchAt(line, num, b)
  }

  /** A step emits at least what it consumes, and more when it replaces. */
  lemma SupStepLength(line: string, num: string, pos: nat)
    requires pos < |line|
    ensures var step := SupStep(line, num, pos);
            |step.0| >= step.1 - pos &&
            (MatchAt(line, num, pos).Some? ==> |step.0| > step.1 - pos) &&
            (MatchAt(line, num, pos).None? ==> step.0 == line[pos..step.1])
  {
  }

  /** A step adds no line break. */
  lemma SupStepOneLine(line: string, num: string, pos: nat)
    requires pos < |line| && '\n' !in line && '\n' !in num
    ensures '\n' !in SupStep(line, num, pos).0
  {
    match MatchAt(line, num, pos)
    case None =>
    case Some(b) =>
      assert '\n' !in line[pos..b];
  }

  /** A match that starts at `pos` is one the test finds. */
  lemma MatchAtFound(line: string, num: string, pos: nat)
    requires pos <= |line| && MatchAt(line, num, pos).Some?
    ensures HasMatch(line, num)
  {
    var b := MatchAt(line, num, pos).value;
    assert line[b - 1] != 's';
  }

  /** Without a match the replacement changes nothing. */
  lemma {:induction false} SupAllNoMatch(line: string, num: string, pos: nat)
    requires pos <= |line| && !HasMatch(line, num)
    ensures SupAll(line, num, pos) == line[pos..]
    decreases |line| - pos
  {
    if pos < |line| {
      if MatchAt(line, num, pos).Some? {
        MatchAtFound(line, num, pos);
        assert false;
      }
      SupStepLength(line, num, pos);
      SupAllNoMatch(line, num, pos + 1);
      assert line[pos..] == [line[pos]] + line[pos + 1..];
    }
  }

  /** The replacement never shortens what it scans. */
  lemma {:induction false} SupAllLength(line: string, num: string, pos: nat)
    requires pos <= |line|
    ensures |SupAll(line, num, pos)| >= |line| - pos
    decreases |line| - pos
  {
    if pos < |line| {
      var step := SupStep(line, num, pos);
      SupStepLength(line, num, pos);
      SupAllLength(line, num, step.1);
    }
  }

  /** A match that can end at `b` makes the text from any `pos` below `b`
      longer: "<sup>" and "</sup>" are inserted. */
  lemma {:induction false} SupAllLonger(line: string, num: string, pos: nat, b: nat)
    requires pos < b <= |line| && line[b - 1] != 's' && EndsMatchAt(line, num, b)
    ensures |SupAll(line, num, pos)| > |line| - pos
    decreases |line| - pos
  {
    var step := SupStep(line, num, pos);
    SupStepLength(line, num, pos);
    if MatchAt(line, num, pos).None? {
      if b - 1 == pos {
        assert false;
      }
      SupAllLonger(line, num, pos + 1, b);
    } else {
      SupAllLength(line, num, step.1);
    }
  }

  /** The replacement adds no line break. */
  lemma {:induction false} SupAllOneLine(line: string, num: string, pos: nat)
    requires pos <= |line| && '\n' !in line && '\n' !in num
    ensures '\n' !in SupAll(line, num, pos)
    decreases |line| - pos
  {
    if pos < |line| {
      var step := SupStep(line, num, pos);
      SupStepOneLine(line, num, pos);
      SupAllOneLine(line, num, step.1);
    }
  }

  /** A line changes exactly when the pattern matches it. */
  lemma SupAllChanges(line: string, num: string)
    ensures SupAll(line, num, 0) == line <==> !HasMatch(line, num)
  {
    if HasMatch(line, num) {
      var b :| 1 <= b <= |line| && line[b - 1] != 's' && EndsMatchAt(line, num, b);
      SupAllLonger(line, num, 0, b);
    } else {
      SupAllNoMatch(line, num, 0);
    }
  }

  /** The highest line in [lo, hi] that the pattern matches. */
  function HighestMatch(lines: seq<string>, num: string, lo: nat, hi: int): (r: Option<nat>)
    requires hi < |lines|
    ensures r.Some? ==> lo <= r.value <= hi
    decreases hi - lo
  {
    if hi < lo then None
    else if HasMatch(lines[hi], num) then Some(hi as nat)
    else HighestMatch(lines, num, lo, hi - 1)
  }

  /** The line found matches and no line above it in the range does; when
      none is found, no line in the range matches. */
  lemma {:induction false} HighestMatchMeaning(lines: seq<string>, num: string, lo: nat, hi: int)
    requires hi < |lines|
    ensures var r := HighestMatch(lines, num, lo, hi);
            (r.Some? ==> HasMatch(lines[r.value], num)) &&
            (r.Some? ==> forall i :: r.value < i <= hi ==> !HasMatch(lines[i], num)) &&
            (r.None? ==> forall i :: lo <= i <= hi ==> !HasMatch(lines[i], num))
    decreases hi - lo
  {
    if lo <= hi && !HasMatch(lines[hi], num) {
      HighestMatchMeaning(lines, num, lo, hi - 1);
    }
  }

  /** `findAndSuperscriptNumbers(text, num, {start, end})`: scanning the lines
      from `min(last, end)` down to `max(0, start)`, the first matching line
      has every match replaced. */
  function Superscript(text: string, num: string, start: int, end: int): string
  {
    var lines := Split(text, '\n');
    var lo := if 0 < start then start else 0;
    var hi := if |lines| - 1 < end then |lines| - 1 else end;
    match HighestMatch(lines, num, lo, hi)
    case None => Join(lines, "\n")
    case Some(i) => Join(lines[i := SupAll(lines[i], num, 0)], "\n")
  }

  method FindAndSuperscript(text: string, num: string, start: int, end: int) returns (result: string)
    ensures result == Superscript(text, num, start, end)
  {
    var lines := Split(text, '\n');
    var startLine := if 0 < start then start else 0;
    var endLine := if |lines| - 1 < end then |lines| - 1 else end;
    var i := endLine;
    while i >= startLine
      invariant i <= endLine
      invariant HighestMatch(lines, num, startLine, endLine) == HighestMatch(lines, num, startLine, i)
      decreases i - startLine
    {
      if HasMatch(lines[i], num) {
        lines := lines[i := SupAll(lines[i], num, 0)];
        break;
      }
      i := i - 1;
    }
    result := Join(lines, "\n");
  }

  /** A footnote number holds no line break. */
  lemma DigitsOneLine(num: string)
    requires AllDigits(num)
    ensures '\n' !in num
  {
  }

  /** Replacing one line by a line without a break keeps the line structure. */
  lemma ReplaceLine(lines: seq<string>, i: nat, x: string)
    requires i < |lines| && '\n' !in x
    requires forall k :: 0 <= k < |lines| ==> '\n' !in lines[k]
    ensures Split(Join(lines[i := x], "\n"), '\n') == lines[i := x]
  {
    var after := lines[i := x];
    assert forall k :: 0 <= k < |after| ==> '\n' !in after[k];
    SplitJoin(after, '\n');
  }

  /** The text keeps its number of lines and at most one line changes: the
      highest matching line in the clamped range, and only if there is one. */
  lemma SuperscriptOneLine(text: string, num: string, start: int, end: int)
    requires AllDigits(num)
    ensures var before := Split(text, '\n');
            var after := Split(Superscript(text, num, start, end), '\n');
            var lo := if 0 < start then start else 0;
            var hi := if |before| - 1 < end then |before| - 1 else end;
            match HighestMatch(before, num, lo, hi)
            case None => after == before
            case Some(i) => after == before[i := SupAll(before[i], num, 0)]
  {
    var before := Split(text, '\n');
    var lo := if 0 < start then start else 0;
    var hi := if |before| - 1 < end then |before| - 1 else end;
    var m := HighestMatch(before, num, lo, hi);
    if m.None? {
      assert Superscript(text, num, start, end) == Join(before, "\n");
      JoinSplit(text, '\n');
    } else {
      var i := m.value;
      var x := SupAll(before[i], num, 0);
      assert Superscript(text, num, start, end) == Join(before[i := x], "\n");
      SplitPieces(text, '\n');
      DigitsOneLine(num);
      SupAllOneLine(before[i], num, 0);
      ReplaceLine(before, i, x);
    }
  }

  /** With no matching line in range the text comes back unchanged. */
  lemma SuperscriptNoMatch(text: string, num: string, start: int, end: int)
    requires forall i :: 0 <= i < |Split(text, '\n')| ==> !HasMatch(Split(text, '\n')[i], num)
    ensures Superscript(text, num, start, end) == text
  {
    var lines := Split(text, '\n');
    HighestMatchMeaning(lines, num, if 0 < start then start else 0, if |lines| - 1 < end then |lines| - 1 else end);
    JoinSplit(text, '\n');
  }

  /** A superscript pass keeps the number of lines. */
  lemma SuperscriptLines(text: string, num: string, start: int, end: int)
    requires AllDigits(num)
    ensures |Split(Superscript(text, num, start, end), '\n')| == |Split(text, '\n')|
  {
    SuperscriptOneLine(text, num, start, end);
  }

  // ---------------------------------------------------------------------------
  // preprocessText
  // ---------------------------------------------------------------------------

  /** How many lines above a footnote definition its reference is sought. */
  const Lookback: nat := 80

  /** The digit run at the start of `s`. */
  function DigitPrefix(s: string): (r: string)
    ensures |r| <= |s| && r == s[..|r|] && AllDigits(r)
    ensures |r| == |s| || !IsDigit(s[|r|])
  {
    if s != [] && IsDigit(s[0]) then [s[0]] + DigitPrefix(s[1..]) else ""
  }

  /** `line.match(/^Footnote (\d+):/)[1]`, if the line matches. */
  function FootnoteNumberOf(line: string): (r: Option<string>)
    ensures r.Some? ==> r.value != "" && AllDigits(r.value) && StartsWith(line, "Footnote " + r.value + ":")
  {
    if StartsWith(line, "Footnote ") then
      var d := DigitPrefix(line[9..]);
      if d != "" && 9 + |d| < |line| && line[9 + |d|] == ':' then
        assert line[..9 + |d| + 1] == "Footnote " + d + ":";
        Some(d)
      else None
    else None
  }

  /** The match is exact: a line that starts with "Footnote ", digits and a
      colon yields exactly those digits. */
  lemma FootnoteNumberOfExact(line: string, d: string)
    requires d != "" && AllDigits(d) && StartsWith(line, "Footnote " + d + ":")
    ensures FootnoteNumberOf(line) == Some(d)
  {
    var p := "Footnote " + d + ":";
    assert line[..|p|] == p;
    assert line[..9] == p[..9];
    var rest := line[9..];
    forall k | 0 <= k < |d| ensures rest[k] == d[k] {
      assert rest[k] == line[9 + k] == p[9 + k];
    }
    assert rest[..|d|] == d;
    assert rest[|d|] == line[9 + |d|] == p[9 + |d|] == ':';
    var r := DigitPrefix(rest);
    if |r| < |d| {
      assert false;
    }
    if |r| > |d| {
      assert false;
    }
    assert r == d;
  }

  /** The superscript passes over the first `k` lines of the formatted text,
      one for each footnote definition line. */
  function SuperscriptPass(lines: seq<string>, text: string, k: nat): string
    requires k <= |lines|
  {
    if k == 0 then text
    else
      var t := SuperscriptPass(lines, text, k - 1);
      match FootnoteNumberOf(lines[k - 1])
      case None => t
      case Some(d) => Superscript(t, d, (k - 1) - Lookback, (k - 1) - 1)
  }

  /** `preprocessText(text, last)`: footnotes, then paragraphs, then one
      superscript pass per footnote definition. */
  function PreprocessSpec(text: Option<string>, last: nat): (r: (string, nat))
    ensures r.1 >= last
  {
    var footnoted := FormatFootnotesSpec(text, last);
    var formatted := FormatParagraphs(footnoted.0);
    var lines := Split(formatted, '\n');
    (SuperscriptPass(lines, formatted, |lines|), footnoted.1)
  }

  method Preprocess(text: Option<string>, lastIn: nat) returns (processedText: string, last: nat)
    ensures (processedText, last) == PreprocessSpec(text, lastIn)
    ensures last >= lastIn
  {
    var footnoted;
    footnoted, last := FormatFootnotes(text, lastIn);
    processedText := InsertParagraphBreaks(footnoted);
    var lines := Split(processedText, '\n');
    ghost var formatted := processedText;
    var i := 0;
    while i < |lines|
      invariant 0 <= i <= |lines|
      invariant processedText == SuperscriptPass(lines, formatted, i)
    {
      processedText := SuperscriptFor(lines, formatted, i, processedText);
      i := i + 1;
    }
  }

  /** The body of the loop of `preprocessText` for line `i`: a footnote
      definition starts a superscript pass over the lines above it. */
  method SuperscriptFor(lines: seq<string>, ghost formatted: string, i: nat, text: string) returns (result: string)
    requires i < |lines| && text == SuperscriptPass(lines, formatted, i)
    ensures result == SuperscriptPass(lines, formatted, i + 1)
  {
    result := text;
    var m := FootnoteNumberOf(lines[i]);
    if m.Some? {
      result := FindAndSuperscript(text, m.value, i - Lookback, i - 1);
    }
  }

  /** The superscript passes keep the number of lines. */
  lemma {:induction false} SuperscriptPassLines(lines: seq<string>, text: string, k: nat)
    requires k <= |lines|
    ensures |Split(SuperscriptPass(lines, text, k), '\n')| == |Split(text, '\n')|
  {
    if k > 0 {
      SuperscriptPassLines(lines, text, k - 1);
      var t := SuperscriptPass(lines, text, k - 1);
      match FootnoteNumberOf(lines[k - 1])
      case None =>
      case Some(d) => SuperscriptLines(t, d, (k - 1) - Lookback, (k - 1) - 1);
    }
  }

  /** A text without footnote definition lines is only footnoted and
      formatted; preprocessing keeps the number of formatted lines. */
  lemma PreprocessShape(text: Option<string>, last: nat)
    ensures var formatted := FormatParagraphs(FormatFootnotesSpec(text, last).0);
            var r := PreprocessSpec(text, last);
            |Split(r.0, '\n')| == |Split(formatted, '\n')| &&
            ((forall i :: 0 <= i < |Split(formatted, '\n')| ==> FootnoteNumberOf(Split(formatted, '\n')[i]).None?) ==>
               r.0 == formatted)
  {
    var formatted := FormatParagraphs(FormatFootnotesSpec(text, last).0);
    var lines := Split(formatted, '\n');
    SuperscriptPassLines(lines, formatted, |lines|);
    if forall i :: 0 <= i < |lines| ==> FootnoteNumberOf(lines[i]).None? {
      NoFootnotePass(lines, formatted, |lines|);
    }
  }

  lemma {:induction false} NoFootnotePass(lines: seq<string>, text: string, k: nat)
    requires k <= |lines|
    requires forall i :: 0 <= i < k ==> FootnoteNumberOf(lines[i]).None?
    ensures SuperscriptPass(lines, text, k) == text
  {
    if k > 0 {
      NoFootnotePass(lines, text, k - 1);
    }
  }
}
