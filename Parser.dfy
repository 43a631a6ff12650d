/** `parseText` (src/prompts.ts:452-546): a fold over the lines of a numbered
    regulation that carries the current outline path and the list of
    (node, path) entries opened so far.  A line becomes a heading when the
    text before its first ". " is the expected label of one of the successor
    paths of the current path; any other line is body text of the entry
    opened last. */
module OutlineParser {
  import opened Wrappers
  import opened Text
  import opened Outline
  import Roman

  /** How many siblings ahead a heading may skip (`LOOKAHEAD`). */
  const Lookahead: nat := 3

  // ---------------------------------------------------------------------------
  // Successor paths
  // ---------------------------------------------------------------------------

  /** The index offered at an ancestor level whose current index is `x`:
      `(x || -1) + j + 1`.  Because 0 is falsy, an index of 0 gives 0, 1, 2:
      the current index is offered again. */
  function Advance(x: nat, j: nat): nat
  {
    var base: int := if x == 0 then -1 else x;
    (base + j + 1) as nat
  }

  /** Opening a first, second or third child of the current node. */
  function Descend(p: Path): seq<Path>
  {
    [p + [0], p + [1], p + [2]]
  }

  /** The three candidates that advance at ancestor level `i`. */
  function Level(p: Path, i: nat): seq<Path>
    requires i < |p|
  {
    [p[..i] + [Advance(p[i], 0)], p[..i] + [Advance(p[i], 1)], p[..i] + [Advance(p[i], 2)]]
  }

  /** The ascend candidates for levels |p|-1 down to `i`, deepest first. */
  function Upper(p: Path, i: nat): seq<Path>
    requires i <= |p|
    decreases |p| - i
  {
    if i == |p| then [] else Upper(p, i + 1) + Level(p, i)
  }

  /** The valid successors of `p`, in the order they are tried. */
  function Successors(p: Path): seq<Path>
  {
    Descend(p) + Upper(p, 0)
  }

  /** Ascend candidate number `n` (counting from 0): level |p|-1-n/3,
      offset n%3. */
  function AscendAt(p: Path, n: nat): Path
    requires n < 3 * |p|
  {
    var m := n / 3;
    p[..|p| - 1 - m] + [Advance(p[|p| - 1 - m], n % 3)]
  }

  lemma {:induction false} UpperShape(p: Path, i: nat)
    requires i <= |p|
    ensures |Upper(p, i)| == 3 * (|p| - i)
    ensures forall n :: 0 <= n < 3 * (|p| - i) ==> Upper(p, i)[n] == AscendAt(p, n)
    decreases |p| - i
  {
    if i < |p| {
      UpperShape(p, i + 1);
      var u := Upper(p, i + 1);
      assert Upper(p, i) == u + Level(p, i);
      forall n | 0 <= n < 3 * (|p| - i)
        ensures Upper(p, i)[n] == AscendAt(p, n)
      {
        if n < |u| {
          assert Upper(p, i)[n] == u[n];
        } else {
          var j := n - |u|;
          assert n / 3 == |p| - i - 1 && n % 3 == j;
          assert Upper(p, i)[n] == Level(p, i)[j];
          assert Level(p, i)[j] == p[..i] + [Advance(p[i], j)] by {
            if j == 0 {} else if j == 1 {} else {}
          }
        }
      }
    }
  }

  /** For a current path of length d the list has 3 + 3d entries: first the
      three children P+[0], P+[1], P+[2], then for each level i from d-1 down
      to 0 the three paths P[..i] + [(P[i] || -1) + j + 1]. */
  lemma SuccessorsShape(p: Path)
    ensures |Successors(p)| == 3 + 3 * |p|
    ensures forall j :: 0 <= j < 3 ==> Successors(p)[j] == p + [j]
    ensures forall n :: 3 <= n < 3 + 3 * |p| ==> Successors(p)[n] == AscendAt(p, n - 3)
  {
    UpperShape(p, 0);
    var s := Successors(p);
    forall n | 3 <= n < 3 + 3 * |p|
      ensures s[n] == AscendAt(p, n - 3)
    {
      assert s[n] == Upper(p, 0)[n - 3];
    }
  }

  /** Every successor opens one node below a prefix of the current path: its
      length is between 1 and |p| + 1 and all but its last index agree with p. */
  lemma SuccessorParent(p: Path, n: nat)
    requires n < |Successors(p)|
    ensures 1 <= |Successors(p)[n]| <= |p| + 1
    ensures IsPrefix(Successors(p)[n][..|Successors(p)[n]| - 1], p)
  {
    SuccessorsShape(p);
    var c := Successors(p)[n];
    if n < 3 {
      assert c == p + [n];
      assert c[..|c| - 1] == p;
    } else {
      var m := (n - 3) / 3;
      assert c == AscendAt(p, n - 3);
      assert c == p[..|p| - 1 - m] + [Advance(p[|p| - 1 - m], (n - 3) % 3)];
      assert c[..|c| - 1] == p[..|p| - 1 - m];
    }
  }

  /** The `|| -1` quirk: at a level whose index is 0 the current index itself
      is offered again, so a second "I." right after "I." re-opens path [0]. */
  lemma ZeroIndexReoffered(p: Path, i: nat)
    requires i < |p| && p[i] == 0
    ensures p[..i + 1] in Successors(p)
  {
    SuccessorsShape(p);
    var m := |p| - 1 - i;
    assert Successors(p)[3 + 3 * m] == AscendAt(p, 3 * m);
    assert (3 * m) / 3 == m && (3 * m) % 3 == 0;
    assert p[..i] + [Advance(p[i], 0)] == p[..i + 1];
  }

  /** `validSuccessors` as the nested loops of the source build it. */
  method ValidSuccessors(p: Path) returns (cands: seq<Path>)
    ensures cands == Successors(p)
  {
    cands := [];
    var j := 0;
    while j < Lookahead
      invariant 0 <= j <= Lookahead
      invariant cands == Descend(p)[..j]
    {
      cands := cands + [p + [j]];
      j := j + 1;
    }
    var i := |p| - 1;
    while i >= 0
      invariant -1 <= i < |p|
      invariant cands == Descend(p) + Upper(p, i + 1)
    {
      j := 0;
      while j < Lookahead
        invariant 0 <= j <= Lookahead
        invariant cands == Descend(p) + Upper(p, i + 1) + Level(p, i)[..j]
      {
        cands := cands + [p[..i] + [Advance(p[i], j)]];
        j := j + 1;
      }
      i := i - 1;
    }
  }

  // ---------------------------------------------------------------------------
  // Labels
  // ---------------------------------------------------------------------------

  /** `String.fromCharCode(base + idx + 1)` for a letter label.  Indices past
      the 26th letter are not given a label (see README, Left out). */
  function LetterLabel(first: char, idx: nat): Option<string>
    requires first == 'A' || first == 'a'
  {
    if idx < 26 then Some([(first as int + idx) as char]) else None
  }

  /** The expected label of a candidate path: it depends only on the path's
      length and its last index.  Length 1: upper-case Roman, 2: capital
      letter, 3: arabic number, 4: lower-case letter, 5: lower-case Roman;
      longer paths have no label. */
  function Label(c: Path): Option<string>
  {
    if |c| == 0 then Some("I")
    else
      var last := c[|c| - 1];
      if |c| == 1 then Some(Roman.RomanOf(last + 1))
      else if |c| == 2 then LetterLabel('A', last)
      else if |c| == 3 then Some(NatToString(last + 1))
      else if |c| == 4 then LetterLabel('a', last)
      else if |c| == 5 then Some(Roman.LowerCase(Roman.RomanOf(last + 1)))
      else None
  }

  /** A character that `.` in a regular expression does not match. */
  predicate IsLineTerminator(c: char)
  {
    c == '\n' || c == '\r' || c == '\U{2028}' || c == '\U{2029}'
  }

  /** `regex && new RegExp("^" + regex + "\.$").test(text)`.  Inside a string
      literal "\." is just ".", so the pattern is the label followed by any
      one character other than a line terminator.  Labels hold letters and
      digits only, so they match themselves literally. */
  predicate AnchoredTest(expected: Option<string>, text: string)
  {
    expected.Some? && |text| == |expected.value| + 1 && text[..|expected.value|] == expected.value &&
    !IsLineTerminator(text[|expected.value|])
  }

  /** Because the tested text is always `line.split(". ")[0] + "."`, the
      test is exact equality of that first segment with the label. */
  lemma AnchoredTestIsEquality(expected: Option<string>, seg: string)
    ensures AnchoredTest(expected, seg + ".") <==> expected == Some(seg)
  {
    if expected.Some? && |seg + "."| == |expected.value| + 1 {
      assert (seg + ".")[..|expected.value|] == seg;
    }
  }

  /** `successorTexts.findIndex(...)`: the first candidate whose label
      passes the test, if any. */
  function FirstMatch(cands: seq<Path>, text: string): (r: Option<nat>)
    ensures r.Some? ==> r.value < |cands|
  {
    if cands == [] then None
    else if AnchoredTest(Label(cands[0]), text) then Some(0)
    else
      match FirstMatch(cands[1..], text)
      case None => None
      case Some(k) => Some(k + 1)
  }

  /** The index `findIndex` returns passes the test and no earlier candidate
      does; no candidate passes when it returns none. */
  lemma {:induction false} FirstMatchMeaning(cands: seq<Path>, text: string)
    ensures var r := FirstMatch(cands, text);
            (r.Some? ==> AnchoredTest(Label(cands[r.value]), text)) &&
            (r.Some? ==> forall j :: 0 <= j < r.value ==> !AnchoredTest(Label(cands[j]), text)) &&
            (r.None? ==> forall j :: 0 <= j < |cands| ==> !AnchoredTest(Label(cands[j]), text))
  {
    if cands != [] && !AnchoredTest(Label(cands[0]), text) {
      FirstMatchMeaning(cands[1..], text);
      assert forall j :: 1 <= j < |cands| ==> cands[j] == cands[1..][j - 1];
    }
  }

  /** `findIndex` returns `k` when candidate `k` is the first to pass. */
  lemma FirstMatchAt(cands: seq<Path>, text: string, k: nat)
    requires k < |cands| && AnchoredTest(Label(cands[k]), text)
    requires forall j :: 0 <= j < k ==> !AnchoredTest(Label(cands[j]), text)
    ensures FirstMatch(cands, text) == Some(k)
  {
    FirstMatchMeaning(cands, text);
  }

  // ---------------------------------------------------------------------------
  // The fold
  // ---------------------------------------------------------------------------

  /** A node as the parser creates it: the heading line and the body text
      gathered under it. */
  datatype RawNode = RawNode(title: string, text: string)

  /** One element of `processed`: a node and a copy of its path. */
  datatype Entry = Entry(node: RawNode, path: Path)

  /** The reduce accumulator `{processed, path}`. */
  datatype ParseState = ParseState(processed: seq<Entry>, path: Path)

  /** The accumulator before the first line: the root entry at the empty path. */
  function Initial(): ParseState
  {
    ParseState([Entry(RawNode("Root", ""), [])], [])
  }

  /** `acc.processed.at(-1)[0].text += t` */
  function AppendToLast(s: ParseState, t: string): ParseState
    requires |s.processed| >= 1
  {
    var last := s.processed[|s.processed| - 1];
    s.(processed := s.processed[|s.processed| - 1 := Entry(RawNode(last.node.title, last.node.text + t), last.path)])
  }

  /** One step of the reduce: what happens to the accumulator for one line. */
  function Step(s: ParseState, line: string): ParseState
    requires |s.processed| >= 1
  {
    if '.' !in line then AppendToLast(s, line + "\n")
    else
      var cands := Successors(s.path);
      match FirstMatch(cands, FirstSegment(line) + ".")
      case None => AppendToLast(s, line + "\n")
      case Some(k) => ParseState(s.processed + [Entry(RawNode(line, ""), cands[k])], cands[k])
  }

  /** The accumulator after all of `lines`. */
  function Parse(lines: seq<string>): (s: ParseState)
    ensures |s.processed| >= 1
  {
    if lines == [] then Initial()
    else Step(Parse(lines[..|lines| - 1]), lines[|lines| - 1])
  }

  /** The line is a heading after path `p`: it contains "." and the text
      before its first ". " equals the label of some successor of `p`. */
  ghost predicate IsHeading(p: Path, line: string)
  {
    '.' in line && exists n :: 0 <= n < |Successors(p)| && Label(Successors(p)[n]) == Some(FirstSegment(line))
  }

  /** A heading line opens a new entry at the first successor whose label
      equals the line's first segment; the entry holds the line as title and
      empty text, and becomes the current path. */
  lemma StepHeading(s: ParseState, line: string)
    requires |s.processed| >= 1
    requires IsHeading(s.path, line)
    ensures var s' := Step(s, line);
            exists n :: 0 <= n < |Successors(s.path)| &&
              Label(Successors(s.path)[n]) == Some(FirstSegment(line)) &&
              (forall j :: 0 <= j < n ==> Label(Successors(s.path)[j]) != Some(FirstSegment(line))) &&
              s'.path == Successors(s.path)[n] &&
              s'.processed == s.processed + [Entry(RawNode(line, ""), Successors(s.path)[n])]
  {
    var cands := Successors(s.path);
    var seg := FirstSegment(line);
    var n0 :| 0 <= n0 < |cands| && Label(cands[n0]) == Some(seg);
    AnchoredTestIsEquality(Label(cands[n0]), seg);
    FirstMatchMeaning(cands, seg + ".");
    var r := FirstMatch(cands, seg + ".");
    assert r.Some?;
    var n := r.value;
    AnchoredTestIsEquality(Label(cands[n]), seg);
    forall j | 0 <= j < n ensures Label(cands[j]) != Some(seg) {
      AnchoredTestIsEquality(Label(cands[j]), seg);
    }
  }

  /** Any other line leaves the path alone and is appended, with a newline,
      to the text of the entry opened last; nothing else changes. */
  lemma StepBody(s: ParseState, line: string)
    requires |s.processed| >= 1
    requires !IsHeading(s.path, line)
    ensures var s' := Step(s, line);
            var L := |s.processed| - 1;
            s'.path == s.path && |s'.processed| == |s.processed| &&
            s'.processed[..L] == s.processed[..L] &&
            s'.processed[L] == Entry(RawNode(s.processed[L].node.title, s.processed[L].node.text + line + "\n"),
                                     s.processed[L].path)
  {
    if '.' in line {
      var cands := Successors(s.path);
      var seg := FirstSegment(line);
      FirstMatchMeaning(cands, seg + ".");
      var r := FirstMatch(cands, seg + ".");
      if r.Some? {
        AnchoredTestIsEquality(Label(cands[r.value]), seg);
        assert false;
      }
    }
  }

  // ---------------------------------------------------------------------------
  // Invariants of the fold
  // ---------------------------------------------------------------------------

  /** Every heading's proper prefixes were opened by an earlier entry (the
      root opens the empty path). */
  ghost predicate PrefixesOpened(entries: seq<Entry>)
  {
    forall k, m :: 1 <= k < |entries| && 0 <= m < |entries[k].path| ==>
      exists k' :: 0 <= k' < k && entries[k'].path == entries[k].path[..m]
  }

  /** What holds of the accumulator after any number of lines. */
  ghost predicate Valid(s: ParseState)
  {
    && |s.processed| >= 1
    && s.processed[0].path == [] && s.processed[0].node.title == "Root"
    && s.path == s.processed[|s.processed| - 1].path
    && (forall k :: 1 <= k < |s.processed| ==> 1 <= |s.processed[k].path| <= 5)
    && PrefixesOpened(s.processed)
  }

  /** Paths longer than five have no label and so never match. */
  lemma LongPathsNeverMatch(c: Path, text: string)
    requires |c| >= 6
    ensures !AnchoredTest(Label(c), text)
  {
  }

  /** Only paths of length at most five carry a label. */
  lemma LabelledLength(c: Path)
    requires Label(c).Some?
    ensures |c| <= 5
  {
  }

  /** A heading's new entry keeps every invariant. */
  lemma StepValidHeading(s: ParseState, line: string)
    requires Valid(s)
    requires IsHeading(s.path, line)
    ensures Valid(Step(s, line))
  {
    var n := HeadingIndex(s, line);
    var c := Successors(s.path)[n];
    SuccessorParent(s.path, n);
    LabelledLength(c);
    NewEntryValid(s, c, line);
  }

  /** The index of the successor a heading line opens. */
  lemma HeadingIndex(s: ParseState, line: string) returns (n: nat)
    requires |s.processed| >= 1
    requires IsHeading(s.path, line)
    ensures n < |Successors(s.path)| && Label(Successors(s.path)[n]) == Some(FirstSegment(line))
    ensures Step(s, line) == ParseState(s.processed + [Entry(RawNode(line, ""), Successors(s.path)[n])], Successors(s.path)[n])
  {
    StepHeading(s, line);
    n :| 0 <= n < |Successors(s.path)| &&
         Label(Successors(s.path)[n]) == Some(FirstSegment(line)) &&
         Step(s, line).path == Successors(s.path)[n] &&
         Step(s, line).processed == s.processed + [Entry(RawNode(line, ""), Successors(s.path)[n])];
  }

  /** Appending an entry one level below a prefix of the current path, at
      depth at most five, keeps the invariant. */
  lemma NewEntryValid(s: ParseState, c: Path, line: string)
    requires Valid(s)
    requires 1 <= |c| <= 5 && IsPrefix(c[..|c| - 1], s.path)
    ensures Valid(ParseState(s.processed + [Entry(RawNode(line, ""), c)], c))
  {
    NewEntryPrefixesOpened(s.processed, s.path, c, line);
    var e := s.processed + [Entry(RawNode(line, ""), c)];
    assert e[0] == s.processed[0];
    assert e[|e| - 1].path == c;
    assert forall k :: 1 <= k < |s.processed| ==> e[k] == s.processed[k];
  }

  lemma NewEntryPrefixesOpened(entries: seq<Entry>, p: Path, c: Path, line: string)
    requires |entries| >= 1 && entries[0].path == []
    requires p == entries[|entries| - 1].path
    requires PrefixesOpened(entries)
    requires 1 <= |c| && IsPrefix(c[..|c| - 1], p)
    ensures PrefixesOpened(entries + [Entry(RawNode(line, ""), c)])
  {
    var e' := entries + [Entry(RawNode(line, ""), c)];
    var L := |entries| - 1;
    forall k, m | 1 <= k < |e'| && 0 <= m < |e'[k].path|
      ensures exists k' :: 0 <= k' < k && e'[k'].path == e'[k].path[..m]
    {
      if k < |entries| {
        var k' :| 0 <= k' < k && entries[k'].path == entries[k].path[..m];
        assert e'[k'].path == e'[k].path[..m];
      } else {
        assert e'[k].path == c;
        assert c[..m] == p[..m];
        if m == |p| {
          assert e'[L].path == c[..m];
        } else {
          assert L >= 1;
          var k' :| 0 <= k' < L && entries[k'].path == entries[L].path[..m];
          assert e'[k'].path == c[..m];
        }
      }
    }
  }

  /** A body line keeps every invariant. */
  lemma StepValidBody(s: ParseState, line: string)
    requires Valid(s)
    requires !IsHeading(s.path, line)
    ensures Valid(Step(s, line))
  {
    var s' := Step(s, line);
    StepBody(s, line);
    var L := |s.processed| - 1;
    assert forall k :: 0 <= k < |s.processed| ==> s'.processed[k].path == s.processed[k].path;
    assert L > 0 ==> s'.processed[0] == s.processed[0];
  }

  lemma StepValid(s: ParseState, line: string)
    requires Valid(s)
    ensures Valid(Step(s, line))
  {
    if IsHeading(s.path, line) {
      StepValidHeading(s, line);
    } else {
      StepValidBody(s, line);
    }
  }

  /** After any lines: the root entry stays first, the current path is the
      last entry's path, every heading's path has length 1 to 5, and every
      proper prefix of a heading's path was opened before it. */
  lemma {:induction false} ParseValid(lines: seq<string>)
    ensures Valid(Parse(lines))
  {
    if lines != [] {
      ParseValid(lines[..|lines| - 1]);
      StepValid(Parse(lines[..|lines| - 1]), lines[|lines| - 1]);
    }
  }

  /** `processed` only grows: each entry keeps its title and path, and the
      root stays first. */
  lemma {:induction false} ParseGrows(lines: seq<string>, m: nat)
    requires m <= |lines|
    ensures var before := Parse(lines[..m]).processed;
            var after := Parse(lines).processed;
            |before| <= |after| &&
            forall k :: 0 <= k < |before| ==>
              after[k].path == before[k].path && after[k].node.title == before[k].node.title
    decreases |lines| - m
  {
    if m < |lines| {
      ParseGrows(lines, m + 1);
      ParseSnoc(lines[..m], lines[m]);
      assert lines[..m] + [lines[m]] == lines[..m + 1];
      StepGrows(Parse(lines[..m]), lines[m]);
    } else {
      assert lines[..m] == lines;
    }
  }

  /** One step keeps every entry's title and path. */
  lemma StepGrows(s: ParseState, line: string)
    requires |s.processed| >= 1
    ensures var after := Step(s, line).processed;
            |s.processed| <= |after| &&
            forall k :: 0 <= k < |s.processed| ==>
              after[k].path == s.processed[k].path && after[k].node.title == s.processed[k].node.title
  {
    if IsHeading(s.path, line) {
      var n := HeadingIndex(s, line);
    } else {
      StepBody(s, line);
    }
  }

  // ---------------------------------------------------------------------------
  // The accumulator as an object
  // ---------------------------------------------------------------------------

  /** The reduce accumulator, updated in place line by line. */
  class Accumulator {
    var processed: seq<Entry>
    var path: Path

    predicate Valid()
      reads this
    {
      |processed| >= 1
    }

    function State(): ParseState
      reads this
    {
      ParseState(processed, path)
    }

    constructor ()
      ensures Valid() && State() == Initial()
    {
      processed := [Entry(RawNode("Root", ""), [])];
      path := [];
    }

    /** The body of the reduce callback for one line. */
    method Feed(line: string)
      requires Valid()
      modifies this
      ensures Valid() && State() == Step(old(State()), line)
    {
      var last := processed[|processed| - 1];
      var appended := Entry(RawNode(last.node.title, last.node.text + (line + "\n")), last.path);
      if '.' !in line {
        processed := processed[|processed| - 1 := appended];
        return;
      }
      var text := FirstSegment(line) + ".";
      var validSuccessors := ValidSuccessors(path);
      var levelIndex := FirstMatch(validSuccessors, text);
      if levelIndex.None? {
        processed := processed[|processed| - 1 := appended];
        return;
      }
      path := validSuccessors[levelIndex.value];
      processed := processed + [Entry(RawNode(line, ""), path)];
    }
  }

  /** The fold over all lines: the entries it leaves for the tree assembler. */
  method ParseLines(lines: seq<string>) returns (processed: seq<Entry>)
    ensures processed == Parse(lines).processed
  {
    var acc := new Accumulator();
    var k := 0;
    while k < |lines|
      invariant 0 <= k <= |lines|
      invariant acc.Valid() && acc.State() == Parse(lines[..k])
    {
      assert lines[..k + 1][..k] == lines[..k];
      acc.Feed(lines[k]);
      k := k + 1;
    }
    assert lines[..k] == lines;
    processed := acc.processed;
  }

  /** First-match of a heading whose first segment is the label of candidate
      `k` and of no earlier candidate. */
  lemma HeadingStep(s: ParseState, line: string, k: nat)
    requires |s.processed| >= 1 && '.' in line
    requires k < |Successors(s.path)| && Label(Successors(s.path)[k]) == Some(FirstSegment(line))
    requires forall j :: 0 <= j < k ==> Label(Successors(s.path)[j]) != Some(FirstSegment(line))
    ensures Step(s, line) == ParseState(s.processed + [Entry(RawNode(line, ""), Successors(s.path)[k])], Successors(s.path)[k])
  {
    var cands := Successors(s.path);
    var seg := FirstSegment(line);
    AnchoredTestIsEquality(Label(cands[k]), seg);
    forall j | 0 <= j < k ensures !AnchoredTest(Label(cands[j]), seg + ".") {
      AnchoredTestIsEquality(Label(cands[j]), seg);
    }
    FirstMatchAt(cands, seg + ".", k);
  }

  /** The candidates at the start of the document. */
  lemma ExampleRootCandidates()
    ensures Successors([]) == [[0], [1], [2]]
  {
    var root: Path := [];
    assert root + [0] == [0] && root + [1] == [1] && root + [2] == [2];
    assert Descend(root) == [[0], [1], [2]];
    assert Upper(root, 0) == [];
  }

  /** The candidates after "I. Intro": its children, then [0] again (the
      `|| -1` quirk), [1] and [2]. */
  lemma ExampleFirstCandidates()
    ensures Successors([0]) == [[0, 0], [0, 1], [0, 2], [0], [1], [2]]
  {
    var root: Path := [];
    var p1: Path := [0];
    assert p1[..0] == root;
    assert Advance(0, 0) == 0 && Advance(0, 1) == 1 && Advance(0, 2) == 2;
    assert root + [0] == [0] && root + [1] == [1] && root + [2] == [2];
    assert Level(p1, 0) == [[0], [1], [2]];
    assert Upper(p1, 1) == [];
    assert Upper(p1, 0) == [[0], [1], [2]];
    assert p1 + [0] == [0, 0] && p1 + [1] == [0, 1] && p1 + [2] == [0, 2];
    assert Descend(p1) == [[0, 0], [0, 1], [0, 2]];
  }

  /** The candidates after "A. Sub". */
  lemma ExampleSubCandidates()
    ensures Successors([0, 0]) == [[0, 0, 0], [0, 0, 1], [0, 0, 2], [0, 0], [0, 1], [0, 2], [0], [1], [2]]
  {
    var root: Path := [];
    var p2: Path := [0, 0];
    assert p2[..1] == [0] && p2[..0] == root;
    assert Advance(0, 0) == 0 && Advance(0, 1) == 1 && Advance(0, 2) == 2;
    assert p2[..1] + [0] == [0, 0] && p2[..1] + [1] == [0, 1] && p2[..1] + [2] == [0, 2];
    assert Level(p2, 1) == [[0, 0], [0, 1], [0, 2]];
    assert p2 + [0] == [0, 0, 0] && p2 + [1] == [0, 0, 1] && p2 + [2] == [0, 0, 2];
    assert Descend(p2) == [[0, 0, 0], [0, 0, 1], [0, 0, 2]];
    assert Upper(p2, 2) == [];
    assert Upper(p2, 1) == [[0, 0], [0, 1], [0, 2]];
    assert root + [0] == [0] && root + [1] == [1] && root + [2] == [2];
    assert Level(p2, 0) == [[0], [1], [2]];
    assert Upper(p2, 0) == [[0, 0], [0, 1], [0, 2], [0], [1], [2]];
  }

  // ---------------------------------------------------------------------------
  // A small document, line by line
  // ---------------------------------------------------------------------------

  const RootEntry := Entry(RawNode("Root", ""), [])

  /** The text before the first ". " of the example's heading lines. */
  lemma ExampleSegments()
    ensures FirstSegment("I. Intro") == "I"
    ensures FirstSegment("A. Sub") == "A"
    ensures FirstSegment("II. Next") == "II"
  {
    assert PeriodSpaceAt("I. Intro", 1);
    assert PeriodSpaceAt("A. Sub", 1);
    assert PeriodSpaceAt("II. Next", 2);
  }

  /** "I. Intro" as the first line opens [0]. */
  lemma ExampleIntro()
    ensures Step(Initial(), "I. Intro") == ParseState([RootEntry, Entry(RawNode("I. Intro", ""), [0])], [0])
  {
    Roman.FirstNumerals();
    ExampleRootCandidates();
    ExampleSegments();
    HeadingStep(Initial(), "I. Intro", 0);
  }

  /** "A. Sub" after the body of "I. Intro" opens [0, 0]. */
  lemma ExampleSubheading()
    ensures var s := ParseState([RootEntry, Entry(RawNode("I. Intro", "body\n"), [0])], [0]);
            Step(s, "A. Sub") == ParseState(s.processed + [Entry(RawNode("A. Sub", ""), [0, 0])], [0, 0])
  {
    ExampleFirstCandidates();
    ExampleSegments();
    assert Label([0, 0]) == Some("A");
    var s := ParseState([RootEntry, Entry(RawNode("I. Intro", "body\n"), [0])], [0]);
    HeadingStep(s, "A. Sub", 0);
  }

  /** A body line goes to the entry opened last. */
  lemma ExampleBody(s: ParseState, title: string, path: Path, line: string)
    requires |s.processed| >= 1 && '.' !in line
    requires s.processed[|s.processed| - 1] == Entry(RawNode(title, ""), path)
    ensures Step(s, line) ==
            s.(processed := s.processed[..|s.processed| - 1] + [Entry(RawNode(title, line + "\n"), path)])
  {
    BodyStep(s, line);
    assert "" + (line + "\n") == line + "\n";
  }

  /** A line without "." is body text. */
  lemma BodyStep(s: ParseState, line: string)
    requires |s.processed| >= 1 && '.' !in line
    ensures Step(s, line) == AppendToLast(s, line + "\n")
  {
  }

  /** The fold after one more line is one more step. */
  lemma ParseSnoc(lines: seq<string>, line: string)
    ensures Parse(lines + [line]) == Step(Parse(lines), line)
  {
    assert (lines + [line])[..|lines|] == lines;
  }

  /** "II. Next" after a state at [0, 0] opens [1]. */
  lemma ExampleNext(s: ParseState)
    requires |s.processed| >= 1 && s.path == [0, 0]
    ensures Step(s, "II. Next") == ParseState(s.processed + [Entry(RawNode("II. Next", ""), [1])], [1])
  {
    ExampleSegments();
    ExampleSubCandidates();
    ExampleLabels();
    HeadingStep(s, "II. Next", 7);
  }

  /** The labels of the candidates after "A. Sub": only [1] is "II". */
  lemma ExampleLabels()
    ensures var c := Successors([0, 0]);
            Label(c[7]) == Some("II") && forall j :: 0 <= j < 7 ==> Label(c[j]) != Some("II")
  {
    ExampleSubCandidates();
    Roman.FirstNumerals();
    assert Label([0, 0, 0]) == Some("1") && Label([0, 0, 1]) == Some("2") && Label([0, 0, 2]) == Some("3");
    assert Label([0, 0]) == Some("A") && Label([0, 1]) == Some("B") && Label([0, 2]) == Some("C");
    assert Label([0]) == Some("I");
    assert Label([1]) == Some("II");
  }
}
