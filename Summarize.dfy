/** The tree walks of src/summarize.ts over an outline read back from JSON,
    where a hole of the child array has become `null` (here `None`) and is
    visited like any child. */
module Summarize {
  import opened Wrappers
  import opened Text
  import opened Outline

  // ---------------------------------------------------------------------------
  // countNodes
  // ---------------------------------------------------------------------------

  /** `countNodes(node)`: one for the slot itself (a `null` slot included),
      plus the counts of all child slots. */
  function NodeCount(n: Option<Node>): nat
    decreases n
  {
    match n
    case None => 1
    case Some(node) => 1 + ChildrenCount(node, |node.children|)
  }

  /** The counts of the child slots `node.children[..i]`, summed. */
  function ChildrenCount(node: Node, i: nat): nat
    requires i <= |node.children|
    decreases node, i
  {
    if i == 0 then 0
    else ChildrenCount(node, i - 1) + NodeCount(node.children[i - 1])
  }

  /** `countNodes`: the `forEach` adds the count of every child slot. */
  method CountNodes(n: Option<Node>) returns (count: nat)
    ensures count == NodeCount(n)
    decreases n
  {
    count := 1;
    if n.Some? {
      var node := n.value;
      var i := 0;
      while i < |node.children|
        invariant 0 <= i <= |node.children|
        invariant count == 1 + ChildrenCount(node, i)
      {
        var c := CountNodes(node.children[i]);
        count := count + c;
        i := i + 1;
      }
    }
  }

  // ---------------------------------------------------------------------------
  // getAllText
  // ---------------------------------------------------------------------------

  /** `getAllText(node)`: the node's text (or ""), then for each child slot a
      line break and that slot's text; a `null` slot gives "". */
  function AllText(n: Option<Node>): string
    decreases n
  {
    match n
    case None => ""
    case Some(node) => OrEmpty(node.text) + ChildrenText(node, |node.children|)
  }

  /** What the child slots `node.children[..i]` append. */
  function ChildrenText(node: Node, i: nat): string
    requires i <= |node.children|
    decreases node, i
  {
    if i == 0 then ""
    else ChildrenText(node, i - 1) + ("\n" + AllText(node.children[i - 1]))
  }

  /** `getAllText`: the `forEach` appends a break and each child's text. */
  method GetAllText(n: Option<Node>) returns (text: string)
    ensures text == AllText(n)
    decreases n
  {
    if n.None? {
      return "";
    }
    var node := n.value;
    text := OrEmpty(node.text);
    var i := 0;
    while i < |node.children|
      invariant 0 <= i <= |node.children|
      invariant text == OrEmpty(node.text) + ChildrenText(node, i)
    {
      var t := GetAllText(node.children[i]);
      AppendAssoc(OrEmpty(node.text), ChildrenText(node, i), "\n" + t);
      text := text + ("\n" + t);
      i := i + 1;
    }
  }

  /** The texts of all slots in pre-order, a `null` slot giving "": the
      reference reading of what `getAllText` visits. */
  function PreTexts(n: Option<Node>): (r: seq<string>)
    ensures |r| >= 1
    decreases n
  {
    match n
    case None => [""]
    case Some(node) => [OrEmpty(node.text)] + ChildrenPreTexts(node, |node.children|)
  }

  function ChildrenPreTexts(node: Node, i: nat): seq<string>
    requires i <= |node.children|
    decreases node, i
  {
    if i == 0 then []
    else ChildrenPreTexts(node, i - 1) + PreTexts(node.children[i - 1])
  }

  /** Joining two non-empty lists is joining each and putting the separator
      between them. */
  lemma {:induction false} JoinAppend(a: seq<string>, b: seq<string>, sep: string)
    requires |a| >= 1 && |b| >= 1
    ensures Join(a + b, sep) == Join(a, sep) + sep + Join(b, sep)
  {
    if |a| == 1 {
      assert a + b == [a[0]] + b;
      assert (a + b)[1..] == b;
    } else {
      JoinAppend(a[1..], b, sep);
      assert (a + b)[1..] == a[1..] + b;
      assert (a + b)[0] == a[0];
    }
  }

  /** `getAllText` is the pre-order list of texts joined by line breaks, and
      `countNodes` is the length of that list: one piece per counted slot. */
  lemma {:induction false} AllTextIsJoin(n: Option<Node>)
    ensures AllText(n) == Join(PreTexts(n), "\n")
    ensures |PreTexts(n)| == NodeCount(n)
    decreases n
  {
    match n
    case None =>
    case Some(node) =>
      ChildrenTextIsJoin(node, |node.children|);
  }

  lemma {:induction false} ChildrenTextIsJoin(node: Node, i: nat)
    requires i <= |node.children|
    ensures OrEmpty(node.text) + ChildrenText(node, i) ==
            Join([OrEmpty(node.text)] + ChildrenPreTexts(node, i), "\n")
    ensures |ChildrenPreTexts(node, i)| == ChildrenCount(node, i)
    decreases node, i
  {
    var t := OrEmpty(node.text);
    if i == 0 {
      assert [t] + ChildrenPreTexts(node, 0) == [t];
    } else {
      ChildrenTextIsJoin(node, i - 1);
      var c := node.children[i - 1];
      AllTextIsJoin(c);
      var front := [t] + ChildrenPreTexts(node, i - 1);
      assert [t] + ChildrenPreTexts(node, i) == front + PreTexts(c);
      JoinAppend(front, PreTexts(c), "\n");
      AppendAssoc(t, ChildrenText(node, i - 1), "\n" + AllText(c));
      AppendAssoc(Join(front, "\n"), "\n", AllText(c));
    }
  }

  /** The text of every node of the tree is part of `getAllText`. */
  lemma AllTextContains(n: Option<Node>, q: Path)
    requires n.Some? && Lookup(n.value, q).Some?
    ensures Contains(AllText(n), OrEmpty(Lookup(n.value, q).value.text))
    decreases |q|
  {
    var node := n.value;
    if q == [] {
      ContainsMiddle("", OrEmpty(node.text), ChildrenText(node, |node.children|));
      assert "" + OrEmpty(node.text) + ChildrenText(node, |node.children|) == AllText(n);
    } else {
      var c := node.children[q[0]];
      AllTextContains(c, q[1..]);
      ChildrenTextContains(node, q[0], |node.children|);
      ContainsTrans(ChildrenText(node, |node.children|), AllText(c), OrEmpty(Lookup(n.value, q).value.text));
      ContainsExtend(OrEmpty(node.text), ChildrenText(node, |node.children|), "", OrEmpty(Lookup(n.value, q).value.text));
      assert OrEmpty(node.text) + ChildrenText(node, |node.children|) + "" == AllText(n);
    }
  }

  /** The text of child slot `k` is part of what the slots up to `i` append. */
  lemma {:induction false} ChildrenTextContains(node: Node, k: nat, i: nat)
    requires k < i <= |node.children|
    ensures Contains(ChildrenText(node, i), AllText(node.children[k]))
    decreases i
  {
    var c := AllText(node.children[i - 1]);
    if k == i - 1 {
      ContainsMiddle(ChildrenText(node, i - 1) + "\n", c, "");
      AppendAssoc(ChildrenText(node, i - 1), "\n", c);
      assert ChildrenText(node, i - 1) + "\n" + c + "" == ChildrenText(node, i);
    } else {
      ChildrenTextContains(node, k, i - 1);
      ContainsExtend("", ChildrenText(node, i - 1), "\n" + c, AllText(node.children[k]));
      assert "" + ChildrenText(node, i - 1) + ("\n" + c) == ChildrenText(node, i);
    }
  }

  // ---------------------------------------------------------------------------
  // getNodePosition
  // ---------------------------------------------------------------------------

  /** The titles of `nodes`, an absent title becoming "" as `join` does. */
  function Titles(nodes: seq<Node>): (r: seq<string>)
    ensures |r| == |nodes|
    ensures forall k :: 0 <= k < |nodes| ==> r[k] == OrEmpty(nodes[k].title)
  {
    if nodes == [] then [] else Titles(nodes[..|nodes| - 1]) + [OrEmpty(nodes[|nodes| - 1].title)]
  }

  /** `getNodePosition(node, parents)`: the titles from the root down to the
      node, joined by " > ". */
  function Position(node: Node, parents: seq<Node>): string
  {
    Join(Titles(parents + [node]), " > ")
  }

  /** Going one level down appends " > " and the child's title. */
  lemma PositionStep(node: Node, parents: seq<Node>, child: Node)
    ensures Position(child, parents + [node]) == Position(node, parents) + " > " + OrEmpty(child.title)
  {
    var ts := Titles(parents + [node]);
    assert parents + [node] + [child] == (parents + [node]) + [child];
    assert Titles(parents + [node] + [child]) == ts + [OrEmpty(child.title)];
    JoinAppend(ts, [OrEmpty(child.title)], " > ");
  }

  /** The position of a node without parents is its own title. */
  lemma PositionTop(node: Node)
    ensures Position(node, []) == OrEmpty(node.title)
  {
    assert [] + [node] == [node];
  }

  // ---------------------------------------------------------------------------
  // getAllSummaryText
  // ---------------------------------------------------------------------------

  /** What the key points `kps[..i]` append: a line per key point. */
  function KeyPointsText(kps: seq<KeyPoint>, i: nat): string
    requires i <= |kps|
  {
    if i == 0 then ""
    else KeyPointsText(kps, i - 1) + ("\n" + kps[i - 1].audience + ": " + kps[i - 1].point)
  }

  /** What one summary appends: each present, non-empty field on a line of
      its own, then each key point; a failure marker has none of these
      fields and appends nothing. */
  function OneSummaryText(s: Summary): string
  {
    match s
    case Failed(_) => ""
    case Parsed(summary, changes, kps) =>
      (if Truthy(summary) then "\n" + summary.value else "") +
      (if Truthy(changes) then "\n" + changes.value else "") +
      (if kps.Some? then KeyPointsText(kps.value, |kps.value|) else "")
  }

  /** `getAllSummaryText(summaries)` */
  function SummaryText(ss: seq<Summary>): string
  {
    if ss == [] then "" else SummaryText(ss[..|ss| - 1]) + OneSummaryText(ss[|ss| - 1])
  }

  /** `getAllSummaryText`: a loop over the summaries. */
  method GetAllSummaryText(summaries: seq<Summary>) returns (text: string)
    ensures text == SummaryText(summaries)
  {
    text := "";
    var i := 0;
    while i < |summaries|
      invariant 0 <= i <= |summaries|
      invariant text == SummaryText(summaries[..i])
    {
      text := AppendSummary(text, summaries[i]);
      assert summaries[..i + 1][..i] == summaries[..i];
      i := i + 1;
    }
    assert summaries[..i] == summaries;
  }

  /** The body of the loop of `getAllSummaryText` for one summary, with its
      inner loop over the key points. */
  method AppendSummary(textIn: string, summary: Summary) returns (text: string)
    ensures text == textIn + OneSummaryText(summary)
  {
    text := textIn;
    if summary.Failed? {
      assert text == text + "";
      return;
    }
    if summary.summary.Some? && summary.summary.value != "" {
      text := text + ("\n" + summary.summary.value);
    }
    ghost var afterSummary := text;
    if summary.changesFromProposal.Some? && summary.changesFromProposal.value != "" {
      text := text + ("\n" + summary.changesFromProposal.value);
    }
    ghost var afterChanges := text;
    if summary.keyPointsByAudience.Some? {
      var kps := summary.keyPointsByAudience.value;
      var j := 0;
      while j < |kps|
        invariant 0 <= j <= |kps|
        invariant text == afterChanges + KeyPointsText(kps, j)
      {
        AppendAssoc(afterChanges, KeyPointsText(kps, j), "\n" + kps[j].audience + ": " + kps[j].point);
        text := text + ("\n" + kps[j].audience + ": " + kps[j].point);
        j := j + 1;
      }
    } else {
      assert text == afterChanges + "";
    }
    SummaryParts(textIn, summary, afterSummary, afterChanges, text);
  }

  /** The three parts the loop appends for one summary add up to its text. */
  lemma SummaryParts(before: string, s: Summary, afterSummary: string, afterChanges: string, text: string)
    requires s.Parsed?
    requires afterSummary == before + (if Truthy(s.summary) then "\n" + s.summary.value else "")
    requires afterChanges == afterSummary + (if Truthy(s.changesFromProposal) then "\n" + s.changesFromProposal.value else "")
    requires text == afterChanges +
                     (if s.keyPointsByAudience.Some? then KeyPointsText(s.keyPointsByAudience.value, |s.keyPointsByAudience.value|) else "")
    ensures text == before + OneSummaryText(s)
  {
    var a := if Truthy(s.summary) then "\n" + s.summary.value else "";
    var b := if Truthy(s.changesFromProposal) then "\n" + s.changesFromProposal.value else "";
    var c := if s.keyPointsByAudience.Some? then KeyPointsText(s.keyPointsByAudience.value, |s.keyPointsByAudience.value|) else "";
    AppendAssoc(before, a, b);
    AppendAssoc(before, a + b, c);
  }

  /** The text of a list of summaries is the texts of its parts, in order. */
  lemma {:induction false} SummaryTextAppend(a: seq<Summary>, b: seq<Summary>)
    ensures SummaryText(a + b) == SummaryText(a) + SummaryText(b)
    decreases |b|
  {
    if b == [] {
      assert a + b == a;
    } else {
      var last := b[|b| - 1];
      SummaryTextAppend(a, b[..|b| - 1]);
      assert (a + b)[..|a + b| - 1] == a + b[..|b| - 1];
      AppendAssoc(SummaryText(a), SummaryText(b[..|b| - 1]), OneSummaryText(last));
    }
  }

  /** A failure marker adds nothing to the text. */
  lemma FailedAddsNothing(a: seq<Summary>, message: Option<string>)
    ensures SummaryText(a + [Failed(message)]) == SummaryText(a)
  {
    assert (a + [Failed(message)])[..|a|] == a;
  }

  /** The text of a list is the text before entry `k`, entry `k`'s own text
      and the text after it. */
  lemma {:induction false} SummaryTextAround(ss: seq<Summary>, k: nat)
    requires k < |ss|
    ensures SummaryText(ss) == SummaryText(ss[..k]) + OneSummaryText(ss[k]) + SummaryText(ss[k + 1..])
  {
    SummaryTextSnoc(ss, k);
    SummaryTextAppend(ss[..k + 1], ss[k + 1..]);
    assert ss[..k + 1] + ss[k + 1..] == ss;
  }

  /** The text of the first `k + 1` summaries is that of the first `k`, then
      summary `k`'s own. */
  lemma SummaryTextSnoc(ss: seq<Summary>, k: nat)
    requires k < |ss|
    ensures SummaryText(ss[..k + 1]) == SummaryText(ss[..k]) + OneSummaryText(ss[k])
  {
    assert ss[..k + 1][..k] == ss[..k];
  }

  /** Every present, non-empty summary and changes field of one summary, and
      every key point, is in its text on a line of its own. */
  lemma {:induction false} OneSummaryContains(s: Summary)
    requires s.Parsed?
    ensures Truthy(s.summary) ==> Contains(OneSummaryText(s), "\n" + s.summary.value)
    ensures Truthy(s.changesFromProposal) ==> Contains(OneSummaryText(s), "\n" + s.changesFromProposal.value)
    ensures s.keyPointsByAudience.Some? ==>
              forall j :: 0 <= j < |s.keyPointsByAudience.value| ==>
                Contains(OneSummaryText(s), "\n" + s.keyPointsByAudience.value[j].audience + ": " + s.keyPointsByAudience.value[j].point)
  {
    var a := if Truthy(s.summary) then "\n" + s.summary.value else "";
    var b := if Truthy(s.changesFromProposal) then "\n" + s.changesFromProposal.value else "";
    var c := if s.keyPointsByAudience.Some? then KeyPointsText(s.keyPointsByAudience.value, |s.keyPointsByAudience.value|) else "";
    assert OneSummaryText(s) == a + b + c;
    if Truthy(s.summary) {
      ContainsMiddle("", a, b + c);
      assert "" + a + (b + c) == a + b + c;
    }
    if Truthy(s.changesFromProposal) {
      ContainsMiddle(a, b, c);
    }
    if s.keyPointsByAudience.Some? {
      var kps := s.keyPointsByAudience.value;
      forall j | 0 <= j < |kps|
        ensures Contains(OneSummaryText(s), "\n" + kps[j].audience + ": " + kps[j].point)
      {
        KeyPointInSummary(a + b, c, kps, j);
      }
    }
  }

  /** A key point's line is in any text that ends with the key points. */
  lemma KeyPointInSummary(front: string, c: string, kps: seq<KeyPoint>, j: nat)
    requires j < |kps| && c == KeyPointsText(kps, |kps|)
    ensures Contains(front + c, "\n" + kps[j].audience + ": " + kps[j].point)
  {
    KeyPointsContains(kps, j, |kps|);
    ContainsExtend(front, c, "", "\n" + kps[j].audience + ": " + kps[j].point);
    assert front + c + "" == front + c;
  }

  /** Every present, non-empty summary and changes field, and every key
      point, of any summary in the list shows up in the text on a line of
      its own. */
  lemma {:induction false} SummaryTextContains(ss: seq<Summary>, k: nat, line: string)
    requires k < |ss| && Contains(OneSummaryText(ss[k]), line)
    ensures Contains(SummaryText(ss), line)
  {
    SummaryTextAround(ss, k);
    ContainsExtend(SummaryText(ss[..k]), OneSummaryText(ss[k]), SummaryText(ss[k + 1..]), line);
  }

  lemma {:induction false} KeyPointsContains(kps: seq<KeyPoint>, j: nat, i: nat)
    requires j < i <= |kps|
    ensures Contains(KeyPointsText(kps, i), "\n" + kps[j].audience + ": " + kps[j].point)
    decreases i
  {
    var line := "\n" + kps[i - 1].audience + ": " + kps[i - 1].point;
    if j == i - 1 {
      ContainsMiddle(KeyPointsText(kps, i - 1), line, "");
      assert KeyPointsText(kps, i - 1) + line + "" == KeyPointsText(kps, i);
    } else {
      KeyPointsContains(kps, j, i - 1);
      ContainsExtend("", KeyPointsText(kps, i - 1), line, "\n" + kps[j].audience + ": " + kps[j].point);
      assert "" + KeyPointsText(kps, i - 1) + line == KeyPointsText(kps, i);
    }
  }

  // ---------------------------------------------------------------------------
  // summarizeOneSnippet
  // ---------------------------------------------------------------------------

  /** What one request to the summarisation service yields: a reply whose
      content parses as JSON (its three fields, absent ones `None`), a reply
      that does not parse (with the parser's message, if any), or a rejected
      request. */
  datatype Reply =
    | Json(summary: Option<string>, changesFromProposal: Option<string>, keyPointsByAudience: Option<seq<KeyPoint>>)
    | Unparsable(message: Option<string>)
    | Rejected(error: string)

  /** The service, as seen by the program: its reply to the request with the
      given sequence number, position and text.  Numbering the requests lets
      the same text get different replies at different times. */
  type Service = (nat, string, string) -> Reply

  /** The state the summariser keeps between snippets: the cache, from text to
      stored summary, and the number of requests made so far. */
  datatype Memo = Memo(cache: map<string, Summary>, requests: nat)

  /** `b` is a later state than `a`: every cached entry is still there with the
      same summary, and no request has been un-made. */
  predicate Extends(a: Memo, b: Memo)
  {
    a.requests <= b.requests &&
    forall t :: t in a.cache ==> t in b.cache && b.cache[t] == a.cache[t]
  }

  /** Only parsed replies are stored, never a failure marker. */
  predicate CacheValid(m: Memo)
  {
    forall t :: t in m.cache ==> m.cache[t].Parsed?
  }

  /** `summarizeOneSnippet(position, text)`: a cached text is answered from
      the cache with no request; otherwise one request is made, a reply that
      parses is stored under the text and returned, one that does not parse
      gives the failure marker (not stored), and a rejected request fails. */
  function Snippet(service: Service, m: Memo, position: string, text: string): (Result<Summary, string>, Memo)
  {
    if text in m.cache then (Ok(m.cache[text]), m)
    else
      var sent := m.(requests := m.requests + 1);
      match service(m.requests, position, text)
      case Json(summary, changes, keyPoints) =>
        var parsed := Parsed(summary, changes, keyPoints);
        (Ok(parsed), sent.(cache := m.cache[text := parsed]))
      case Unparsable(message) => (Ok(Failed(message)), sent)
      case Rejected(error) => (Err(error), sent)
  }

  /** A snippet call only adds to the state; it makes at most one request,
      and none for a cached text; it keeps the cache free of failure
      markers; and a parsed summary it returns is the one cached for the
      text afterwards. */
  lemma SnippetState(service: Service, m: Memo, position: string, text: string)
    ensures Extends(m, Snippet(service, m, position, text).1)
    ensures Snippet(service, m, position, text).1.requests ==
            if text in m.cache then m.requests else m.requests + 1
    ensures CacheValid(m) ==> CacheValid(Snippet(service, m, position, text).1)
    ensures var (r, after) := Snippet(service, m, position, text);
            CacheValid(m) && r.Ok? && r.value.Parsed? ==> text in after.cache && after.cache[text] == r.value
    ensures var (r, after) := Snippet(service, m, position, text);
            r.Ok? && r.value.Failed? ==> after.cache == m.cache
  {
  }

  /** Asking again for a text whose summary was parsed is answered from the
      cache: the same summary, and no further request. */
  lemma SnippetAgain(service: Service, m: Memo, position: string, text: string, position2: string)
    requires CacheValid(m)
    requires Snippet(service, m, position, text).0.Ok? && Snippet(service, m, position, text).0.value.Parsed?
    ensures var after := Snippet(service, m, position, text).1;
            Snippet(service, after, position2, text) == (Snippet(service, m, position, text).0, after)
  {
    SnippetState(service, m, position, text);
  }

  // ---------------------------------------------------------------------------
  // summarizeTree
  // ---------------------------------------------------------------------------

  /** `MAX_TEXT_SIZE`: texts up to this length are summarised directly. */
  const MaxTextSize: nat := 4 * 2500

  /** The summaries of the filled child slots, in slot order: the
      `summarized` list. */
  function SummariesOf(kids: seq<Option<Node>>): seq<Summary>
  {
    if kids == [] then []
    else
      var last := kids[|kids| - 1];
      SummariesOf(kids[..|kids| - 1]) + (if last.Some? && last.value.summary.Some? then [last.value.summary.value] else [])
  }

  /** The text sent for a node: all of its text when short enough, else its
      own text followed by the text of its children's summaries. */
  function RequestText(node: Node, kids: seq<Option<Node>>): string
  {
    var text := AllText(Some(node));
    if |text| <= MaxTextSize then text
    else TemplateText(node.text) + "\n\n" + SummaryText(SummariesOf(kids))
  }

  /** `summarizeTree(node, parents)`, on values: the tree with every node's
      summary set, children first, and the state after all the requests; an
      empty slot stays empty.  A failed request fails the whole call. */
  function Tree(service: Service, n: Option<Node>, parents: seq<Node>, m: Memo): (Result<Option<Node>, string>, Memo)
    decreases n
  {
    match n
    case None => (Ok(None), m)
    case Some(node) =>
      var (kids, afterKids) := Children(service, node, parents + [node], |node.children|, m);
      if kids.Err? then (Err(kids.error), afterKids)
      else
        var (s, after) := Snippet(service, afterKids, Position(node, parents), RequestText(node, kids.value));
        if s.Err? then (Err(s.error), after)
        else (Ok(Some(node.(children := kids.value, summary := Some(s.value)))), after)
  }

  /** The child slots `node.children[..i]` summarised one after the other. */
  function Children(service: Service, node: Node, parents: seq<Node>, i: nat, m: Memo): (Result<seq<Option<Node>>, string>, Memo)
    requires i <= |node.children|
    decreases node, i
  {
    if i == 0 then (Ok([]), m)
    else
      var (done, before) := Children(service, node, parents, i - 1, m);
      if done.Err? then (done, before)
      else
        var c := node.children[i - 1];
        assert c < node;
        var (kid, after) := Tree(service, c, parents, before);
        if kid.Err? then (Err(kid.error), after)
        else (Ok(done.value + [kid.value]), after)
  }

  /** `t` is `orig` with a summary on every node: same titles, texts, paths
      and holes. */
  predicate Summarized(t: Option<Node>, orig: Option<Node>)
    decreases orig
  {
    match orig
    case None => t.None?
    case Some(o) =>
      t.Some? && t.value.summary.Some? &&
      t.value.title == o.title && t.value.text == o.text && t.value.path == o.path &&
      |t.value.children| == |o.children| &&
      forall k :: 0 <= k < |o.children| ==> Summarized(t.value.children[k], o.children[k])
  }

  /** Every node of `t` carries a summary that was parsed, not a failure
      marker. */
  predicate AllParsed(t: Option<Node>)
    decreases t
  {
    match t
    case None => true
    case Some(x) =>
      x.summary.Some? && x.summary.value.Parsed? &&
      forall k :: 0 <= k < |x.children| ==> AllParsed(x.children[k])
  }

  lemma ExtendsTrans(a: Memo, b: Memo, c: Memo)
    requires Extends(a, b) && Extends(b, c)
    ensures Extends(a, c)
  {
  }

  /** `summarizeTree` gives every node of the tree a summary and changes
      nothing else in it; it only adds to the cache, keeps it free of failure
      markers, and makes at most one request per slot that `countNodes`
      counts. */
  lemma {:induction false} TreeState(service: Service, n: Option<Node>, parents: seq<Node>, m: Memo)
    ensures Extends(m, Tree(service, n, parents, m).1)
    ensures Tree(service, n, parents, m).1.requests <= m.requests + NodeCount(n)
    ensures CacheValid(m) ==> CacheValid(Tree(service, n, parents, m).1)
    ensures Tree(service, n, parents, m).0.Ok? ==> Summarized(Tree(service, n, parents, m).0.value, n)
    decreases n
  {
    match n
    case None =>
    case Some(node) =>
      var ps := parents + [node];
      ChildrenState(service, node, ps, |node.children|, m);
      var (kids, afterKids) := Children(service, node, ps, |node.children|, m);
      if kids.Ok? {
        var request := RequestText(node, kids.value);
        SnippetState(service, afterKids, Position(node, parents), request);
        ExtendsTrans(m, afterKids, Snippet(service, afterKids, Position(node, parents), request).1);
      }
  }

  lemma {:induction false} ChildrenState(service: Service, node: Node, parents: seq<Node>, i: nat, m: Memo)
    requires i <= |node.children|
    ensures Extends(m, Children(service, node, parents, i, m).1)
    ensures Children(service, node, parents, i, m).1.requests <= m.requests + ChildrenCount(node, i)
    ensures CacheValid(m) ==> CacheValid(Children(service, node, parents, i, m).1)
    ensures var r := Children(service, node, parents, i, m).0;
            r.Ok? ==> |r.value| == i && forall k :: 0 <= k < i ==> Summarized(r.value[k], node.children[k])
    decreases node, i
  {
    if i == 0 {
      assert Children(service, node, parents, i, m) == (Ok([]), m);
    } else {
      ChildrenState(service, node, parents, i - 1, m);
      var (done, before) := Children(service, node, parents, i - 1, m);
      if done.Err? {
        assert Children(service, node, parents, i, m) == (done, before);
      } else {
        var c := node.children[i - 1];
        assert c < node;
        TreeState(service, c, parents, before);
        var (kid, after) := Tree(service, c, parents, before);
        ChildrenNext(service, node, parents, i - 1, m, done.value, before, kid, after);
        ChildrenStateStep(node, i, m, done.value, before, kid, after);
      }
    }
  }

  /** The facts of `ChildrenState` carried over one more slot, on values. */
  lemma ChildrenStateStep(node: Node, i: nat, m: Memo, done: seq<Option<Node>>, before: Memo,
                          kid: Result<Option<Node>, string>, after: Memo)
    requires 0 < i <= |node.children|
    requires Extends(m, before) && before.requests <= m.requests + ChildrenCount(node, i - 1)
    requires CacheValid(m) ==> CacheValid(before)
    requires |done| == i - 1 && forall k :: 0 <= k < i - 1 ==> Summarized(done[k], node.children[k])
    requires Extends(before, after) && after.requests <= before.requests + NodeCount(node.children[i - 1])
    requires CacheValid(before) ==> CacheValid(after)
    requires kid.Ok? ==> Summarized(kid.value, node.children[i - 1])
    ensures Extends(m, after) && after.requests <= m.requests + ChildrenCount(node, i)
    ensures CacheValid(m) ==> CacheValid(after)
    ensures kid.Ok? ==> forall k :: 0 <= k < i ==> Summarized((done + [kid.value])[k], node.children[k])
  {
    ExtendsTrans(m, before, after);
    if kid.Ok? {
      SummarizedAppend(done, kid.value, node.children[..i]);
    }
  }

  /** Appending a summarised slot to summarised slots. */
  lemma SummarizedAppend(done: seq<Option<Node>>, kid: Option<Node>, orig: seq<Option<Node>>)
    requires |orig| == |done| + 1
    requires forall k :: 0 <= k < |done| ==> Summarized(done[k], orig[k])
    requires Summarized(kid, orig[|done|])
    ensures forall k :: 0 <= k < |orig| ==> Summarized((done + [kid])[k], orig[k])
  {
  }

  /** Running `summarizeTree` again, with the cache the first run left (or
      any later one), when every summary of the first run was parsed: the
      same tree comes back and no request is made. */
  lemma {:induction false} Rerun(service: Service, n: Option<Node>, parents: seq<Node>, m: Memo, later: Memo)
    requires CacheValid(m)
    requires Tree(service, n, parents, m).0.Ok? && AllParsed(Tree(service, n, parents, m).0.value)
    requires Extends(Tree(service, n, parents, m).1, later)
    ensures Tree(service, n, parents, later) == (Tree(service, n, parents, m).0, later)
    decreases n
  {
    match n
    case None =>
    case Some(node) =>
      var ps := parents + [node];
      var (kids, afterKids) := Children(service, node, ps, |node.children|, m);
      var request := RequestText(node, kids.value);
      var (s, after) := Snippet(service, afterKids, Position(node, parents), request);
      ChildrenState(service, node, ps, |node.children|, m);
      SnippetState(service, afterKids, Position(node, parents), request);
      ExtendsTrans(afterKids, after, later);
      ChildrenRerun(service, node, ps, |node.children|, m, later);
  }

  lemma {:induction false} ChildrenRerun(service: Service, node: Node, parents: seq<Node>, i: nat, m: Memo, later: Memo)
    requires i <= |node.children|
    requires CacheValid(m)
    requires var r := Children(service, node, parents, i, m).0;
             r.Ok? && forall k :: 0 <= k < |r.value| ==> AllParsed(r.value[k])
    requires Extends(Children(service, node, parents, i, m).1, later)
    ensures Children(service, node, parents, i, later) == (Children(service, node, parents, i, m).0, later)
    decreases node, i
  {
    if i > 0 {
      var c := node.children[i - 1];
      assert c < node;
      var done, before, kid, after := RerunPieces(service, node, parents, i, m);
      ExtendsTrans(before, after, later);
      ChildrenRerun(service, node, parents, i - 1, m, later);
      Rerun(service, c, parents, before, later);
      ChildrenNext(service, node, parents, i - 1, later, done, later, Ok(kid), later);
    }
  }

  /** The last slot of a run whose summaries all parsed: the earlier slots'
      result and state, and the last slot's tree. */
  lemma RerunPieces(service: Service, node: Node, parents: seq<Node>, i: nat, m: Memo)
    returns (done: seq<Option<Node>>, before: Memo, kid: Option<Node>, after: Memo)
    requires 0 < i <= |node.children|
    requires CacheValid(m)
    requires var r := Children(service, node, parents, i, m).0;
             r.Ok? && forall k :: 0 <= k < |r.value| ==> AllParsed(r.value[k])
    ensures Children(service, node, parents, i - 1, m) == (Ok(done), before)
    ensures Tree(service, node.children[i - 1], parents, before) == (Ok(kid), after)
    ensures Children(service, node, parents, i, m) == (Ok(done + [kid]), after)
    ensures CacheValid(before) && Extends(before, after) && AllParsed(kid)
    ensures forall k :: 0 <= k < |done| ==> AllParsed(done[k])
  {
    var (d, b) := Children(service, node, parents, i - 1, m);
    var c := node.children[i - 1];
    var (k1, a) := Tree(service, c, parents, b);
    ChildrenNext(service, node, parents, i - 1, m, d.value, b, k1, a);
    done, before, kid, after := d.value, b, k1.value, a;
    ChildrenState(service, node, parents, i - 1, m);
    TreeState(service, c, parents, before);
    var all := done + [kid];
    assert all[|done|] == kid;
    forall k | 0 <= k < |done|
      ensures AllParsed(done[k])
    {
      assert done[k] == all[k];
    }
  }

  /** Once a child fails, the rest of the children are not summarised and
      the failure is the result. */
  lemma {:induction false} ChildrenErrSticks(service: Service, node: Node, parents: seq<Node>, i: nat, j: nat, m: Memo)
    requires i <= j <= |node.children|
    requires Children(service, node, parents, i, m).0.Err?
    ensures Children(service, node, parents, j, m) == Children(service, node, parents, i, m)
    decreases j
  {
    if j > i {
      ChildrenErrSticks(service, node, parents, i, j - 1, m);
    }
  }

  /** One more child slot: its tree is summarised with the state the earlier
      slots left, and appended, or its failure becomes the result. */
  lemma ChildrenNext(service: Service, node: Node, parents: seq<Node>, i: nat, m: Memo,
                     kids: seq<Option<Node>>, before: Memo, kid: Result<Option<Node>, string>, after: Memo)
    requires i < |node.children|
    requires Children(service, node, parents, i, m) == (Ok(kids), before)
    requires Tree(service, node.children[i], parents, before) == (kid, after)
    ensures Children(service, node, parents, i + 1, m) ==
            if kid.Err? then (Err(kid.error), after) else (Ok(kids + [kid.value]), after)
  {
  }

  lemma SummariesOfStep(kids: seq<Option<Node>>, kid: Option<Node>)
    ensures SummariesOf(kids + [kid]) ==
            SummariesOf(kids) + (if kid.Some? && kid.value.summary.Some? then [kid.value.summary.value] else [])
  {
    assert (kids + [kid])[..|kids|] == kids;
  }

  /** The summariser: the cache (loaded from the cache file when it starts),
      the request counter, and the service it sends requests to. */
  class Summarizer {
    var cache: map<string, Summary>
    var requests: nat
    const service: Service

    function State(): Memo
      reads this
    {
      Memo(cache, requests)
    }

    constructor(service: Service, stored: map<string, Summary>)
      ensures this.service == service && cache == stored && requests == 0
    {
      this.service := service;
      cache := stored;
      requests := 0;
    }

    /** `summarizeOneSnippet(position, text)` */
    method SummarizeOneSnippet(position: string, text: string) returns (r: Result<Summary, string>)
      modifies this
      ensures (r, State()) == Snippet(service, old(State()), position, text)
    {
      if text in cache {
        return Ok(cache[text]);
      }
      var reply := service(requests, position, text);
      requests := requests + 1;
      match reply {
        case Json(summary, changes, keyPoints) =>
          var parsed := Parsed(summary, changes, keyPoints);
          cache := cache[text := parsed];
          r := Ok(parsed);
        case Unparsable(message) =>
          r := Ok(Failed(message));
        case Rejected(error) =>
          r := Err(error);
      }
    }

    /** `summarizeTree(node, parents)`: the children first, then the node. */
    method SummarizeTree(n: Option<Node>, parents: seq<Node>) returns (r: Result<Option<Node>, string>)
      modifies this
      ensures (r, State()) == Tree(service, n, parents, old(State()))
      decreases n
    {
      if n.None? {
        return Ok(None);
      }
      var node := n.value;
      var text := GetAllText(n);
      var position := Position(node, parents);
      var kids, summarized := SummarizeChildren(node, parents + [node]);
      if kids.Err? {
        return Err(kids.error);
      }
      var request;
      if |text| <= MaxTextSize {
        request := text;
      } else {
        var summaryText := GetAllSummaryText(summarized);
        request := TemplateText(node.text) + "\n\n" + summaryText;
      }
      assert request == RequestText(node, kids.value);
      var s := SummarizeOneSnippet(position, request);
      if s.Err? {
        return Err(s.error);
      }
      r := Ok(Some(node.(children := kids.value, summary := Some(s.value))));
    }

    /** One child slot of `summarizeTree`: its subtree is summarised and
        appended to `kids`, its summary, if any, to `summarized`. */
    method SummarizeSlot(node: Node, parents: seq<Node>, i: nat, ghost start: Memo,
                         kids: seq<Option<Node>>, summarizedIn: seq<Summary>)
      returns (r: Result<seq<Option<Node>>, string>, summarized: seq<Summary>)
      requires i < |node.children|
      requires Children(service, node, parents, i, start) == (Ok(kids), State())
      requires summarizedIn == SummariesOf(kids)
      modifies this
      ensures (r, State()) == Children(service, node, parents, i + 1, start)
      ensures r.Ok? ==> summarized == SummariesOf(r.value)
      decreases node, 0
    {
      var child := node.children[i];
      assert child < node;
      ghost var before := State();
      var kid := SummarizeTree(child, parents);
      ChildrenNext(service, node, parents, i, start, kids, before, kid, State());
      summarized := summarizedIn;
      if kid.Err? {
        return Err(kid.error), summarized;
      }
      SummariesOfStep(kids, kid.value);
      if kid.value.Some? && kid.value.value.summary.Some? {
        summarized := summarized + [kid.value.value.summary.value];
      }
      r := Ok(kids + [kid.value]);
    }

    /** The children of `summarizeTree`, one after the other, collecting the
        `summarized` list. */
    method SummarizeChildren(node: Node, parents: seq<Node>) returns (r: Result<seq<Option<Node>>, string>, summarized: seq<Summary>)
      modifies this
      ensures (r, State()) == Children(service, node, parents, |node.children|, old(State()))
      ensures r.Ok? ==> summarized == SummariesOf(r.value)
      decreases node
    {
      ghost var start := State();
      var kids: seq<Option<Node>> := [];
      summarized := [];
      var i := 0;
      while i < |node.children|
        invariant 0 <= i <= |node.children|
        invariant Children(service, node, parents, i, start) == (Ok(kids), State())
        invariant summarized == SummariesOf(kids)
      {
        var done;
        done, summarized := SummarizeSlot(node, parents, i, start, kids, summarized);
        if done.Err? {
          ChildrenErrSticks(service, node, parents, i + 1, |node.children|, start);
          return done, summarized;
        }
        kids := done.value;
        i := i + 1;
      }
      r := Ok(kids);
    }
  }
}
