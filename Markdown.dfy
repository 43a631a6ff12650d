/** `generateMarkdown` (src/prompts.ts:906-939): a pre-order walk of the
    outline that writes, for every node below the root, an HTML heading
    carrying the node's path, then the node's normalised text, threading the
    footnote counter through the whole walk.

    The normaliser is a parameter `pre` of the specification functions, so
    that the lemmas about the walk hold for any normaliser; the method uses
    `preprocessText`, that is `PreprocessSpec`. */
module Markdown {
  import opened Wrappers
  import opened Text
  import opened Outline
  import opened Normalizer

  /** The comma-separated decimal numbers of `p`. */
  function Numbers(p: Path): string
  {
    if |p| == 0 then ""
    else if |p| == 1 then NatToString(p[0])
    else NatToString(p[0]) + "," + Numbers(p[1..])
  }

  /** `JSON.stringify(path)` for an array of numbers. */
  function PathJson(p: Path): (r: string)
    ensures |r| >= 2 && r[0] == '[' && r[|r| - 1] == ']'
  {
    "[" + Numbers(p) + "]"
  }

  /** `Math.min(depth, 5)`: the heading level. */
  function Level(depth: nat): (r: nat)
    ensures r <= 5 && (r == depth || r == 5)
  {
    if depth < 5 then depth else 5
  }

  /** The heading line of a node at a depth: its title as a template literal
      renders it, so a placeholder's heading reads "undefined". */
  function Heading(n: Node, depth: nat): string
  {
    var tag := "H" + NatToString(Level(depth));
    "<" + tag + " data-path='" + PathJson(n.path) + "'>" + TemplateText(n.title) + "</" + tag + ">\n\n"
  }

  /** What a node contributes itself, and the counter after it: nothing at
      depth 0; otherwise its heading, then its normalised text if it has
      one.  The normaliser runs even for an absent text. */
  function Block(n: Node, depth: nat, last: nat, pre: (Option<string>, nat) -> (string, nat)): (r: (string, nat))
    ensures depth > 0 ==> StartsWith(r.0, Heading(n, depth))
    ensures depth == 0 ==> r == ("", last)
  {
    if depth == 0 then ("", last)
    else
      var p := pre(n.text, last);
      (Heading(n, depth) + (if Truthy(n.text) then p.0 + "\n\n" else ""), p.1)
  }

  /** The block in terms of what the normaliser returned. */
  lemma BlockOf(n: Node, depth: nat, last: nat, pre: (Option<string>, nat) -> (string, nat), text: string, after: nat)
    requires depth > 0 && pre(n.text, last) == (text, after)
    ensures Block(n, depth, last, pre) == (Heading(n, depth) + (if Truthy(n.text) then text + "\n\n" else ""), after)
  {
  }

  /** The output of the walk from `n` at `depth`, and the counter after it. */
  function Walk(n: Node, depth: nat, last: nat, pre: (Option<string>, nat) -> (string, nat)): (string, nat)
    decreases n, |n.children| + 1
  {
    var b := Block(n, depth, last, pre);
    var c := WalkChildren(n, |n.children|, depth + 1, b.1, pre);
    (b.0 + c.0, c.1)
  }

  /** The output of the walks of the children `n.children[..i]`, in order;
      holes are skipped, as `forEach` skips them. */
  function WalkChildren(n: Node, i: nat, depth: nat, last: nat, pre: (Option<string>, nat) -> (string, nat)): (string, nat)
    requires i <= |n.children|
    decreases n, i
  {
    if i == 0 then ("", last)
    else
      var prev := WalkChildren(n, i - 1, depth, last, pre);
      match n.children[i - 1]
      case None => prev
      case Some(c) =>
        assert c < n.children[i - 1];
        var r := Walk(c, depth, prev.1, pre);
        (prev.0 + r.0, r.1)
  }

  /** One more child slot of the `forEach`. */
  lemma WalkChildrenNext(n: Node, i: nat, depth: nat, last: nat, pre: (Option<string>, nat) -> (string, nat), text: string, after: nat)
    requires i < |n.children|
    requires n.children[i].Some? ==>
               Walk(n.children[i].value, depth, WalkChildren(n, i, depth, last, pre).1, pre) == (text, after)
    ensures n.children[i].None? ==> WalkChildren(n, i + 1, depth, last, pre) == WalkChildren(n, i, depth, last, pre)
    ensures n.children[i].Some? ==>
              WalkChildren(n, i + 1, depth, last, pre) == (WalkChildren(n, i, depth, last, pre).0 + text, after)
  {
  }

  /** The first half of `generateMarkdown`: the node's own heading and,
      below the root, its normalised text. */
  method RenderBlock(node: Node, depth: nat, lastIn: nat) returns (markdown: string, last: nat)
    ensures (markdown, last) == Block(node, depth, lastIn, PreprocessSpec)
  {
    if depth == 0 {
      return "", lastIn;
    }
    var thisNodeText;
    thisNodeText, last := Preprocess(node.text, lastIn);
    BlockOf(node, depth, lastIn, PreprocessSpec, thisNodeText, last);
    var heading := Heading(node, depth);
    if Truthy(node.text) {
      markdown := heading + (thisNodeText + "\n\n");
    } else {
      markdown := heading;
      assert heading + "" == heading;
    }
  }

  /** The second half of `generateMarkdown`: the `forEach` over the
      children, skipping holes, threading the counter. */
  method RenderChildren(node: Node, depth: nat, lastIn: nat) returns (markdown: string, last: nat)
    ensures (markdown, last) == WalkChildren(node, |node.children|, depth, lastIn, PreprocessSpec)
    decreases node, |node.children|
  {
    markdown := "";
    last := lastIn;
    var i := 0;
    while i < |node.children|
      invariant 0 <= i <= |node.children|
      invariant (markdown, last) == WalkChildren(node, i, depth, lastIn, PreprocessSpec)
    {
      markdown, last := RenderChild(node, i, depth, lastIn, markdown, last);
      i := i + 1;
    }
  }

  /** One call of the `forEach` callback: a hole is skipped, a child is
      rendered one level deeper and appended. */
  method RenderChild(node: Node, i: nat, depth: nat, lastIn: nat, markdownIn: string, lastBefore: nat)
    returns (markdown: string, last: nat)
    requires i < |node.children|
    requires (markdownIn, lastBefore) == WalkChildren(node, i, depth, lastIn, PreprocessSpec)
    ensures (markdown, last) == WalkChildren(node, i + 1, depth, lastIn, PreprocessSpec)
    decreases node, 0
  {
    markdown, last := markdownIn, lastBefore;
    match node.children[i] {
      case None =>
        WalkChildrenNext(node, i, depth, lastIn, PreprocessSpec, "", 0);
      case Some(child) =>
        assert child < node.children[i];
        var thisNodeText;
        thisNodeText, last := GenerateMarkdown(child, depth, last);
        WalkChildrenNext(node, i, depth, lastIn, PreprocessSpec, thisNodeText, last);
        markdown := markdown + thisNodeText;
    }
  }

  /** `generateMarkdown(node, depth, lastFootnoteNumberIn)` on a present
      node: its block, then the children's output in slot order. */
  method GenerateMarkdown(node: Node, depth: nat, lastIn: nat) returns (markdown: string, last: nat)
    ensures (markdown, last) == Walk(node, depth, lastIn, PreprocessSpec)
    decreases node, |node.children| + 1
  {
    markdown, last := RenderBlock(node, depth, lastIn);
    var children;
    children, last := RenderChildren(node, depth + 1, last);
    markdown := markdown + children;
  }

  /** With a normaliser that never lowers the counter, neither does the walk. */
  lemma {:induction false} WalkCounter(n: Node, depth: nat, last: nat, pre: (Option<string>, nat) -> (string, nat))
    requires forall t, l :: pre(t, l).1 >= l
    ensures Walk(n, depth, last, pre).1 >= last
    decreases n, |n.children| + 1
  {
    WalkChildrenCounter(n, |n.children|, depth + 1, Block(n, depth, last, pre).1, pre);
  }

  lemma {:induction false} WalkChildrenCounter(n: Node, i: nat, depth: nat, last: nat, pre: (Option<string>, nat) -> (string, nat))
    requires i <= |n.children|
    requires forall t, l :: pre(t, l).1 >= l
    ensures WalkChildren(n, i, depth, last, pre).1 >= last
    decreases n, i
  {
    if i > 0 {
      WalkChildrenCounter(n, i - 1, depth, last, pre);
      match n.children[i - 1]
      case None =>
      case Some(c) =>
        assert c < n.children[i - 1];
        WalkCounter(c, depth, WalkChildren(n, i - 1, depth, last, pre).1, pre);
    }
  }

  /** The children's output grows by appending. */
  lemma {:induction false} WalkChildrenExtends(n: Node, i: nat, j: nat, depth: nat, last: nat, pre: (Option<string>, nat) -> (string, nat))
    requires i <= j <= |n.children|
    ensures var a := WalkChildren(n, i, depth, last, pre).0;
            var b := WalkChildren(n, j, depth, last, pre).0;
            |a| <= |b| && b[..|a|] == a
    decreases j - i
  {
    if i < j {
      WalkChildrenExtends(n, i, j - 1, depth, last, pre);
    }
  }

  /** The walk of the child in slot `i` is part of the children's output. */
  lemma WalkChildrenContains(n: Node, i: nat, depth: nat, last: nat, pre: (Option<string>, nat) -> (string, nat))
    requires i < |n.children| && n.children[i].Some?
    ensures var before := WalkChildren(n, i, depth, last, pre);
            Contains(WalkChildren(n, |n.children|, depth, last, pre).0, Walk(n.children[i].value, depth, before.1, pre).0)
  {
    var before := WalkChildren(n, i, depth, last, pre);
    var r := Walk(n.children[i].value, depth, before.1, pre);
    var w := r.0;
    WalkChildrenNext(n, i, depth, last, pre, w, r.1);
    var upto := WalkChildren(n, i + 1, depth, last, pre).0;
    var all := WalkChildren(n, |n.children|, depth, last, pre).0;
    assert upto == before.0 + w;
    WalkChildrenExtends(n, i + 1, |n.children|, depth, last, pre);
    assert all == upto + all[|upto|..];
    ContainsMiddle(before.0, w, all[|upto|..]);
  }

  /** The output `out` holds the block of `m` at depth `d`, rendered with
      some counter value. */
  ghost predicate HasBlock(out: string, m: Node, d: nat, pre: (Option<string>, nat) -> (string, nat))
  {
    exists l :: Contains(out, Block(m, d, l, pre).0)
  }

  /** Every node below the walk's start (and the start itself when its depth
      is positive) contributes its heading, followed by its normalised text,
      with whatever counter the walk has reached there. */
  lemma {:induction false} WalkContainsBlock(n: Node, depth: nat, last: nat, q: Path, pre: (Option<string>, nat) -> (string, nat))
    requires Lookup(n, q).Some?
    ensures HasBlock(Walk(n, depth, last, pre).0, Lookup(n, q).value, depth + |q|, pre)
    decreases |q|, 1
  {
    if q == [] {
      OwnBlockInWalk(n, depth, last, pre);
    } else {
      var b := Block(n, depth, last, pre);
      ChildrenContainBlock(n, depth, b.1, q, pre);
      ChildrenInWalk(n, depth, last, pre, Lookup(n, q).value, depth + |q|);
    }
  }

  /** The walk from `n` starts with `n`'s own block. */
  lemma OwnBlockInWalk(n: Node, depth: nat, last: nat, pre: (Option<string>, nat) -> (string, nat))
    ensures HasBlock(Walk(n, depth, last, pre).0, n, depth, pre)
  {
    var b := Block(n, depth, last, pre);
    var c := WalkChildren(n, |n.children|, depth + 1, b.1, pre);
    ContainsMiddle("", b.0, c.0);
    assert "" + b.0 + c.0 == Walk(n, depth, last, pre).0;
  }

  /** A block in the children's output is a block in the walk's output. */
  lemma ChildrenInWalk(n: Node, depth: nat, last: nat, pre: (Option<string>, nat) -> (string, nat), m: Node, d: nat)
    requires HasBlock(WalkChildren(n, |n.children|, depth + 1, Block(n, depth, last, pre).1, pre).0, m, d, pre)
    ensures HasBlock(Walk(n, depth, last, pre).0, m, d, pre)
  {
    var b := Block(n, depth, last, pre);
    var c := WalkChildren(n, |n.children|, depth + 1, b.1, pre);
    var l :| Contains(c.0, Block(m, d, l, pre).0);
    ContainsExtend(b.0, c.0, "", Block(m, d, l, pre).0);
    assert b.0 + c.0 + "" == Walk(n, depth, last, pre).0;
  }

  /** A node below child `q[0]` has its block in the children's output. */
  lemma {:induction false} ChildrenContainBlock(n: Node, depth: nat, last: nat, q: Path, pre: (Option<string>, nat) -> (string, nat))
    requires |q| >= 1 && Lookup(n, q).Some?
    ensures HasBlock(WalkChildren(n, |n.children|, depth + 1, last, pre).0, Lookup(n, q).value, depth + |q|, pre)
    decreases |q|, 0
  {
    var child := n.children[q[0]].value;
    var target := Lookup(n, q).value;
    assert target == Lookup(child, q[1..]).value;
    var before := WalkChildren(n, q[0], depth + 1, last, pre);
    var w := Walk(child, depth + 1, before.1, pre).0;
    WalkContainsBlock(child, depth + 1, before.1, q[1..], pre);
    var l :| Contains(w, Block(target, depth + |q|, l, pre).0);
    WalkChildrenContains(n, q[0], depth + 1, last, pre);
    ContainsTrans(WalkChildren(n, |n.children|, depth + 1, last, pre).0, w, Block(target, depth + |q|, l, pre).0);
  }

  /** `generateMarkdown(root)`: every node of the tree below the root shows
      up as its heading followed by its text. */
  lemma MarkdownHasEveryNode(root: Node, q: Path)
    requires Lookup(root, q).Some? && |q| >= 1
    ensures HasBlock(Walk(root, 0, 0, PreprocessSpec).0, Lookup(root, q).value, |q|, PreprocessSpec)
  {
    WalkContainsBlock(root, 0, 0, q, PreprocessSpec);
  }

  /** `preprocessText` never lowers the counter, so neither does
      `generateMarkdown`. */
  lemma MarkdownCounter(root: Node, depth: nat, last: nat)
    ensures Walk(root, depth, last, PreprocessSpec).1 >= last
  {
    WalkCounter(root, depth, last, PreprocessSpec);
  }
}
