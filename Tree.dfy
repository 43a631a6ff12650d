/** `stitchTree` and `insertNode` (src/prompts.ts:549-583): the entries the
    parser produced, minus the root entry, are placed one by one into a fresh
    tree at `children[path.last]` under their prefix, creating placeholder
    nodes for missing prefixes.  Each node's text is run through the
    normaliser first, threading the footnote counter from entry to entry. */
module TreeAssembler {
  import opened Wrappers
  import opened Outline
  import opened OutlineParser
  import opened Normalizer

  /** `current.children[k] = node`: assigning past the end leaves holes. */
  function SetChild(cs: seq<Option<Node>>, k: nat, n: Node): (r: seq<Option<Node>>)
    ensures |r| == if k < |cs| then |cs| else k + 1
    ensures r[k] == Some(n)
    ensures forall j :: 0 <= j < |cs| && j != k ==> r[j] == cs[j]
    ensures forall j :: |cs| <= j < k ==> r[j] == None
  {
    if k < |cs| then cs[k := Some(n)] else cs + seq(k - |cs|, _ => None) + [Some(n)]
  }

  /** The node in child slot `k`, if the slot is filled. */
  function Slot(t: Node, k: nat): Option<Node>
  {
    if k < |t.children| then t.children[k] else None
  }

  /** `{path: path.slice(0, i), children: []}`: no title and no text. */
  function Placeholder(path: Path): Node
  {
    Node(None, None, path, [], None)
  }

  /** `insertNode` from node `cur`, whose absolute path is `prefix`, along
      the remaining indices `r`: every missing slot on the way gets a
      placeholder whose stored path is `prefix` (the path of its parent, one
      index short of its own), and the last slot gets the node, replacing
      whatever was there. */
  function InsertUnder(cur: Node, prefix: Path, n: Node, r: Path): Node
    requires |r| >= 1
    decreases |r|
  {
    if |r| == 1 then cur.(children := SetChild(cur.children, r[0], n))
    else
      var child := if Slot(cur, r[0]).Some? then Slot(cur, r[0]).value else Placeholder(prefix);
      cur.(children := SetChild(cur.children, r[0], InsertUnder(child, prefix + [r[0]], n, r[1..])))
  }

  /** `insertNode(node, path)` on the tree `root`.  With an empty path the
      node is stored under the property "undefined", which is no array slot:
      the tree of child slots is unchanged. */
  function Insert(root: Node, n: Node, p: Path): Node
  {
    if |p| == 0 then root else InsertUnder(root, [], n, p)
  }

  lemma {:induction false} LookupAppend(t: Node, a: Path, b: Path)
    ensures Lookup(t, a + b) == match Lookup(t, a) case None => None case Some(m) => Lookup(m, b)
    decreases |a|
  {
    if a == [] {
      assert a + b == b;
    } else {
      assert (a + b)[0] == a[0] && (a + b)[1..] == a[1..] + b;
      if a[0] < |t.children| && t.children[a[0]].Some? {
        LookupAppend(t.children[a[0]].value, a[1..], b);
      }
    }
  }

  /** After the insertion the node sits at its path. */
  lemma {:induction false} InsertFound(cur: Node, prefix: Path, n: Node, r: Path)
    requires |r| >= 1
    ensures Lookup(InsertUnder(cur, prefix, n, r), r) == Some(n)
    decreases |r|
  {
    var t := InsertUnder(cur, prefix, n, r);
    if |r| == 1 {
      assert r[1..] == [];
    } else {
      var child := if Slot(cur, r[0]).Some? then Slot(cur, r[0]).value else Placeholder(prefix);
      InsertFound(child, prefix + [r[0]], n, r[1..]);
    }
  }

  /** Everything below the inserted path is what is below the node itself. */
  lemma InsertBelow(root: Node, n: Node, p: Path, q: Path)
    requires |p| >= 1
    ensures Lookup(Insert(root, n, p), p + q) == Lookup(n, q)
  {
    assert Insert(root, n, p) == InsertUnder(root, [], n, p);
    InsertFound(root, [], n, p);
    LookupAppend(Insert(root, n, p), p, q);
  }

  /** Paths that leave the inserted path at index `d` see no change. */
  lemma {:induction false} InsertOff(cur: Node, prefix: Path, n: Node, r: Path, q: Path, d: nat)
    requires |r| >= 1
    requires d < |q| && d < |r| && q[..d] == r[..d] && q[d] != r[d]
    ensures Lookup(InsertUnder(cur, prefix, n, r), q) == Lookup(cur, q)
    decreases |r|
  {
    var t := InsertUnder(cur, prefix, n, r);
    if d == 0 {
      assert Slot(t, q[0]) == Slot(cur, q[0]);
    } else {
      assert q[0] == r[0] by { assert q[..d][0] == r[..d][0]; }
      var child := if Slot(cur, r[0]).Some? then Slot(cur, r[0]).value else Placeholder(prefix);
      assert q[1..][..d - 1] == q[..d][1..] && r[1..][..d - 1] == r[..d][1..];
      InsertOff(child, prefix + [r[0]], n, r[1..], q[1..], d - 1);
      if Slot(cur, r[0]).None? {
        assert Lookup(child, q[1..]) == None by {
          assert Slot(child, q[1..][0]) == None;
        }
      }
    }
  }

  /** The node at a proper prefix of the inserted path: an existing node
      keeps its title, text, path and summary; a missing one is a
      placeholder whose stored path is one index short. */
  lemma {:induction false} InsertSpine(cur: Node, prefix: Path, n: Node, r: Path, d: nat)
    requires 1 <= |r| && d < |r|
    ensures var m := Lookup(InsertUnder(cur, prefix, n, r), r[..d]);
            var old_ := Lookup(cur, r[..d]);
            m.Some? &&
            (old_.Some? ==> m.value.title == old_.value.title && m.value.text == old_.value.text &&
                            m.value.path == old_.value.path && m.value.summary == old_.value.summary) &&
            (old_.None? ==> d >= 1 && m.value == m.value.(title := None, text := None, summary := None) &&
                            m.value.path == prefix + r[..d - 1])
    decreases |r|
  {
    var t := InsertUnder(cur, prefix, n, r);
    if d == 0 {
      assert r[..0] == [];
    } else {
      var child := if Slot(cur, r[0]).Some? then Slot(cur, r[0]).value else Placeholder(prefix);
      assert r[..d] == [r[0]] + r[1..][..d - 1];
      assert r[..d][1..] == r[1..][..d - 1];
      InsertSpine(child, prefix + [r[0]], n, r[1..], d - 1);
      if d - 1 == 0 {
        assert r[1..][..0] == [];
      } else {
        assert prefix + [r[0]] + r[1..][..d - 2] == prefix + r[..d - 1];
      }
      if Slot(cur, r[0]).None? {
        assert Lookup(cur, r[..d]) == None;
        if d - 1 > 0 {
          assert Lookup(child, r[1..][..d - 1]) == None by {
            assert Slot(child, r[1..][..d - 1][0]) == None;
          }
        }
      }
    }
  }

  // ---------------------------------------------------------------------------
  // stitchTree
  // ---------------------------------------------------------------------------

  /** `{children: []}`: the fresh root has no title, no text and no path. */
  function EmptyRoot(): Node
  {
    Node(None, None, [], [], None)
  }

  /** `preprocessText` applied to an entry's text. */
  function Normalise(text: string, last: nat): (r: (string, nat))
    ensures r.1 >= last
  {
    PreprocessSpec(Some(text), last)
  }

  /** The texts of the entries `data[1..k]` passed through `normalise` in
      order, and the footnote counter after them: each text is normalised
      with the counter the previous entries left. */
  function ItemTexts(data: seq<Entry>, k: nat, normalise: (string, nat) -> (string, nat)): (r: (seq<string>, nat))
    requires k <= 1 || k <= |data|
    ensures |r.0| == if k <= 1 then 0 else k - 1
  {
    if k <= 1 then ([], 0)
    else
      var prev := ItemTexts(data, k - 1, normalise);
      var pre := normalise(data[k - 1].node.text, prev.1);
      (prev.0 + [pre.0], pre.1)
  }

  /** One step of the fold, for callers that should not see `normalise`'s
      body. */
  lemma ItemTextsStep(data: seq<Entry>, k: nat, normalise: (string, nat) -> (string, nat))
    requires 2 <= k <= |data|
    ensures var prev := ItemTexts(data, k - 1, normalise);
            ItemTexts(data, k, normalise) ==
              (prev.0 + [normalise(data[k - 1].node.text, prev.1).0], normalise(data[k - 1].node.text, prev.1).1)
  {
  }

  /** The node made of an entry and its normalised text. */
  function ItemNode(item: Entry, text: string): Node
  {
    Node(Some(item.node.title), Some(text), item.path, [], None)
  }

  /** The tree after inserting the entries `data[1..k]`, the entry `data[j]`
      carrying the text `texts[j - 1]`. */
  function Build(data: seq<Entry>, texts: seq<string>, k: nat): Node
    requires k <= 1 || (k <= |data| && k - 1 <= |texts|)
  {
    if k <= 1 then EmptyRoot()
    else Insert(Build(data, texts, k - 1), ItemNode(data[k - 1], texts[k - 2]), data[k - 1].path)
  }

  /** What `stitchTree(data)` returns. */
  function Stitch(data: seq<Entry>): Node
  {
    Build(data, ItemTexts(data, |data|, Normalise).0, |data|)
  }

  /** `Build` reads only the texts of the entries it has inserted. */
  lemma {:induction false} BuildPrefix(data: seq<Entry>, texts: seq<string>, more: seq<string>, k: nat)
    requires k <= 1 || (k <= |data| && k - 1 <= |texts|)
    ensures Build(data, texts + more, k) == Build(data, texts, k)
  {
    if k > 1 {
      BuildPrefix(data, texts, more, k - 1);
      assert (texts + more)[k - 2] == texts[k - 2];
    }
  }

  /** `stitchTree(data)`: the `forEach` over `data.slice(1)` with the
      counter threaded through `preprocessText`. */
  method StitchTree(data: seq<Entry>) returns (root: Node)
    ensures root == Stitch(data)
  {
    var lastFootnoteNumber := 0;
    ghost var texts: seq<string> := [];
    root := EmptyRoot();
    var k := 1;
    while k < |data|
      invariant 1 <= k <= |data| || (|data| == 0 && k == 1)
      invariant (texts, lastFootnoteNumber) == ItemTexts(data, k, Normalise)
      invariant root == Build(data, texts, k)
    {
      var item := data[k];
      var itemText;
      ghost var before := lastFootnoteNumber;
      itemText, lastFootnoteNumber := Preprocess(Some(item.node.text), lastFootnoteNumber);
      assert (itemText, lastFootnoteNumber) == Normalise(item.node.text, before);
      ItemTextsStep(data, k + 1, Normalise);
      BuildPrefix(data, texts, [itemText], k);
      texts := texts + [itemText];
      root := Insert(root, ItemNode(item, itemText), item.path);
      k := k + 1;
    }
  }

  /** The text of entry `j` is its own text normalised with the counter left
      by the entries before it, and later entries do not change it. */
  lemma {:induction false} ItemTextsAt(data: seq<Entry>, j: nat, m: nat, normalise: (string, nat) -> (string, nat))
    requires 1 <= j < m <= |data|
    ensures ItemTexts(data, m, normalise).0[j - 1] ==
            normalise(data[j].node.text, ItemTexts(data, j, normalise).1).0
  {
    if m > j + 1 {
      ItemTextsAt(data, j, m - 1, normalise);
    }
  }

  /** With a normaliser that never lowers the counter, the counter only
      grows along the entries. */
  lemma {:induction false} ItemTextsCounter(data: seq<Entry>, k: nat, m: nat, normalise: (string, nat) -> (string, nat))
    requires k <= m <= |data|
    requires forall text, last :: normalise(text, last).1 >= last
    ensures ItemTexts(data, k, normalise).1 <= ItemTexts(data, m, normalise).1
    decreases m - k
  {
    if k < m {
      ItemTextsCounter(data, k, m - 1, normalise);
    }
  }

  /** `stitchTree` threads a counter that never goes down. */
  lemma StitchCounter(data: seq<Entry>, k: nat, m: nat)
    requires k <= m <= |data|
    ensures ItemTexts(data, k, Normalise).1 <= ItemTexts(data, m, Normalise).1
  {
    ItemTextsCounter(data, k, m, Normalise);
  }

  /** The root stays the bare root: the root entry's title and text are
      dropped. */
  lemma {:induction false} BuildRoot(data: seq<Entry>, texts: seq<string>, k: nat)
    requires k <= 1 || (k <= |data| && k - 1 <= |texts|)
    ensures var t := Build(data, texts, k);
            t.title == None && t.text == None && t.path == [] && t.summary == None
  {
    if k > 1 {
      BuildRoot(data, texts, k - 1);
      var item := data[k - 1];
      if |item.path| >= 1 {
        InsertSpine(Build(data, texts, k - 1), [], ItemNode(item, texts[k - 2]), item.path, 0);
        assert item.path[..0] == [];
      }
    }
  }

  /** The first index where two paths differ, when neither is a prefix of
      the other. */
  lemma Divergence(q: Path, p: Path) returns (d: nat)
    requires !IsPrefix(q, p) && !IsPrefix(p, q)
    ensures d < |q| && d < |p| && q[..d] == p[..d] && q[d] != p[d]
  {
    d := 0;
    while d < |q| && d < |p| && q[d] == p[d]
      invariant d <= |q| && d <= |p| && q[..d] == p[..d]
    {
      assert q[..d + 1] == q[..d] + [q[d]] && p[..d + 1] == p[..d] + [p[d]];
      d := d + 1;
    }
    if d == |q| {
      assert false;
    }
    if d == |p| {
      assert false;
    }
  }

  /** One insertion at a path that is not a prefix of `q` keeps the title
      and text of the node at `q`. */
  lemma InsertKeeps(t: Node, n: Node, p: Path, q: Path)
    requires !IsPrefix(p, q)
    requires Lookup(t, q).Some?
    ensures Lookup(Insert(t, n, p), q).Some?
    ensures Lookup(Insert(t, n, p), q).value.title == Lookup(t, q).value.title
    ensures Lookup(Insert(t, n, p), q).value.text == Lookup(t, q).value.text
  {
    if IsPrefix(q, p) {
      assert p[..|q|] == q;
      InsertSpine(t, [], n, p, |q|);
    } else {
      var d := Divergence(q, p);
      InsertOff(t, [], n, p, q, d);
    }
  }

  /** The entry `data[k]` is in the tree with its title and its text unless
      a later entry was placed at its path or at one of its prefixes. */
  lemma {:induction false} BuildFound(data: seq<Entry>, texts: seq<string>, k: nat, m: nat)
    requires 1 <= k < m <= |data| && m - 1 <= |texts| && |data[k].path| >= 1
    requires forall j :: k < j < m ==> !IsPrefix(data[j].path, data[k].path)
    ensures Lookup(Build(data, texts, m), data[k].path).Some?
    ensures Lookup(Build(data, texts, m), data[k].path).value.title == Some(data[k].node.title)
    ensures Lookup(Build(data, texts, m), data[k].path).value.text == Some(texts[k - 1])
    decreases m - k
  {
    var q := data[k].path;
    if m == k + 1 {
      InsertFound(Build(data, texts, k), [], ItemNode(data[k], texts[k - 1]), q);
    } else {
      BuildFound(data, texts, k, m - 1);
      var item := data[m - 1];
      InsertKeeps(Build(data, texts, m - 1), ItemNode(item, texts[m - 2]), item.path, q);
    }
  }

  // ---------------------------------------------------------------------------
  // parseText
  // ---------------------------------------------------------------------------

  /** `parseText`: the fold over the lines, then the stitching of its entries. */
  method ParseText(lines: seq<string>) returns (root: Node)
    ensures root == Stitch(Parse(lines).processed)
  {
    var processed := ParseLines(lines);
    root := StitchTree(processed);
  }

  /** A heading line ends up in the tree at the path the parser gave it,
      with its title and its normalised text, unless a later heading took
      that path or one of its prefixes. */
  lemma ParseTextFound(lines: seq<string>, k: nat)
    requires 1 <= k < |Parse(lines).processed|
    requires var e := Parse(lines).processed;
             forall j :: k < j < |e| ==> !IsPrefix(e[j].path, e[k].path)
    ensures var e := Parse(lines).processed;
            var found := Lookup(Stitch(e), e[k].path);
            found.Some? && found.value.title == Some(e[k].node.title) &&
            found.value.text == Some(PreprocessSpec(Some(e[k].node.text), ItemTexts(e, k, Normalise).1).0)
  {
    ParseValid(lines);
    var e := Parse(lines).processed;
    assert |e[k].path| >= 1;
    BuildFound(e, ItemTexts(e, |e|, Normalise).0, k, |e|);
    ItemTextsAt(e, k, |e|, Normalise);
  }

  /** The tree's root is bare. */
  lemma ParseTextRoot(lines: seq<string>)
    ensures var t := Stitch(Parse(lines).processed);
            t.title == None && t.text == None && t.path == [] && t.summary == None
  {
    var e := Parse(lines).processed;
    BuildRoot(e, ItemTexts(e, |e|, Normalise).0, |e|);
  }
}
