/** The outline tree shared by the parser (src/prompts.ts) and the
    summariser (src/summarize.ts). */
module Outline {
  import opened Wrappers

  /** A position vector: one index per depth; the root has the empty path. */
  type Path = seq<nat>

  /** One key point of a summary, addressed to one audience. */
  datatype KeyPoint = KeyPoint(audience: string, point: string)

  /** What the summarisation service's JSON reply was parsed into, or the
      `{failed: message}` marker stored when it could not be parsed.  Absent
      fields are `None`. */
  datatype Summary =
    | Parsed(summary: Option<string>, changesFromProposal: Option<string>, keyPointsByAudience: Option<seq<KeyPoint>>)
    | Failed(message: Option<string>)

  /** A node of the outline.  Placeholders created by the tree assembler have
      no title and no text (`None`).  A child slot holding `None` is a hole of
      a sparse JavaScript array (in a tree fresh from the assembler) or a
      `null` (in a tree read back from JSON). */
  datatype Node = Node(
    title: Option<string>,
    text: Option<string>,
    path: Path,
    children: seq<Option<Node>>,
    summary: Option<Summary>)

  /** The node reached from `t` by following the child indices of `q`, if
      every slot on the way is filled. */
  function Lookup(t: Node, q: Path): Option<Node>
    decreases |q|
  {
    if q == [] then Some(t)
    else if q[0] < |t.children| && t.children[q[0]].Some? then Lookup(t.children[q[0]].value, q[1..])
    else None
  }

  /** `p` is a prefix of `q`. */
  predicate IsPrefix(p: Path, q: Path)
  {
    |p| <= |q| && q[..|p|] == p
  }

  /** The text of a node as a template literal renders it: an absent text
      becomes the word "undefined". */
  function TemplateText(o: Option<string>): string
  {
    match o
    case Some(s) => s
    case None => "undefined"
  }

  /** A string that JavaScript treats as true: present and not empty. */
  predicate Truthy(o: Option<string>)
  {
    o.Some? && o.value != ""
  }

  /** `node.text || ""` and `title` inside `Array.join`: absent becomes "". */
  function OrEmpty(o: Option<string>): string
  {
    match o
    case Some(s) => s
    case None => ""
  }
}
