/** The syntax tree of parser.py (class Node) and its `__repr__` rendering. */
module Tree {
  import opened Tokens

  /** A node is labelled with its type; its children are either a list of nodes
      or, for a leaf, the text of the token it stands for. */
  datatype Node =
    | Leaf(name: string, text: string)
    | Internal(name: string, children: seq<Node>)

  /** `"  " * level` */
  function Indent(level: nat): (r: string)
    ensures |r| == 2 * level
    ensures forall k :: 0 <= k < |r| ==> r[k] == ' '
  {
    if level == 0 then "" else "  " + Indent(level - 1)
  }

  /** `Node.__repr__(level)`: a leaf is one line `type: text`; an internal node is
      the line `type:` followed by its children, one level deeper. */
  function Render(n: Node, level: nat): (r: string)
    decreases n
    ensures |Indent(level)| < |r| && r[..|Indent(level)|] == Indent(level)
    ensures r[|r| - 1] == '\n'
  {
    match n
    case Leaf(name, text) => Indent(level) + name + ": " + text + "\n"
    case Internal(name, children) => Indent(level) + name + ":\n" + RenderAll(children, level + 1)
  }

  /** `"".join(child.__repr__(level) for child in children)` */
  function RenderAll(ns: seq<Node>, level: nat): (r: string)
    decreases ns
    ensures r == [] <==> ns == []
    ensures r != [] ==> r[|r| - 1] == '\n'
  {
    if ns == [] then "" else Render(ns[0], level) + RenderAll(ns[1..], level)
  }

  /** Number of nodes, counting n itself. */
  function Size(n: Node): nat
    decreases n
  {
    match n
    case Leaf(_, _) => 1
    case Internal(_, children) => 1 + SizeAll(children)
  }

  function SizeAll(ns: seq<Node>): nat
    decreases ns
  {
    if ns == [] then 0 else Size(ns[0]) + SizeAll(ns[1..])
  }

  // ------------------------------------------------------- reference outline

  /** The outline of a tree: one entry per node in pre-order, each the node's
      depth below the root (plus level) and its heading. */
  datatype Entry = Entry(depth: nat, heading: string)

  function Heading(n: Node): string
  {
    match n
    case Leaf(name, text) => name + ": " + text
    case Internal(name, _) => name + ":"
  }

  function Outline(n: Node, level: nat): (es: seq<Entry>)
    decreases n
    ensures |es| == Size(n)
    ensures es != [] && es[0] == Entry(level, Heading(n))
    ensures forall k :: 0 <= k < |es| ==> es[k].depth >= level
  {
    match n
    case Leaf(_, _) => [Entry(level, Heading(n))]
    case Internal(_, children) => [Entry(level, Heading(n))] + OutlineAll(children, level + 1)
  }

  function OutlineAll(ns: seq<Node>, level: nat): (es: seq<Entry>)
    decreases ns
    ensures |es| == SizeAll(ns)
    ensures forall k :: 0 <= k < |es| ==> es[k].depth >= level
  {
    if ns == [] then [] else Outline(ns[0], level) + OutlineAll(ns[1..], level)
  }

  /** The text of an outline: every entry on a line of its own, indented by depth. */
  function Lines(es: seq<Entry>): string
  {
    if es == [] then "" else Indent(es[0].depth) + es[0].heading + "\n" + Lines(es[1..])
  }

  lemma {:induction false} LinesAppend(a: seq<Entry>, b: seq<Entry>)
    ensures Lines(a + b) == Lines(a) + Lines(b)
  {
    if a == [] {
      assert a + b == b;
    } else {
      assert (a + b)[1..] == a[1..] + b;
      LinesAppend(a[1..], b);
    }
  }

  /** The rendering is the outline written one entry per line: a node's heading
      appears on its own line, indented two spaces per level of depth, before
      the lines of its children. */
  lemma {:induction false} RenderIsOutline(n: Node, level: nat)
    ensures Render(n, level) == Lines(Outline(n, level))
    decreases n
  {
    match n
    case Leaf(_, _) =>
    case Internal(_, children) =>
      RenderAllIsOutline(children, level + 1);
  }

  lemma {:induction false} RenderAllIsOutline(ns: seq<Node>, level: nat)
    ensures RenderAll(ns, level) == Lines(OutlineAll(ns, level))
    decreases ns
  {
    if ns != [] {
      RenderIsOutline(ns[0], level);
      RenderAllIsOutline(ns[1..], level);
      LinesAppend(Outline(ns[0], level), OutlineAll(ns[1..], level));
    }
  }

  // ----------------------------------------------------------- line counting

  /** No node name or leaf text holds a line feed. */
  predicate Flat(n: Node)
    decreases n
  {
    match n
    case Leaf(name, text) => '\n' !in name && '\n' !in text
    case Internal(name, children) => '\n' !in name && forall k :: 0 <= k < |children| ==> Flat(children[k])
  }

  predicate FlatEntries(es: seq<Entry>)
  {
    forall k :: 0 <= k < |es| ==> '\n' !in es[k].heading
  }

  lemma NoBreakConcat(a: string, b: string)
    requires '\n' !in a && '\n' !in b
    ensures '\n' !in a + b
  {
  }

  lemma {:induction false} OutlineFlat(n: Node, level: nat)
    requires Flat(n)
    ensures FlatEntries(Outline(n, level))
    decreases n
  {
    match n
    case Leaf(name, text) =>
      NoBreakConcat(name, ": ");
      NoBreakConcat(name + ": ", text);
    case Internal(name, children) =>
      NoBreakConcat(name, ":");
      OutlineAllFlat(children, level + 1);
  }

  lemma {:induction false} OutlineAllFlat(ns: seq<Node>, level: nat)
    requires forall k :: 0 <= k < |ns| ==> Flat(ns[k])
    ensures FlatEntries(OutlineAll(ns, level))
    decreases ns
  {
    if ns != [] {
      OutlineFlat(ns[0], level);
      OutlineAllFlat(ns[1..], level);
    }
  }

  lemma {:induction false} LinesCount(es: seq<Entry>)
    requires FlatEntries(es)
    ensures NewlineCount(Lines(es)) == |es|
  {
    if es != [] {
      var e := es[0];
      var head := Indent(e.depth) + e.heading;
      assert '\n' !in Indent(e.depth);
      NoBreakConcat(Indent(e.depth), e.heading);
      NewlineCountZero(head);
      LinesCount(es[1..]);
      NewlineCountAppend(head, "\n");
      NewlineCountAppend(head + "\n", Lines(es[1..]));
    }
  }

  /** When no name or text holds a line feed, the rendering has exactly one line per node. */
  lemma RenderLineCount(n: Node, level: nat)
    requires Flat(n)
    ensures NewlineCount(Render(n, level)) == Size(n)
  {
    RenderIsOutline(n, level);
    OutlineFlat(n, level);
    LinesCount(Outline(n, level));
  }
}
